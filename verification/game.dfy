/** The game loop of main.js, as far as it decides anything: the number of stars earned when
    the run ends, and which components an update advances before and after game over. */
module Games {
  import opened Geometry
  import opened Wrappers
  import Utils
  import Rectangles
  import Tracks
  import Players
  import StarAnimations

  /** `starsSize`: the size of the stars shown after game over. */
  const StarsSize: real := 25.0

  // ---------------------------------------------------------------------------------------------
  // Stars earned
  // ---------------------------------------------------------------------------------------------

  /** The reduction `milestones.reduce((acc, m, i) => distance >= m ? i + 1 : acc, acc)` from
      index `i` on: the result is one past the last milestone reached. */
  function Reduce(milestones: seq<real>, distance: real, i: nat, acc: int): int
    requires i <= |milestones|
    decreases |milestones| - i
  {
    if i == |milestones| then acc
    else Reduce(milestones, distance, i + 1, if distance >= milestones[i] then i + 1 else acc)
  }

  /** `starsEarned` for the distance covered. */
  function StarsEarned(milestones: seq<real>, distance: int): (r: int)
    ensures 0 <= r <= |milestones|
  {
    ReduceBounds(milestones, distance as real, 0, 0);
    Reduce(milestones, distance as real, 0, 0)
  }

  lemma {:induction false} ReduceBounds(milestones: seq<real>, distance: real, i: nat, acc: int)
    requires i <= |milestones| && 0 <= acc <= i
    ensures acc <= Reduce(milestones, distance, i, acc) <= |milestones|
    ensures Reduce(milestones, distance, i, acc) >= 0
    decreases |milestones| - i
  {
    if i < |milestones| {
      var next := if distance >= milestones[i] then i + 1 else acc;
      ReduceBounds(milestones, distance, i + 1, next);
    }
  }

  /** The same result read from the end: the position after the last milestone reached, or 0
      when none is. */
  function LastReached(milestones: seq<real>, distance: real): nat {
    if milestones == [] then 0
    else if distance >= milestones[|milestones| - 1] then |milestones|
    else LastReached(milestones[..|milestones| - 1], distance)
  }

  /** Appending a milestone to the list: the reduction either stops at it or ignores it. */
  lemma {:induction false} ReduceSnoc(milestones: seq<real>, x: real, distance: real, i: nat, acc: int)
    requires i <= |milestones|
    ensures Reduce(milestones + [x], distance, i, acc) ==
            if distance >= x then |milestones| + 1 else Reduce(milestones, distance, i, acc)
    decreases |milestones| - i
  {
    var longer := milestones + [x];
    if i < |milestones| {
      assert longer[i] == milestones[i];
      var next := if distance >= milestones[i] then i + 1 else acc;
      ReduceSnoc(milestones, x, distance, i + 1, next);
    }
  }

  lemma {:induction false} ReduceIsLastReached(milestones: seq<real>, distance: real)
    ensures Reduce(milestones, distance, 0, 0) == LastReached(milestones, distance)
    decreases |milestones|
  {
    if milestones != [] {
      var front := milestones[..|milestones| - 1];
      var last := milestones[|milestones| - 1];
      assert milestones == front + [last];
      ReduceSnoc(front, last, distance, 0, 0);
      ReduceIsLastReached(front, distance);
    }
  }

  /** How many milestones the distance reaches. */
  function CountReached(milestones: seq<real>, distance: real): nat {
    if milestones == [] then 0
    else CountReached(milestones[..|milestones| - 1], distance) +
         (if distance >= milestones[|milestones| - 1] then 1 else 0)
  }

  predicate Ascending(s: seq<real>) {
    forall i, j | 0 <= i < j < |s| :: s[i] <= s[j]
  }

  /** For an ascending list the stars earned are the number of milestones reached. */
  lemma StarsAreMilestonesReached(milestones: seq<real>, distance: int)
    requires Ascending(milestones)
    ensures StarsEarned(milestones, distance) == CountReached(milestones, distance as real)
  {
    ReduceIsLastReached(milestones, distance as real);
    LastReachedCounts(milestones, distance as real);
  }

  lemma {:induction false} LastReachedCounts(milestones: seq<real>, distance: real)
    requires Ascending(milestones)
    ensures LastReached(milestones, distance) == CountReached(milestones, distance)
    decreases |milestones|
  {
    if milestones != [] {
      var front := milestones[..|milestones| - 1];
      if distance >= milestones[|milestones| - 1] {
        AllReached(front, distance);
      } else {
        LastReachedCounts(front, distance);
      }
    }
  }

  lemma {:induction false} AllReached(milestones: seq<real>, distance: real)
    requires forall i | 0 <= i < |milestones| :: milestones[i] <= distance
    ensures CountReached(milestones, distance) == |milestones|
    decreases |milestones|
  {
    if milestones != [] {
      AllReached(milestones[..|milestones| - 1], distance);
    }
  }

  /** Going further never earns fewer milestones. */
  lemma {:induction false} CountReachedMonotone(milestones: seq<real>, near: real, far: real)
    requires near <= far
    ensures CountReached(milestones, near) <= CountReached(milestones, far)
    decreases |milestones|
  {
    if milestones != [] {
      CountReachedMonotone(milestones[..|milestones| - 1], near, far);
    }
  }

  /** With the game's milestones the stars earned are monotone in the distance covered. */
  lemma StarsMonotone(near: int, far: int)
    requires near <= far
    ensures StarsEarned(Tracks.DistanceMilestone, near) <= StarsEarned(Tracks.DistanceMilestone, far)
  {
    assert Ascending(Tracks.DistanceMilestone);
    StarsAreMilestonesReached(Tracks.DistanceMilestone, near);
    StarsAreMilestonesReached(Tracks.DistanceMilestone, far);
    CountReachedMonotone(Tracks.DistanceMilestone, near as real, far as real);
  }

  /** A run of 1200 passes the milestones 200, 500 and 1000: three stars of five. */
  lemma ThreeStarsAt1200()
    ensures StarsEarned(Tracks.DistanceMilestone, 1200) == 3
  {
    assert Reduce(Tracks.DistanceMilestone, 1200.0, 3, 3) == 3;
  }

  // ---------------------------------------------------------------------------------------------
  // The game
  // ---------------------------------------------------------------------------------------------

  /** The state `Game` keeps between frames: the player, the track, the game-over flag, the
      culling box `trackOffscreen`, the position of the game-over stars and, once the game is
      over, their animation. */
  datatype Game = Game(player: Players.Player, track: Tracks.Track, gameOver: bool,
                       trackOffscreen: Rectangles.Box, starsPos: Point,
                       progressStars: Option<StarAnimations.StarAnimation>)

  /** A running game has a valid track; an ended one has its star animation. */
  predicate Valid(g: Game) {
    Tracks.Valid(g.track) &&
    (g.gameOver ==> g.progressStars.Some? && StarAnimations.Valid(g.progressStars.value))
  }

  /** `setGameOver`: end the run and start revealing one star per milestone reached, out of
      one per milestone. */
  function SetGameOver(g: Game): (r: Game)
    requires Valid(g)
    ensures Valid(r) && r.gameOver
    ensures r.(gameOver := g.gameOver, progressStars := g.progressStars) == g
    ensures var stars := r.progressStars.value;
            stars.starCount == |Tracks.DistanceMilestone| &&
            stars.starShowCount == StarsEarned(Tracks.DistanceMilestone, Players.DistanceCovered(g.player)) &&
            stars.starShownCounter == 0 && stars.pivot == g.starsPos && stars.starSize == StarsSize
  {
    var earned := StarsEarned(Tracks.DistanceMilestone, Players.DistanceCovered(g.player));
    g.(gameOver := true,
       progressStars := Some(StarAnimations.NewStarAnimation(g.starsPos, StarsSize, earned,
                                                             |Tracks.DistanceMilestone|)))
  }

  /** `loopFactor = roundOff(deltaTime * 0.0625, 1)`. */
  function GameLoopFactor(deltaTime: real): real {
    Utils.RoundOff(deltaTime * 0.0625, 1)
  }

  /** `update(deltaTime)`: while the game runs, the player and then the track (around the
      player's new position) advance; after game over only the star animation does. `draw`
      is the random draw a new segment takes and `pow` real exponentiation. */
  function Update(g: Game, deltaTime: real, draw: real, pow: Power): (r: Game)
    requires Valid(g)
    requires forall e: real :: pow(StarAnimations.SizeReduceSpeed, e) > 0.0
    ensures Valid(r) && r.gameOver == g.gameOver
    ensures !g.gameOver ==>
              r.player == Players.Update(g.player, deltaTime, GameLoopFactor(deltaTime), pow) &&
              r.track == Tracks.Update(g.track, deltaTime, Point(r.player.x, r.player.y), g.trackOffscreen,
                                       draw, r.player.startDistance) &&
              r.progressStars == g.progressStars
    ensures g.gameOver ==> r.player == g.player && r.track == g.track &&
                           r.progressStars.Some? && r.progressStars.value ==
                             StarAnimations.Update(g.progressStars.value, deltaTime,
                                                   StarAnimations.StarLoopFactor(deltaTime), pow)
  {
    if !g.gameOver then
      var player := Players.Update(g.player, deltaTime, GameLoopFactor(deltaTime), pow);
      var track := Tracks.Update(g.track, deltaTime, Point(player.x, player.y), g.trackOffscreen,
                                 draw, player.startDistance);
      g.(player := player, track := track)
    else
      var stars := StarAnimations.Update(g.progressStars.value, deltaTime,
                                         StarAnimations.StarLoopFactor(deltaTime), pow);
      g.(progressStars := Some(stars))
  }

  /** After game over nothing but the star animation moves, however many frames pass, and the
      stars shown never exceed the stars earned. */
  lemma {:induction false} GameOverFreezes(g: Game, deltas: seq<real>, draws: seq<real>,
                                           pow: Power)
    requires Valid(g) && g.gameOver && |draws| == |deltas|
    requires forall e: real :: pow(StarAnimations.SizeReduceSpeed, e) > 0.0
    requires g.progressStars.value.starShownCounter <= g.progressStars.value.starShowCount
    ensures var r := UpdateAll(g, deltas, draws, pow);
            r.gameOver && r.player == g.player && r.track == g.track &&
            r.progressStars.value.starShowCount == g.progressStars.value.starShowCount &&
            g.progressStars.value.starShownCounter <= r.progressStars.value.starShownCounter <=
              g.progressStars.value.starShowCount
    decreases |deltas|
  {
    if deltas != [] {
      GameOverFreezes(Update(g, deltas[0], draws[0], pow), deltas[1..], draws[1..], pow);
    }
  }

  function UpdateAll(g: Game, deltas: seq<real>, draws: seq<real>, pow: Power): (r: Game)
    requires Valid(g) && |draws| == |deltas|
    requires forall e: real :: pow(StarAnimations.SizeReduceSpeed, e) > 0.0
    ensures Valid(r)
    decreases |deltas|
  {
    if deltas == [] then g else UpdateAll(Update(g, deltas[0], draws[0], pow), deltas[1..], draws[1..], pow)
  }
}
