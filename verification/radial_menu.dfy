/** The background-selection menu of js/radialMenu.js: eight options in a ring, steered with
    the arrow keys while open, bought with Enter, opened and closed with Shift+B, and faded in
    and out by `update`. */
module RadialMenus {
  import opened Wrappers
  import Utils

  /** Which of the handler's balances pays for an option. */
  datatype CostType = StarsEarned | StarsCollected

  datatype MenuOption = MenuOption(name: string, cost: int, costType: CostType)

  /** The options in ring order. */
  const Options: seq<MenuOption> := [
    MenuOption("normal", 0, StarsCollected),
    MenuOption("clouds-default", 50, StarsCollected),
    MenuOption("clouds-original", 100, StarsCollected),
    MenuOption("clouds-skyblue", 50, StarsCollected),
    MenuOption("clouds-wheat", 50, StarsCollected),
    MenuOption("water", 150, StarsCollected),
    MenuOption("space", 25, StarsEarned),
    MenuOption("colors", 50, StarsEarned)
  ]

  /** `slots`: the constructor's argument is overwritten by the number of options. */
  const Slots: nat := |Options|

  /** The option whose selection also animates the page's hue variables. */
  const ColorsSlot: nat := 7

  /** The fade speed of `globalAlpha` per millisecond. */
  const FadeSpeed: real := 0.0075

  datatype Menu = Menu(selected: nat, prevSelected: nat, keys: set<string>, cooldownKeys: set<string>,
                       keyPressed: bool, visible: bool, globalAlpha: real,
                       degree: real, hue1: real, hue2: real)

  /** Selections lie on the ring, a key is held exactly while it is cooling down, and the
      menu's opacity lies in `[0, 1]`. */
  predicate Valid(m: Menu) {
    m.selected < Slots && m.prevSelected < Slots && m.keys == m.cooldownKeys &&
    0.0 <= m.globalAlpha <= 1.0
  }

  function NewMenu(): (m: Menu)
    ensures Valid(m) && m.selected == 0 && m.prevSelected == 0 && !m.visible
    ensures m.keys == {} && m.globalAlpha == 0.0
  {
    Menu(0, 0, {}, {}, false, false, 0.0, 0.0, 0.0, 180.0)
  }

  /** The key name as the listeners store it: a one-character key in lower case (ASCII
      letters only here), a named key such as `Shift` as it is. */
  function Normalize(key: string): (k: string)
    ensures |k| == |key| && (|key| != 1 ==> k == key)
  {
    if |key| > 1 || key == [] then key else [Utils.Lower(key[0])]
  }

  /** The ring step right: the next slot, wrapping from the last to the first. */
  function Next(selected: nat): (r: nat)
    requires selected < Slots
    ensures r < Slots && r == (selected + 1) % Slots
  {
    if selected < Slots - 1 then selected + 1 else 0
  }

  /** The ring step left: the previous slot, wrapping from the first to the last. */
  function Prev(selected: nat): (r: nat)
    requires selected < Slots
    ensures r < Slots && (r + 1) % Slots == selected
  {
    if selected > 0 then selected - 1 else Slots - 1
  }

  /** The two steps undo each other. */
  lemma NextPrevInverse(selected: nat)
    requires selected < Slots
    ensures Prev(Next(selected)) == selected && Next(Prev(selected)) == selected
  {
  }

  /** What a key press did: the new menu, the handler's `pause` flag when it was set (a key
      still cooling down returns before that), and whether the "cannot afford" notice opened. */
  datatype KeyResult = KeyResult(menu: Menu, pause: Option<bool>, notice: bool)

  /** `#handleKeyDown`. A key already cooling down is ignored. Otherwise it is held; then
      Shift+B held together toggles the menu, restoring the last bought option when it closes;
      else, while open, a held ArrowRight or ArrowLeft moves round the ring and a held Enter
      closes the menu and buys the selected option if the balance covers its cost, reverting
      to the last bought one if not. `balance` reads the handler's star counts and `gameStart`
      whether the game has started. */
  function KeyDown(m: Menu, key: string, balance: CostType -> int, gameStart: bool): (r: KeyResult)
    requires Valid(m)
    ensures Valid(r.menu)
    ensures Normalize(key) in m.cooldownKeys <==> r.pause.None?
    ensures r.pause.None? ==> r.menu == m && !r.notice
    ensures r.pause.Some? ==> r.pause.value == (r.menu.visible || !gameStart) &&
                              r.menu.keys == m.keys + {Normalize(key)}
    ensures r.menu.selected != m.selected ==>
              r.menu.selected == Next(m.selected) || r.menu.selected == Prev(m.selected) ||
              r.menu.selected == m.prevSelected
    ensures r.menu.prevSelected != m.prevSelected ==> r.menu.prevSelected == m.selected && !r.menu.visible
    ensures r.notice ==> m.visible && !r.menu.visible && r.menu.selected == m.prevSelected &&
                         balance(Options[m.selected].costType) < Options[m.selected].cost
    ensures r.menu.globalAlpha == m.globalAlpha && r.menu.degree == m.degree
    ensures r.pause.Some? && "Shift" in r.menu.keys && "b" in r.menu.keys ==>
              r.menu.visible == !m.visible &&
              r.menu.selected == (if m.visible then m.prevSelected else m.selected)
    ensures r.pause.Some? && m.visible && !("Shift" in r.menu.keys && "b" in r.menu.keys) ==>
              ("ArrowRight" in r.menu.keys ==> r.menu.selected == Next(m.selected) && r.menu.visible) &&
              ("ArrowRight" !in r.menu.keys && "ArrowLeft" in r.menu.keys ==>
                 r.menu.selected == Prev(m.selected) && r.menu.visible) &&
              ("ArrowRight" !in r.menu.keys && "ArrowLeft" !in r.menu.keys && "Enter" in r.menu.keys ==>
                 !r.menu.visible &&
                 (r.notice <==> balance(Options[m.selected].costType) < Options[m.selected].cost) &&
                 (!r.notice ==> r.menu.selected == m.selected && r.menu.prevSelected == m.selected))
    ensures r.pause.Some? && !m.visible && !("Shift" in r.menu.keys && "b" in r.menu.keys) ==>
              r.menu.selected == m.selected && !r.menu.visible
  {
    var k := Normalize(key);
    if k in m.cooldownKeys then KeyResult(m, None, false)
    else
      var held := m.(keys := m.keys + {k}, cooldownKeys := m.cooldownKeys + {k});
      var (next, notice) := Press(held, balance);
      KeyResult(next, Some(next.visible || !gameStart), notice)
  }

  /** The part of `#handleKeyDown` after the key is held. */
  function Press(m: Menu, balance: CostType -> int): (r: (Menu, bool))
    requires Valid(m)
    ensures Valid(r.0) && r.0.keys == m.keys
    ensures r.0.(selected := m.selected, prevSelected := m.prevSelected, visible := m.visible,
                 keyPressed := m.keyPressed) == m
  {
    if "Shift" in m.keys && "b" in m.keys then
      var restored := if m.visible then m.(selected := m.prevSelected) else m;
      (restored.(visible := !m.visible, keyPressed := true), false)
    else if m.visible then
      if "ArrowRight" in m.keys then (m.(selected := Next(m.selected)), false)
      else if "ArrowLeft" in m.keys then (m.(selected := Prev(m.selected)), false)
      else if "Enter" in m.keys then
        var option := Options[m.selected];
        if balance(option.costType) < option.cost then (m.(visible := false, selected := m.prevSelected), true)
        else (m.(visible := false, prevSelected := m.selected), false)
      else (m, false)
    else (m, false)
  }

  /** The key-up listener: the key is released and may act again. */
  function KeyUp(m: Menu, key: string): (r: Menu)
    ensures Valid(m) ==> Valid(r)
    ensures Normalize(key) !in r.keys && Normalize(key) !in r.cooldownKeys && !r.keyPressed
    ensures r.keys == m.keys - {Normalize(key)}
    ensures r.(keys := m.keys, cooldownKeys := m.cooldownKeys, keyPressed := m.keyPressed) == m
  {
    var k := Normalize(key);
    m.(keys := m.keys - {k}, cooldownKeys := m.cooldownKeys - {k}, keyPressed := false)
  }

  /** A key held down repeats its `keydown` without effect until it is released. */
  lemma HeldKeyActsOnce(m: Menu, key: string, balance: CostType -> int, gameStart: bool)
    requires Valid(m)
    ensures var first := KeyDown(m, key, balance, gameStart).menu;
            KeyDown(first, key, balance, gameStart) == KeyResult(first, None, false)
  {
    var first := KeyDown(m, key, balance, gameStart).menu;
    assert Normalize(key) in first.cooldownKeys;
  }

  /** With no other key held, a right step and a left step (each released) return to the
      slot the open menu started on. */
  lemma RightThenLeft(m: Menu, balance: CostType -> int, gameStart: bool)
    requires Valid(m) && m.visible && m.keys == {}
    ensures var right := KeyUp(KeyDown(m, "ArrowRight", balance, gameStart).menu, "ArrowRight");
            var left := KeyUp(KeyDown(right, "ArrowLeft", balance, gameStart).menu, "ArrowLeft");
            right.selected == Next(m.selected) && right.visible && right.keys == {} &&
            left.selected == m.selected && left.visible && left.keys == {}
  {
    var right := KeyDown(m, "ArrowRight", balance, gameStart).menu;
    assert right.selected == Next(m.selected);
    var released := KeyUp(right, "ArrowRight");
    assert released.keys == {};
    var left := KeyDown(released, "ArrowLeft", balance, gameStart).menu;
    assert left.selected == Prev(Next(m.selected));
    NextPrevInverse(m.selected);
  }

  /** Enter on an open menu with nothing else held: the menu closes, and the selection is
      bought exactly when the balance covers its cost, else it reverts to the last purchase. */
  lemma EnterBuys(m: Menu, balance: CostType -> int, gameStart: bool)
    requires Valid(m) && m.visible && m.keys == {}
    ensures var r := KeyDown(m, "Enter", balance, gameStart);
            var option := Options[m.selected];
            !r.menu.visible && r.pause == Some(!gameStart) &&
            (balance(option.costType) >= option.cost ==>
               r.menu.selected == m.selected && r.menu.prevSelected == m.selected && !r.notice) &&
            (balance(option.costType) < option.cost ==>
               r.menu.selected == m.prevSelected && r.menu.prevSelected == m.prevSelected && r.notice)
  {
    assert Normalize("Enter") == "Enter";
    var held := m.(keys := {"Enter"}, cooldownKeys := {"Enter"});
    assert "Shift" !in held.keys && "ArrowRight" !in held.keys && "ArrowLeft" !in held.keys;
  }

  /** Shift+B pressed with Shift already held toggles the menu; closing it restores the last
      purchase. */
  lemma ShiftBToggles(m: Menu, balance: CostType -> int, gameStart: bool)
    requires Valid(m) && m.keys == {"Shift"}
    ensures var r := KeyDown(m, "B", balance, gameStart);
            r.menu.visible == !m.visible && r.menu.keyPressed &&
            (m.visible ==> r.menu.selected == m.prevSelected) &&
            (!m.visible ==> r.menu.selected == m.selected) &&
            r.pause == Some(!m.visible || !gameStart)
  {
    assert Normalize("B") == "b";
  }

  /** `update(deltaTime)`: fade towards 1 while open and towards 0 while closed, clamp, and
      while the `colors` option is selected advance the page's rotation and hues. */
  function Update(m: Menu, deltaTime: real): (r: Menu)
    ensures 0.0 <= r.globalAlpha <= 1.0
    ensures Valid(m) ==> Valid(r)
    ensures deltaTime >= 0.0 && m.visible ==> r.globalAlpha >= Utils.Clamp(m.globalAlpha, 0.0, 1.0)
    ensures deltaTime >= 0.0 && !m.visible ==> r.globalAlpha <= Utils.Clamp(m.globalAlpha, 0.0, 1.0)
    ensures deltaTime > 0.0 && m.visible && 0.0 <= m.globalAlpha < 1.0 ==>
              m.globalAlpha < r.globalAlpha <= m.globalAlpha + deltaTime * FadeSpeed &&
              (r.globalAlpha == 1.0 <==> m.globalAlpha + deltaTime * FadeSpeed >= 1.0)
    ensures deltaTime > 0.0 && !m.visible && 0.0 < m.globalAlpha <= 1.0 ==>
              m.globalAlpha - deltaTime * FadeSpeed <= r.globalAlpha < m.globalAlpha &&
              (r.globalAlpha == 0.0 <==> m.globalAlpha - deltaTime * FadeSpeed <= 0.0)
    ensures m.selected == ColorsSlot ==> r.degree == m.degree + deltaTime * 0.06 &&
                                         r.hue1 == m.hue1 + deltaTime * 0.06 && r.hue2 == m.hue2 + deltaTime * 0.06
    ensures m.selected != ColorsSlot ==> r.degree == m.degree && r.hue1 == m.hue1 && r.hue2 == m.hue2
    ensures r.(globalAlpha := m.globalAlpha, degree := m.degree, hue1 := m.hue1, hue2 := m.hue2) == m
  {
    var alpha := if !m.visible && m.globalAlpha > 0.0 then m.globalAlpha - deltaTime * FadeSpeed
                 else if m.visible && m.globalAlpha < 1.0 then m.globalAlpha + deltaTime * FadeSpeed
                 else m.globalAlpha;
    var clamped := if alpha <= 0.0 || alpha >= 1.0 then Utils.Clamp(alpha, 0.0, 1.0) else alpha;
    var step := deltaTime * 0.06;
    if m.selected == ColorsSlot then
      m.(globalAlpha := clamped, degree := m.degree + step, hue1 := m.hue1 + step, hue2 := m.hue2 + step)
    else m.(globalAlpha := clamped)
  }

  /** An open menu becomes fully opaque, and a closed one fully transparent, within
      `1 / 0.0075` ms of frames: a frame of that length saturates the fade. */
  lemma FadeSaturates(m: Menu, deltaTime: real)
    requires Valid(m) && deltaTime * FadeSpeed >= 1.0
    ensures Update(m, deltaTime).globalAlpha == if m.visible then 1.0 else 0.0
  {
  }
}
