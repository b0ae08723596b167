/** The saved player setups of setup.js: up to ten numbered slots `Setup0` … `Setup9` in the
    browser's key-value store, plus one extra slot for a setup saved "once". The store is a map
    from key to text; a setup is stored as its JSON text, whose encoding is not modelled. */
module Setups {
  import opened Wrappers
  import opened Geometry

  /** `maxSetups`: the number of numbered slots. */
  const MaxSetups: nat := 10

  /** `localStorage`: text values under text keys. */
  type Store = map<string, string>

  // ---------------------------------------------------------------------------------------------
  // Slot keys
  // ---------------------------------------------------------------------------------------------

  function DigitChar(d: nat): char
    requires d < 10
  {
    ('0' as int + d) as char
  }

  /** The decimal notation JavaScript writes for a whole number (no sign, no leading zero). */
  function Decimal(n: nat): (s: string)
    ensures |s| >= 1 && forall i | 0 <= i < |s| :: '0' <= s[i] <= '9'
  {
    if n < 10 then [DigitChar(n)] else Decimal(n / 10) + [DigitChar(n % 10)]
  }

  /** Reads a string of decimal digits back. */
  function ReadDecimal(s: string): nat
    requires forall i | 0 <= i < |s| :: '0' <= s[i] <= '9'
  {
    if s == [] then 0 else ReadDecimal(s[..|s| - 1]) * 10 + (s[|s| - 1] as int - '0' as int)
  }

  lemma {:induction false} ReadDecimalOfDecimal(n: nat)
    ensures ReadDecimal(Decimal(n)) == n
  {
    if n >= 10 {
      ReadDecimalOfDecimal(n / 10);
      var s := Decimal(n);
      assert s[..|s| - 1] == Decimal(n / 10);
    }
  }

  /** The key of slot `n`: `` `Setup${n}` ``. */
  function Key(n: nat): string {
    "Setup" + Decimal(n)
  }

  /** Different slots have different keys. */
  lemma KeyInjective(a: nat, b: nat)
    ensures Key(a) == Key(b) <==> a == b
  {
    if Key(a) == Key(b) {
      assert Decimal(a) == Key(a)[5..];
      assert Decimal(b) == Key(b)[5..];
      ReadDecimalOfDecimal(a);
      ReadDecimalOfDecimal(b);
    }
  }

  /** The key a setup saved "once" is kept under: slot `Number.MAX_SAFE_INTEGER`. */
  function OnceKey(): string {
    Key(MaxSafeInteger)
  }

  /** `localStorage.getItem(key)` taken as a condition: a missing key (`null`) and an empty
      text are both false. */
  predicate Taken(store: Store, key: string) {
    key in store && store[key] != ""
  }

  /** `n` is the first free slot: every lower slot is taken, slot `n` is not. */
  predicate FirstFree(store: Store, n: nat) {
    !Taken(store, Key(n)) && forall m | 0 <= m < n :: Taken(store, Key(m))
  }

  /** There is only one first free slot. */
  lemma FirstFreeUnique(store: Store, a: nat, b: nat)
    requires FirstFree(store, a) && FirstFree(store, b)
    ensures a == b
  {
  }

  // ---------------------------------------------------------------------------------------------
  // Operations
  // ---------------------------------------------------------------------------------------------

  /** The search loop of `saveSetup`: count up from 0 while the slot is taken. It ends because
      the store holds only finitely many keys and different slots have different keys. */
  method FindFreeSlot(store: Store) returns (n: nat)
    ensures FirstFree(store, n)
  {
    n := 0;
    while Taken(store, Key(n))
      invariant forall m | 0 <= m < n :: Taken(store, Key(m))
      invariant n <= |store.Keys|
      decreases |store.Keys| - n
    {
      SlotsBelow(store, n + 1);
      n := n + 1;
    }
  }

  /** The keys of slots `0 … n-1`. */
  function SlotKeys(n: nat): set<string> {
    set m | 0 <= m < n :: Key(m)
  }

  lemma {:induction false} SlotKeysCount(n: nat)
    ensures |SlotKeys(n)| == n
  {
    if n > 0 {
      SlotKeysCount(n - 1);
      SlotKeysSnoc(n - 1);
      FreshKey(n - 1);
    }
  }

  lemma SlotKeysSnoc(n: nat)
    ensures SlotKeys(n + 1) == SlotKeys(n) + {Key(n)}
  {
  }

  /** Slot `n`'s key is none of the lower slots' keys. */
  lemma FreshKey(n: nat)
    ensures Key(n) !in SlotKeys(n)
  {
    if Key(n) in SlotKeys(n) {
      var m :| 0 <= m < n && Key(m) == Key(n);
      KeyInjective(m, n);
      assert false;
    }
  }

  /** When slots `0 … n-1` are all taken the store holds at least `n` keys. */
  lemma SlotsBelow(store: Store, n: nat)
    requires forall m | 0 <= m < n :: Taken(store, Key(m))
    ensures n <= |store.Keys|
  {
    SlotKeysCount(n);
    SubsetCount(SlotKeys(n), store.Keys);
  }

  lemma {:induction false} SubsetCount<T>(a: set<T>, b: set<T>)
    requires a <= b
    ensures |a| <= |b|
    decreases |a|
  {
    if a != {} {
      var x :| x in a;
      SubsetCount(a - {x}, b - {x});
    }
  }

  /** `Setup.saveSetup(props, once)` with `props` already written as JSON text. Saved "once",
      the text goes to the extra slot and the result is `MAX_SAFE_INTEGER`; otherwise it goes
      to the first free numbered slot and the result is that slot, unless all ten are taken:
      then nothing is stored and the result is `undefined`. */
  method SaveSetup(store: Store, text: string, once: bool) returns (r: Store, slot: Option<int>)
    ensures once ==> r == store[OnceKey() := text] && slot == Some(MaxSafeInteger)
    ensures !once ==> (slot.Some? <==> exists n | 0 <= n < MaxSetups :: FirstFree(store, n))
    ensures !once && slot.Some? ==> 0 <= slot.value < MaxSetups &&
                                    FirstFree(store, slot.value) && r == store[Key(slot.value) := text]
    ensures !once && slot.None? ==> r == store && forall m | 0 <= m < MaxSetups :: Taken(store, Key(m))
  {
    var count := FindFreeSlot(store);
    if once {
      r, slot := store[OnceKey() := text], Some(MaxSafeInteger);
    } else if count < MaxSetups {
      r, slot := store[Key(count) := text], Some(count);
    } else {
      r, slot := store, None;
      forall n | 0 <= n < MaxSetups
        ensures !FirstFree(store, n)
      {
        if FirstFree(store, n) {
          FirstFreeUnique(store, n, count);
        }
      }
    }
  }

  /** `Setup.deleteSetup(n)`: removes slot `n` and nothing else. */
  function DeleteSetup(store: Store, n: nat): (r: Store)
    ensures Key(n) !in r && !Taken(r, Key(n))
    ensures forall key | key in store && key != Key(n) :: key in r && r[key] == store[key]
    ensures r.Keys <= store.Keys
  {
    store - {Key(n)}
  }

  /** `Setup.retrieveSetup(n)`: the saved JSON text of slot `n`, or `undefined` (after an
      alert) when the slot is missing or empty. */
  function RetrieveSetup(store: Store, n: nat): (r: Option<string>)
    ensures r.Some? <==> Taken(store, Key(n))
    ensures r.Some? ==> r.value == store[Key(n)] && r.value != ""
  {
    if Taken(store, Key(n)) then Some(store[Key(n)]) else None
  }

  /** What is saved into a numbered slot is what that slot gives back, and the other slots
      are untouched. */
  lemma SaveThenRetrieve(store: Store, text: string, n: nat, other: nat)
    requires text != "" && other != n
    ensures RetrieveSetup(store[Key(n) := text], n) == Some(text)
    ensures RetrieveSetup(store[Key(n) := text], other) == RetrieveSetup(store, other)
  {
    KeyInjective(n, other);
  }

  /** Deleting a slot below the first free one opens a gap, and the next save fills that gap:
      the deleted slot becomes the first free one. */
  lemma DeleteOpensLowestGap(store: Store, n: nat, k: nat)
    requires FirstFree(store, n) && k < n
    ensures FirstFree(DeleteSetup(store, k), k)
  {
    forall m | 0 <= m < k
      ensures Taken(DeleteSetup(store, k), Key(m))
    {
      KeyInjective(m, k);
      assert Taken(store, Key(m));
    }
  }

  /** Deleting a slot and retrieving it finds nothing; other slots keep their setups. */
  lemma DeleteThenRetrieve(store: Store, n: nat, other: nat)
    requires other != n
    ensures RetrieveSetup(DeleteSetup(store, n), n) == None
    ensures RetrieveSetup(DeleteSetup(store, n), other) == RetrieveSetup(store, other)
  {
    KeyInjective(n, other);
  }
}
