/** Rings of eight slots that remember the last eight of a history. */
module Recent {
  const RECENT := 8

  /** The last of `n` items whose slot is `s`. */
  function Owner(n: nat, s: nat): (k: nat)
    requires s < RECENT && s < n
    ensures k < n && n - RECENT <= k && k % RECENT == s
  {
    n - 1 - (n - 1 - s) % RECENT
  }

  lemma OwnerOf(n: nat, k: nat)
    requires k < n && n - RECENT <= k
    ensures k % RECENT < n && Owner(n, k % RECENT) == k
  {
    var d := n - 1 - k;
    assert k == k / RECENT * RECENT + k % RECENT;
    assert n - 1 - k % RECENT == k / RECENT * RECENT + d;
    assert (n - 1 - k % RECENT) % RECENT == d;
  }

  /** The last eight. */
  function Latest<T>(history: seq<T>): (t: seq<T>)
    ensures |t| <= RECENT
  {
    if |history| <= RECENT then history else history[|history| - RECENT..]
  }

  /** The slots hold the last eight, the next one to be overwritten being the oldest. */
  ghost predicate RingHolds<T>(slots: seq<T>, next: nat, history: seq<T>) {
    && |slots| == RECENT && next == |history| % RECENT
    && forall s :: 0 <= s < RECENT && s < |history| ==> slots[s] == history[Owner(|history|, s)]
  }

  lemma RingGrows<T>(slots: seq<T>, next: nat, history: seq<T>, x: T)
    requires RingHolds(slots, next, history)
    ensures next < RECENT && RingHolds(slots[next := x], (next + 1) % RECENT, history + [x])
  {
    var n := |history|;
    var (slots1, grown) := (slots[n % RECENT := x], history + [x]);
    NextSlot(n);
    forall s | 0 <= s < RECENT && s < n + 1
      ensures slots1[s] == grown[Owner(n + 1, s)]
    {
      OwnerNext(n, s);
    }
    hide Owner;
  }

  lemma NextSlot(n: nat)
    ensures (n % RECENT + 1) % RECENT == (n + 1) % RECENT
  {}

  lemma OwnerNext(n: nat, s: nat)
    requires s < RECENT && s < n + 1
    ensures if s == n % RECENT then Owner(n + 1, s) == n else s < n && Owner(n + 1, s) == Owner(n, s)
  {
    var d := (n - s) % RECENT;
    assert n - s == (n - s) / RECENT * RECENT + d;
    assert d == 0 <==> s == n % RECENT;
    if d > 0 { assert (n - 1 - s) % RECENT == d - 1; }
  }

  /** The filled slots hold the last eight, and nothing else. */
  lemma RingIsLatest<T>(slots: seq<T>, next: nat, count: nat, history: seq<T>, x: T)
    requires RingHolds(slots, next, history)
    requires count == if |history| < RECENT then |history| else RECENT
    ensures x in slots[..count] <==> x in Latest(history)
  {
    var n := |history|;
    var from := if n <= RECENT then 0 else n - RECENT;
    if x in slots[..count] {
      var s :| 0 <= s < count && slots[s] == x;
      assert Latest(history)[Owner(n, s) - from] == x;
    }
    if x in Latest(history) {
      var k :| 0 <= k < |Latest(history)| && Latest(history)[k] == x;
      OwnerOf(n, from + k);
      assert slots[(from + k) % RECENT] == x;
    }
  }
}
