/** How many moments fit into a stretch of time when any two are a gap apart. */
module Spacing {
  import opened Division

  ghost predicate Spread(x: set<nat>, at: nat -> int, gap: int)
  {
    forall e, f :: e in x && f in x && e != f ==> at(e) + gap <= at(f) || at(f) + gap <= at(e)
  }

  lemma AtMostOne(x: set<nat>)
    requires forall e, f :: e in x && f in x ==> e == f
    ensures |x| <= 1
  {
    if e :| e in x { assert x == {e}; }
  }

  /** How many gaps it takes to cover a length. */
  ghost function Slots(length: int, gap: int): nat
    requires gap > 0
    decreases length
  {
    if length <= 0 then 0 else 1 + Slots(length - gap, gap)
  }

  lemma {:induction false} Count(x: set<nat>, at: nat -> int, gap: int, from: int, end: int)
    requires gap > 0 && Spread(x, at, gap)
    requires forall e :: e in x ==> from <= at(e) < end
    ensures |x| <= Slots(end - from, gap)
    decreases end - from
  {
    if end <= from {
      assert x == {};
    } else {
      var first := set e | e in x && at(e) < from + gap;
      var rest := x - first;
      AtMostOne(first);
      assert x == first + rest;
      Count(rest, at, gap, from + gap, end);
    }
  }

  lemma {:induction false} SlotsOf(n: nat, gap: int)
    requires gap > 0
    ensures Slots(n + 1, gap) == n / gap + 1
    decreases n
  {
    if n < gap {
      QuotientIsUnique(n, gap, 0, n);
    } else {
      SlotsOf(n - gap, gap);
      var q := (n - gap) / gap;
      assert q * gap + gap == (q + 1) * gap;
      QuotientIsUnique(n, gap, q + 1, (n - gap) % gap);
    }
  }

  /** At most n / gap + 1 moments lie in a stretch of n. */
  lemma CountInStretch(x: set<nat>, at: nat -> int, gap: int, from: int, n: nat)
    requires gap > 0 && Spread(x, at, gap)
    requires forall e :: e in x ==> from <= at(e) <= from + n
    ensures |x| <= n / gap + 1
  {
    Count(x, at, gap, from, from + n + 1);
    SlotsOf(n, gap);
  }
}
