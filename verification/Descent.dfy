/** A distance that shrinks at every step cannot shrink for ever. */
module Descent {

  /** How far a bitrate is from its maximum: the gap itself, then what must run down before the next rise. */
  datatype Distance = Distance(gap: nat, limits: nat, cooldown: nat, phase: nat, probe: nat, wait: nat)

  ghost predicate Shorter(a: Distance, b: Distance) {
    a.gap < b.gap || (a.gap == b.gap
    && (a.limits < b.limits || (a.limits == b.limits
    && (a.cooldown < b.cooldown || (a.cooldown == b.cooldown
    && (a.phase < b.phase || (a.phase == b.phase
    && (a.probe < b.probe || (a.probe == b.probe && a.wait < b.wait)))))))))
  }

  /** Closed gaps stay closed; any other distance shrinks. */
  ghost predicate Closing(before: Distance, after: Distance) {
    if before.gap == 0 then after.gap == 0 else Shorter(after, before)
  }

  lemma {:induction false} GapCloses(d: nat -> Distance, k: nat) returns (n: nat)
    requires forall i: nat :: Closing(d(i), d(i + 1))
    ensures d(n).gap == 0
    decreases d(k).gap, d(k).limits, d(k).cooldown, d(k).phase, d(k).probe, d(k).wait
  {
    if d(k).gap == 0 {
      n := k;
    } else {
      assert Closing(d(k), d(k + 1));
      n := GapCloses(d, k + 1);
    }
  }

  lemma {:induction false} GapStaysClosed(d: nat -> Distance, n: nat, m: nat)
    requires forall i: nat :: Closing(d(i), d(i + 1))
    requires n <= m && d(n).gap == 0
    ensures d(m).gap == 0
    decreases m
  {
    if n < m {
      GapStaysClosed(d, n, m - 1);
      assert Closing(d(m - 1), d(m - 1 + 1));
    }
  }

  // Descents that stand still at times

  /** Closed gaps stay closed; any other distance shrinks or stays as it is. */
  ghost predicate Settling(before: Distance, after: Distance) {
    if before.gap == 0 then after.gap == 0 else after == before || Shorter(after, before)
  }

  lemma {:induction false} SettlesOver(d: nat -> Distance, n: nat, m: nat)
    requires forall i: nat :: Settling(d(i), d(i + 1))
    requires n <= m
    ensures Settling(d(n), d(m))
    decreases m
  {
    if n < m {
      SettlesOver(d, n, m - 1);
      assert Settling(d(m - 1), d(m - 1 + 1));
    }
  }

  ghost predicate ShrinksLater(d: nat -> Distance, n: nat) {
    exists m: nat :: m > n && Shorter(d(m), d(n))
  }

  /** A distance that never grows and shrinks again and again closes its gap. */
  lemma {:induction false} RecurringGapCloses(d: nat -> Distance, k: nat) returns (n: nat)
    requires forall i: nat :: Settling(d(i), d(i + 1))
    requires forall i: nat :: d(i).gap > 0 ==> ShrinksLater(d, i)
    ensures d(n).gap == 0
    decreases d(k).gap, d(k).limits, d(k).cooldown, d(k).phase, d(k).probe, d(k).wait
  {
    if d(k).gap == 0 {
      n := k;
    } else {
      var m: nat :| m > k && Shorter(d(m), d(k));
      n := RecurringGapCloses(d, m);
    }
  }

  /** And then the gap stays closed. */
  lemma RecurringGapEnds(d: nat -> Distance) returns (settled: nat)
    requires forall i: nat :: Settling(d(i), d(i + 1))
    requires forall i: nat :: d(i).gap > 0 ==> ShrinksLater(d, i)
    ensures forall n: nat :: settled <= n ==> d(n).gap == 0
  {
    settled := RecurringGapCloses(d, 0);
    forall n: nat | settled <= n
      ensures d(n).gap == 0
    {
      SettlesOver(d, settled, n);
    }
  }
}
