/** The supervisor's choice of a CPU for a new program: the first eligible one at or after a
    counter, going round the processor ids. */
module RoundRobin {
  import opened Arith

  // How far after counter c id e comes, going round n ids.
  function Dist(e: int, c: int, n: int): int
    requires n > 0
  {
    (e - c) % n
  }

  lemma ModIs(m: int, q: int, r: int, n: int)
    requires m == q * n + r && 0 <= r < n
    ensures m % n == r
  {
    QuotientIs(m, n, q);
  }

  // Stepping i ids on from the counter is at distance i.
  lemma DistAt(c: int, i: int, n: int)
    requires 0 <= i < n
    ensures Dist((c + i) % n, c, n) == i && 0 <= (c + i) % n < n
  {
    ModIs((c + i) % n - c, -((c + i) / n), i, n);
  }

  // An id is where its distance says.
  lemma AtDist(e: int, c: int, n: int)
    requires 0 <= e < n
    ensures (c + Dist(e, c, n)) % n == e
  {
    ModIs(c + Dist(e, c, n), -((e - c) / n), e, n);
  }

  // Moving the counter just past p.
  lemma DistPast(e: int, p: int, c: int, n: int)
    requires 0 <= e < n && 0 <= p < n && Dist(p, c, n) <= Dist(e, c, n)
    ensures Dist(e, p + 1, n) == if e == p then n - 1 else Dist(e, c, n) - Dist(p, c, n) - 1
  {
    var a, b := Dist(e, c, n), Dist(p, c, n);
    if e == p {
      ModIs(e - (p + 1), -1, n - 1, n);
    } else {
      AtDist(e, c, n);
      AtDist(p, c, n);
      assert a != b;
      ModIs(e - (p + 1), (e - c) / n - (p - c) / n, a - b - 1, n);
    }
  }

  /** The pick and the new counter, when the candidates before the i-th were not eligible. */
  function PickFrom(eligible: set<int>, n: int, c: int, self: int, i: nat): (r: (int, int))
    requires i <= n
    decreases n - i
  {
    if i == n then (self, self + 1)
    else if (c + i) % n in eligible then ((c + i) % n, (c + i) % n + 1)
    else PickFrom(eligible, n, c, self, i + 1)
  }

  function Pick(eligible: set<int>, n: int, c: int, self: int): (r: (int, int))
    requires n > 0
  {
    PickFrom(eligible, n, c, self, 0)
  }

  predicate Ids(eligible: set<int>, n: int) {
    forall e :: e in eligible ==> 0 <= e < n
  }

  /** The pick is the eligible id nearest after the counter; with none eligible it is self. */
  lemma {:induction false} PickIsNearest(eligible: set<int>, n: int, c: int, self: int, i: nat)
    requires n > 0 && Ids(eligible, n) && i <= n
    requires forall e :: e in eligible ==> i <= Dist(e, c, n)
    ensures var r := PickFrom(eligible, n, c, self, i);
      if eligible == {} then r == (self, self + 1)
      else r.0 in eligible && r.1 == r.0 + 1 && forall e :: e in eligible ==> Dist(r.0, c, n) <= Dist(e, c, n)
    decreases n - i
  {
    if i == n {
      assert forall e :: e in eligible ==> Dist(e, c, n) < n;
      assert forall e :: e !in eligible;
    } else {
      DistAt(c, i, n);
      if (c + i) % n !in eligible {
        forall e | e in eligible
          ensures i + 1 <= Dist(e, c, n)
        {
          AtDist(e, c, n);
        }
        PickIsNearest(eligible, n, c, self, i + 1);
      }
    }
  }

  /** k picks in a row. */
  function Picks(eligible: set<int>, n: int, c: int, self: int, k: nat): (ps: seq<int>)
    requires n > 0
    ensures |ps| == k
    decreases k
  {
    if k == 0 then []
    else
      var (p, c') := Pick(eligible, n, c, self);
      [p] + Picks(eligible, n, c', self, k - 1)
  }

  // The nearest eligible id is among those that come first ...
  lemma NearestInRest(eligible: set<int>, rest: set<int>, n: int, c: int, p: int)
    requires n > 0 && rest <= eligible && rest != {} && p in eligible
    requires forall e :: e in eligible ==> Dist(p, c, n) <= Dist(e, c, n)
    requires forall e, q :: e in rest && q in eligible - rest ==> Dist(e, c, n) < Dist(q, c, n)
    ensures p in rest
  {
    forall e | e in rest
      ensures p in rest
    {
      assert Dist(p, c, n) <= Dist(e, c, n);
    }
  }

  // ... and after it the others of them still do.
  lemma RestKept(eligible: set<int>, rest: set<int>, n: int, c: int, p: int)
    requires n > 0 && Ids(eligible, n) && rest <= eligible && p in rest
    requires forall e :: e in eligible ==> Dist(p, c, n) <= Dist(e, c, n)
    requires forall e, q :: e in rest && q in eligible - rest ==> Dist(e, c, n) < Dist(q, c, n)
    ensures forall e, q :: e in rest - {p} && q in eligible - (rest - {p}) ==> Dist(e, p + 1, n) < Dist(q, p + 1, n)
  {
    forall e, q | e in rest - {p} && q in eligible - (rest - {p})
      ensures Dist(e, p + 1, n) < Dist(q, p + 1, n)
    {
      DistPast(e, p, c, n);
      DistPast(q, p, c, n);
    }
  }

  // If the ids of `rest` come before all other eligible ids, they are picked first, once each.
  lemma {:induction false} RestPickedFirst(eligible: set<int>, rest: set<int>, n: int, c: int, self: int)
    requires n > 0 && Ids(eligible, n) && rest <= eligible
    requires forall e, p :: e in rest && p in eligible - rest ==> Dist(e, c, n) < Dist(p, c, n)
    ensures multiset(Picks(eligible, n, c, self, |rest|)) == multiset(rest)
    decreases |rest|
  {
    if rest != {} {
      PickIsNearest(eligible, n, c, self, 0);
      var p := Pick(eligible, n, c, self).0;
      NearestInRest(eligible, rest, n, c, p);
      var rest' := rest - {p};
      RestKept(eligible, rest, n, c, p);
      RestPickedFirst(eligible, rest', n, p + 1, self);
      assert multiset(rest) == multiset{p} + multiset(rest');
      assert multiset([p] + Picks(eligible, n, p + 1, self, |rest'|)) == multiset{p} + multiset(rest');
    }
  }

  /** Fairness: from any counter, as many picks as there are eligible ids pick each of them
      exactly once; with none eligible, every pick is self. */
  lemma FairRound(eligible: set<int>, n: int, c: int, self: int, k: nat)
    requires n > 0 && Ids(eligible, n)
    ensures multiset(Picks(eligible, n, c, self, |eligible|)) == multiset(eligible)
    ensures eligible == {} ==> Picks(eligible, n, c, self, k) == seq(k, _ => self)
  {
    RestPickedFirst(eligible, eligible, n, c, self);
    if eligible == {} { OnlySelf(n, c, self, k); }
  }

  lemma {:induction false} OnlySelf(n: int, c: int, self: int, k: nat)
    requires n > 0
    ensures Picks({}, n, c, self, k) == seq(k, _ => self)
    decreases k
  {
    if k > 0 {
      PickIsNearest({}, n, c, self, 0);
      OnlySelf(n, self + 1, self, k - 1);
    }
  }
}
