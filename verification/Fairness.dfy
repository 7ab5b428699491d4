/** The spawn handler over many requests: those for any CPU go round the computing CPUs, whatever
    else is asked in between. */
module Fairness {
  import opened RoundRobin
  import opened Sup = Supervisor

  /** A request as the handler gets it, and what the rest of the system answers meanwhile. */
  datatype Ask = Ask(req: Req, len: int, target: int, hint: int, env: Env)

  /** One supervisor that serves requests in turn. */
  datatype Cpu = Cpu(self: int, n: int, coresident: bool) {
    ghost predicate Ok() { n > 0 && self != ANY }

    function One(l: Local, a: Ask): (r: (Local, Effect))
      requires n > 0 && |l.slots| == |l.tags|
      ensures |r.0.slots| == |r.0.tags|
    {
      Spawned(l, self, n, coresident, a.req, a.len, a.target, a.hint, a.env)
    }

    /** The state after some requests. */
    function After(l: Local, asks: seq<Ask>): (l': Local)
      requires n > 0 && |l.slots| == |l.tags|
      ensures |l'.slots| == |l'.tags|
    {
      if asks == [] then l else One(After(l, asks[..|asks| - 1]), asks[|asks| - 1]).0
    }

    /** For any CPU, and not kept on this one because the program may run on its terminal. */
    predicate Roams(a: Ask) {
      a.target == ANY && !(coresident && 0 < a.len <= REQ_MAX && a.env.localOk)
    }

    /** The effects of the roaming requests, in order. */
    function Roamed(l: Local, asks: seq<Ask>): (es: seq<(Ask, Effect)>)
      requires n > 0 && |l.slots| == |l.tags|
    {
      if asks == [] then []
      else
        var k := |asks| - 1;
        Roamed(l, asks[..k])
        + if Roams(asks[k]) then [(asks[k], One(After(l, asks[..k]), asks[k]).1)] else []
    }

    /** The request was sent to run on CPU c: relayed there, or not if c cannot be reached, or
        served here. */
    predicate SentTo(ae: (Ask, Effect), c: int) {
      if c == self then ae.1.Reply?
      else if ae.0.env.reachable then ae.1 == Relay(c, ae.0.len, LOCAL, ae.0.hint)
      else ae.1 == Reply(-1, -1)
    }
  }

  // Every roaming request finds the computing CPUs e.
  ghost predicate Steady(cpu: Cpu, asks: seq<Ask>, e: set<int>) {
    forall a :: a in asks && cpu.Roams(a) ==> a.env.live - a.env.terminals == e
  }

  // The counter after k picks.
  function CounterAfter(e: set<int>, n: int, c: int, self: int, k: nat): int
    requires n > 0
  {
    if k == 0 then c else Pick(e, n, CounterAfter(e, n, c, self, k - 1), self).1
  }

  lemma {:induction false} CounterShift(e: set<int>, n: int, c: int, self: int, k: nat)
    requires n > 0
    ensures CounterAfter(e, n, c, self, k + 1) == CounterAfter(e, n, Pick(e, n, c, self).1, self, k)
  {
    if k > 0 {
      CounterShift(e, n, c, self, k - 1);
    } else {
      assert CounterAfter(e, n, c, self, 0) == c;
    }
  }

  lemma {:induction false} PicksAt(e: set<int>, n: int, c: int, self: int, k: nat, i: nat)
    requires n > 0 && i < k
    ensures Picks(e, n, c, self, k)[i] == Pick(e, n, CounterAfter(e, n, c, self, i), self).0
    decreases k
  {
    if i > 0 {
      PicksAt(e, n, Pick(e, n, c, self).1, self, k - 1, i - 1);
      CounterShift(e, n, c, self, i - 1);
    }
  }

  // One request: a roaming one takes the next pick, any other leaves the counter alone.
  lemma OneAsk(cpu: Cpu, l: Local, a: Ask)
    requires cpu.Ok() && |l.slots| == |l.tags|
    ensures var (l', e) := cpu.One(l, a);
            if cpu.Roams(a) then
              var (c, counter) := Pick(a.env.live - a.env.terminals, cpu.n, l.counter, cpu.self);
              l'.counter == counter && cpu.SentTo((a, e), c)
            else l'.counter == l.counter
  {
  }

  lemma {:induction false} RoamedPicks(cpu: Cpu, l: Local, asks: seq<Ask>, e: set<int>)
    requires cpu.Ok() && |l.slots| == |l.tags| && Steady(cpu, asks, e)
    ensures var es := cpu.Roamed(l, asks);
            && cpu.After(l, asks).counter == CounterAfter(e, cpu.n, l.counter, cpu.self, |es|)
            && forall i :: 0 <= i < |es| ==> cpu.SentTo(es[i], Pick(e, cpu.n, CounterAfter(e, cpu.n, l.counter, cpu.self, i), cpu.self).0)
    decreases |asks|
  {
    if asks != [] {
      var k := |asks| - 1;
      RoamedPicks(cpu, l, asks[..k], e);
      OneAsk(cpu, cpu.After(l, asks[..k]), asks[k]);
    }
  }

  /** Fairness of the handler: while the directory names the same computing CPUs, as many requests
      for any CPU as there are of them are sent to each of them exactly once, with any other
      requests in between; with none, all are served here. */
  lemma FairlySent(cpu: Cpu, l: Local, asks: seq<Ask>, e: set<int>) returns (order: seq<int>)
    requires cpu.Ok() && |l.slots| == |l.tags| && Steady(cpu, asks, e) && Ids(e, cpu.n)
    requires |cpu.Roamed(l, asks)| == |e|
    ensures multiset(order) == multiset(e)
    ensures |order| == |e| && forall i :: 0 <= i < |e| ==> cpu.SentTo(cpu.Roamed(l, asks)[i], order[i])
  {
    order := Picks(e, cpu.n, l.counter, cpu.self, |e|);
    FairRound(e, cpu.n, l.counter, cpu.self, |e|);
    RoamedPicks(cpu, l, asks, e);
    forall i | 0 <= i < |e|
      ensures cpu.SentTo(cpu.Roamed(l, asks)[i], order[i])
    {
      PicksAt(e, cpu.n, l.counter, cpu.self, |e|, i);
    }
  }

  lemma NobodyElse(cpu: Cpu, l: Local, asks: seq<Ask>)
    requires cpu.Ok() && |l.slots| == |l.tags| && Steady(cpu, asks, {})
    ensures forall i :: 0 <= i < |cpu.Roamed(l, asks)| ==> cpu.SentTo(cpu.Roamed(l, asks)[i], cpu.self)
  {
    RoamedPicks(cpu, l, asks, {});
    forall i | 0 <= i < |cpu.Roamed(l, asks)|
      ensures cpu.SentTo(cpu.Roamed(l, asks)[i], cpu.self)
    {
      PickIsNearest({}, cpu.n, CounterAfter({}, cpu.n, l.counter, cpu.self, i), cpu.self, 0);
    }
  }

  /** Where any other request is sent: kept here if it is for any CPU, and otherwise to the CPU that
      it names. */
  lemma AimedOrKept(cpu: Cpu, l: Local, a: Ask)
    requires cpu.Ok() && |l.slots| == |l.tags| && !cpu.Roams(a)
    ensures cpu.SentTo((a, cpu.One(l, a).1), if a.target == ANY || a.target == LOCAL then cpu.self else a.target)
  {
  }
}
