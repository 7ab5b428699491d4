/** The supervisors of all CPUs together: spawn requests travel between their mailboxes, one
    atomic step at a time, in any interleaving. */
module SpawnProtocol {
  import opened Sup = Supervisor

  /** A message to a supervisor.  `via` is the CPU that relayed a request and `from` the one
      that broadcast a cull; -1 stands for a client. */
  datatype Packet =
    | Spawn(id: int, client: int, len: int, target: int, hint: int, via: int)
    | Cull(origin: int, from: int)
    | Shutdown
    | Other

  /** What a supervisor is doing: nothing, handling a message, or closing down and telling its
      peers from number `next` on. */
  datatype Hand = Idle | Handling(k: Packet) | Closing(next: nat)

  datatype Answer = Answer(id: int, client: int, task: int, status: int)

  datatype Started = Started(req: Req, cpu: int, slot: int, hint: int)

  /** Which CPUs are co-resident terminals, and how many processor ids are scanned. */
  datatype Net = Net(coresident: seq<bool>, scan: int) {
    predicate Ok() {
      scan > 0 && |coresident| <= ANY
    }

    predicate Cpu(p: int) {
      0 <= p < |coresident|
    }
  }

  /** All supervisors with their mailboxes, and a log of what happened: the requests issued,
      answered, relayed and started, and which terminal's culls each CPU has served. */
  datatype Sys = Sys(sup: seq<Local>, mail: seq<seq<Packet>>, hand: seq<Hand>, halted: seq<bool>,
                     issued: map<int, Packet>, answers: seq<Answer>, starts: seq<Started>,
                     relays: seq<int>, culled: set<(int, int)>)
  {
    predicate Sized(net: Net) {
      |sup| == |mail| == |hand| == |halted| == |net.coresident|
    }

    function Put(p: int, k: Packet): (s: Sys)
      requires 0 <= p < |mail|
    {
      this.(mail := mail[p := mail[p] + [k]])
    }
  }

  /** One step: a client or program sends a message; a supervisor takes the next one, handles
      it, or tells one more peer that it closes; a task exits. */
  datatype Step =
    | Ask(p: int, k: Packet)
    | Take(p: int)
    | Handle(p: int, env: Env)
    | Tell(p: int, found: bool)
    | Exit(p: int, t: int)

  predicate Enabled(s: Sys, net: Net, st: Step)
    requires s.Sized(net)
  {
    net.Cpu(st.p) &&
    match st
    case Ask(p, k) =>
      (k.Spawn? ==> k.id !in s.issued && k.via == -1) && (k.Cull? ==> k.from == -1)
    case Take(p) => !s.halted[p] && s.hand[p].Idle? && s.mail[p] != []
    case Handle(p, _) => !s.halted[p] && s.hand[p].Handling?
    case Tell(p, _) => !s.halted[p] && s.hand[p].Closing?
    case Exit(p, t) => 0 <= t < |s.sup[p].slots| && s.sup[p].slots[t].Used?
  }

  function Asked(s: Sys, p: int, k: Packet): (s': Sys)
    requires 0 <= p < |s.mail|
  {
    var s1 := s.Put(p, k);
    if k.Spawn? then s1.(issued := s.issued[k.id := k]) else s1
  }

  function Taken(s: Sys, p: int): (s': Sys)
    requires 0 <= p < |s.mail| == |s.hand| && s.mail[p] != []
  {
    s.(mail := s.mail[p := s.mail[p][1..]], hand := s.hand[p := Handling(s.mail[p][0])])
  }

  /** The request in p's hand is passed on to the mailbox of a peer ... */
  function Passed(s: Sys, p: int, l: Local, e: Effect): (s': Sys)
    requires 0 <= p < |s.hand| == |s.mail| && s.hand[p].Handling? && s.hand[p].k.Spawn?
    requires e.Relay? && 0 <= e.peer < |s.mail| && |s.sup| == |s.mail|
  {
    var k := s.hand[p].k;
    s.(sup := s.sup[p := l], hand := s.hand[p := Idle], relays := s.relays + [k.id])
      .Put(e.peer, Spawn(k.id, k.client, e.len, e.target, e.hint, p))
  }

  /** ... or answered. */
  function Closed(s: Sys, p: int, l: Local, task: int, status: int): (s': Sys)
    requires 0 <= p < |s.hand| == |s.sup| && s.hand[p].Handling? && s.hand[p].k.Spawn?
  {
    var k := s.hand[p].k;
    s.(sup := s.sup[p := l], hand := s.hand[p := Idle],
       answers := s.answers + [Answer(k.id, k.client, task, status)],
       starts := if status == 0 then s.starts + [Started(Req(k.id, k.via), p, task, k.hint)] else s.starts)
  }

  // How p handles the spawn request in its hand.
  function Outcome(s: Sys, net: Net, p: int, env: Env): (r: (Local, Effect))
    requires s.Sized(net) && net.Ok() && net.Cpu(p) && s.hand[p].Handling? && s.hand[p].k.Spawn?
    requires |s.sup[p].slots| == |s.sup[p].tags|
  {
    var k := s.hand[p].k;
    Sup.Spawned(s.sup[p], p, net.scan, net.coresident[p], Req(k.id, k.via), k.len, k.target, k.hint, env)
  }

  /** A spawn request is handled.  The directory knows no CPU that does not exist. */
  function SpawnStep(s: Sys, net: Net, p: int, env: Env): (s': Sys)
    requires s.Sized(net) && net.Ok() && net.Cpu(p) && s.hand[p].Handling? && s.hand[p].k.Spawn?
    requires |s.sup[p].slots| == |s.sup[p].tags|
    ensures s'.Sized(net)
  {
    var (l, e) := Outcome(s, net, p, env);
    match e
    case Relay(peer, _, _, _) => if net.Cpu(peer) then Passed(s, p, l, e) else Closed(s, p, l, -1, -1)
    case Reply(task, status) => Closed(s, p, l, task, status)
  }

  function Handled(s: Sys, net: Net, p: int, env: Env): (s': Sys)
    requires s.Sized(net) && net.Ok() && net.Cpu(p) && s.hand[p].Handling?
    requires |s.sup[p].slots| == |s.sup[p].tags|
  {
    match s.hand[p].k
    case Spawn(_, _, _, _, _, _) => SpawnStep(s, net, p, env)
    case Cull(origin, from) =>
      s.(sup := s.sup[p := s.sup[p].Cull(origin)], hand := s.hand[p := Idle],
         culled := if from >= 0 then s.culled + {(from, p)} else s.culled)
    case Shutdown => s.(hand := s.hand[p := Closing(if net.coresident[p] then 0 else net.scan)])
    case Other => s.(hand := s.hand[p := Idle])
  }

  /** A closing supervisor tells its next peer, or, after the last, kills its tasks and halts. */
  function Told(s: Sys, net: Net, p: int, found: bool): (s': Sys)
    requires s.Sized(net) && net.Cpu(p) && s.hand[p].Closing?
    requires |s.sup[p].slots| == |s.sup[p].tags|
  {
    var q := s.hand[p].next;
    if q >= net.scan then
      s.(sup := s.sup[p := s.sup[p].KillAll()], hand := s.hand[p := Idle], halted := s.halted[p := true])
    else
      var s1 := s.(hand := s.hand[p := Closing(q + 1)]);
      if q != p && found && net.Cpu(q) then s1.Put(q, Cull(p + 1, p)) else s1
  }

  function Exited(s: Sys, p: int, t: int): (s': Sys)
    requires 0 <= p < |s.sup| && 0 <= t < |s.sup[p].slots| && s.sup[p].slots[t].Used?
  {
    s.(sup := s.sup[p := s.sup[p].(slots := s.sup[p].slots[t := s.sup[p].slots[t].(exited := true)])])
  }

  ghost predicate Tables(s: Sys) {
    forall p :: 0 <= p < |s.sup| ==> s.sup[p].Tagged()
  }

  /** The step relation; a step that is not enabled changes nothing. */
  ghost function Next(s: Sys, net: Net, st: Step): (s': Sys)
    requires s.Sized(net) && net.Ok() && Tables(s)
    ensures s'.Sized(net)
  {
    if !Enabled(s, net, st) then s else
    assert s.sup[st.p].Tagged();
    match st
    case Ask(p, k) => Asked(s, p, k)
    case Take(p) => Taken(s, p)
    case Handle(p, env) => Handled(s, net, p, env)
    case Tell(p, found) => Told(s, net, p, found)
    case Exit(p, t) => Exited(s, p, t)
  }

  // ---------- where the requests are ----------

  // Whether a packet is request id; or only as long as it has not been relayed.
  function Is(k: Packet, id: int, all: bool): nat {
    if k.Spawn? && k.id == id && (all || k.via == -1) then 1 else 0
  }

  function Queued(q: seq<Packet>, id: int, all: bool): nat {
    if q == [] then 0 else Is(q[0], id, all) + Queued(q[1..], id, all)
  }

  function Held(h: Hand, id: int, all: bool): nat {
    if h.Handling? then Is(h.k, id, all) else 0
  }

  /** How often request id is in the mailboxes and hands of the first n CPUs. */
  function Load(mail: seq<seq<Packet>>, hand: seq<Hand>, n: nat, id: int, all: bool): nat
    requires n <= |mail| == |hand|
  {
    if n == 0 then 0
    else Load(mail, hand, n - 1, id, all) + Queued(mail[n - 1], id, all) + Held(hand[n - 1], id, all)
  }

  function InFlight(s: Sys, id: int, all: bool): nat
    requires |s.mail| == |s.hand|
  {
    Load(s.mail, s.hand, |s.mail|, id, all)
  }

  lemma {:induction false} QueuedAppend(q: seq<Packet>, k: Packet, id: int, all: bool)
    ensures Queued(q + [k], id, all) == Queued(q, id, all) + Is(k, id, all)
  {
    if q == [] {
      assert (q + [k])[1..] == [];
    } else {
      QueuedAppend(q[1..], k, id, all);
      assert (q + [k])[1..] == q[1..] + [k];
    }
  }

  lemma {:induction false} LoadChange(mail: seq<seq<Packet>>, hand: seq<Hand>, p: int, m: seq<Packet>, h: Hand,
                                      n: nat, id: int, all: bool)
    requires n <= |mail| == |hand| && 0 <= p < |mail|
    ensures Load(mail[p := m], hand[p := h], n, id, all)
         == Load(mail, hand, n, id, all)
          + if p < n then Queued(m, id, all) + Held(h, id, all) - Queued(mail[p], id, all) - Held(hand[p], id, all) else 0
  {
    if n > 0 { LoadChange(mail, hand, p, m, h, n - 1, id, all); }
  }

  // Putting a packet into a mailbox.
  lemma PutAdds(s: Sys, p: int, k: Packet, id: int, all: bool)
    requires |s.mail| == |s.hand| && 0 <= p < |s.mail|
    ensures InFlight(s.Put(p, k), id, all) == InFlight(s, id, all) + Is(k, id, all)
  {
    QueuedAppend(s.mail[p], k, id, all);
    LoadChange(s.mail, s.hand, p, s.mail[p] + [k], s.hand[p], |s.mail|, id, all);
    assert s.hand[p := s.hand[p]] == s.hand;
  }

  // Taking the first message of a mailbox in hand.
  lemma TakeMoves(s: Sys, p: int, id: int, all: bool)
    requires |s.mail| == |s.hand| && 0 <= p < |s.mail| && s.mail[p] != [] && s.hand[p].Idle?
    ensures InFlight(Taken(s, p), id, all) == InFlight(s, id, all)
  {
    LoadChange(s.mail, s.hand, p, s.mail[p][1..], Handling(s.mail[p][0]), |s.mail|, id, all);
  }

  // Putting down what a supervisor had in hand.
  lemma DropTakes(s: Sys, s': Sys, p: int, h: Hand, id: int, all: bool)
    requires |s.mail| == |s.hand| && 0 <= p < |s.mail| && !h.Handling?
    requires s'.mail == s.mail && s'.hand == s.hand[p := h]
    ensures InFlight(s', id, all) + Held(s.hand[p], id, all) == InFlight(s, id, all)
  {
    LoadChange(s.mail, s.hand, p, s.mail[p], h, |s.mail|, id, all);
    assert s.mail[p := s.mail[p]] == s.mail;
  }

  // How often request id was answered, relayed, started.
  function Answered(a: seq<Answer>, id: int): nat {
    if a == [] then 0 else Answered(a[..|a| - 1], id) + if a[|a| - 1].id == id then 1 else 0
  }

  function Relayed(a: seq<int>, id: int): nat {
    if a == [] then 0 else Relayed(a[..|a| - 1], id) + if a[|a| - 1] == id then 1 else 0
  }

  function Begun(a: seq<Started>, id: int): nat {
    if a == [] then 0 else Begun(a[..|a| - 1], id) + if a[|a| - 1].req.id == id then 1 else 0
  }

  /** A request that was issued is in exactly one place: in one mailbox, in one supervisor's
      hand, or answered once; and it was relayed at most once and started at most one task. */
  ghost predicate Conserved(s: Sys, id: int)
    requires |s.mail| == |s.hand|
  {
    var one := if id in s.issued then 1 else 0;
    && InFlight(s, id, true) + Answered(s.answers, id) == one
    && InFlight(s, id, false) + Relayed(s.relays, id) <= one
    && InFlight(s, id, true) + Begun(s.starts, id) <= one
  }

  // A request that was relayed is not relayed again.
  predicate Pinned(s: Sys, p: int)
    requires 0 <= p < |s.hand|
  {
    s.hand[p].Handling? && s.hand[p].k.Spawn? && s.hand[p].k.via != -1 ==> s.hand[p].k.target == LOCAL
  }

  lemma ConservedStep(s: Sys, net: Net, st: Step, id: int)
    requires s.Sized(net) && net.Ok() && Tables(s) && Conserved(s, id) && (net.Cpu(st.p) ==> Pinned(s, st.p))
    ensures Conserved(Next(s, net, st), id)
  {
    if Enabled(s, net, st) {
      assert s.sup[st.p].Tagged();
      match st
      case Ask(p, k) => PutAdds(s, p, k, id, true); PutAdds(s, p, k, id, false);
      case Take(p) => TakeMoves(s, p, id, true); TakeMoves(s, p, id, false);
      case Handle(p, env) => ConservedHandle(s, net, p, env, id);
      case Tell(p, found) => ToldKeeps(s, net, p, found, id, true); ToldKeeps(s, net, p, found, id, false);
      case Exit(p, t) =>
    }
  }

  lemma ToldKeeps(s: Sys, net: Net, p: int, found: bool, id: int, all: bool)
    requires s.Sized(net) && net.Cpu(p) && s.hand[p].Closing?
    requires |s.sup[p].slots| == |s.sup[p].tags|
    ensures InFlight(Told(s, net, p, found), id, all) == InFlight(s, id, all)
  {
    var q := s.hand[p].next;
    var s1 := s.(hand := s.hand[p := if q >= net.scan then Idle else Closing(q + 1)]);
    DropTakes(s, s1, p, s1.hand[p], id, all);
    if q < net.scan && q != p && found && net.Cpu(q) { PutAdds(s1, q, Cull(p + 1, p), id, all); }
  }

  lemma ConservedHandle(s: Sys, net: Net, p: int, env: Env, id: int)
    requires s.Sized(net) && net.Ok() && net.Cpu(p) && s.hand[p].Handling? && Conserved(s, id)
    requires |s.sup[p].slots| == |s.sup[p].tags| && Pinned(s, p)
    ensures Conserved(Handled(s, net, p, env), id)
  {
    var s' := Handled(s, net, p, env);
    if s.hand[p].k.Spawn? {
      ConservedSpawn(s, net, p, env, id);
    } else {
      DropTakes(s, s', p, s'.hand[p], id, true);
      DropTakes(s, s', p, s'.hand[p], id, false);
    }
  }

  lemma ConservedSpawn(s: Sys, net: Net, p: int, env: Env, id: int)
    requires s.Sized(net) && net.Ok() && net.Cpu(p) && s.hand[p].Handling? && s.hand[p].k.Spawn? && Conserved(s, id)
    requires |s.sup[p].slots| == |s.sup[p].tags| && (s.hand[p].k.via != -1 ==> s.hand[p].k.target == LOCAL)
    ensures Conserved(SpawnStep(s, net, p, env), id)
  {
    var (l, e) := Outcome(s, net, p, env);
    if e.Relay? && net.Cpu(e.peer) {
      assert s.hand[p].k.via == -1;
      ConservedPassed(s, p, l, e, id);
    } else if e.Relay? {
      ConservedClosed(s, p, l, -1, -1, id);
    } else {
      ConservedClosed(s, p, l, e.task, e.status, id);
    }
  }

  lemma ConservedPassed(s: Sys, p: int, l: Local, e: Effect, id: int)
    requires 0 <= p < |s.hand| == |s.mail| && s.hand[p].Handling? && s.hand[p].k.Spawn? && s.hand[p].k.via == -1
    requires e.Relay? && 0 <= e.peer < |s.mail| && |s.sup| == |s.mail| && Conserved(s, id)
    ensures Conserved(Passed(s, p, l, e), id)
  {
    var k := s.hand[p].k;
    var s1 := s.(sup := s.sup[p := l], hand := s.hand[p := Idle], relays := s.relays + [k.id]);
    var k' := Spawn(k.id, k.client, e.len, e.target, e.hint, p);
    forall all: bool
      ensures InFlight(Passed(s, p, l, e), id, all) == InFlight(s, id, all) - Is(k, id, all) + Is(k', id, all)
    {
      DropTakes(s, s1, p, Idle, id, all);
      PutAdds(s1, e.peer, k', id, all);
    }
  }

  lemma ConservedClosed(s: Sys, p: int, l: Local, task: int, status: int, id: int)
    requires 0 <= p < |s.hand| == |s.mail| == |s.sup| && s.hand[p].Handling? && s.hand[p].k.Spawn? && Conserved(s, id)
    ensures Conserved(Closed(s, p, l, task, status), id)
  {
    DropTakes(s, Closed(s, p, l, task, status), p, Idle, id, true);
    DropTakes(s, Closed(s, p, l, task, status), p, Idle, id, false);
  }

  // ---------- what the packets say ----------

  /** A request is the one issued, its hint, length and client included; after its relay it is
      pinned to the CPU it is on, which is the one asked for unless any would do. */
  predicate Good(issued: map<int, Packet>, net: Net, k: Packet, q: int) {
    match k
    case Spawn(id, client, len, target, hint, via) =>
      id in issued && issued[id].Spawn? && issued[id] == Spawn(id, client, len, issued[id].target, hint, -1)
      && (if via == -1 then target == issued[id].target
          else net.Cpu(via) && target == LOCAL && issued[id].target in {q, ANY})
    case Cull(origin, from) => from == -1 || (net.Cpu(from) && origin == from + 1)
    case _ => true
  }

  ghost predicate AllGood(s: Sys, net: Net)
    requires s.Sized(net)
  {
    (forall q, i :: net.Cpu(q) && 0 <= i < |s.mail[q]| ==> Good(s.issued, net, s.mail[q][i], q))
    && (forall q :: net.Cpu(q) && s.hand[q].Handling? ==> Good(s.issued, net, s.hand[q].k, q))
  }

  lemma GoodStep(s: Sys, net: Net, st: Step)
    requires s.Sized(net) && net.Ok() && Tables(s) && AllGood(s, net)
    ensures AllGood(Next(s, net, st), net)
  {
    if Enabled(s, net, st) {
      assert s.sup[st.p].Tagged();
      if st.Handle? && s.hand[st.p].k.Spawn? {
        GoodSpawn(s, net, st.p, st.env);
      }
    }
  }

  lemma GoodSpawn(s: Sys, net: Net, p: int, env: Env)
    requires s.Sized(net) && net.Ok() && net.Cpu(p) && s.hand[p].Handling? && s.hand[p].k.Spawn?
    requires |s.sup[p].slots| == |s.sup[p].tags| && AllGood(s, net)
    ensures AllGood(SpawnStep(s, net, p, env), net)
  {
    var e := Outcome(s, net, p, env).1;
    if e.Relay? && net.Cpu(e.peer) {
      var k := s.hand[p].k;
      assert Good(s.issued, net, k, p);
      assert Good(s.issued, net, Spawn(k.id, k.client, e.len, e.target, e.hint, p), e.peer);
    }
  }

  /** Every answer goes to the client that asked; every task was started where it was asked for,
      with the hint of its request, and its client was told. */
  ghost predicate Logged(s: Sys, net: Net) {
    (forall a :: a in s.answers ==> a.id in s.issued && s.issued[a.id].Spawn? && a.client == s.issued[a.id].client)
    && (forall b :: b in s.starts ==>
          b.req.id in s.issued && s.issued[b.req.id].Spawn? && b.hint == s.issued[b.req.id].hint
          && s.issued[b.req.id].target in {b.cpu, LOCAL, ANY}
          && Answer(b.req.id, s.issued[b.req.id].client, b.slot, 0) in s.answers)
    && (forall a :: a in s.answers && a.status == 0 ==>
          exists b :: b in s.starts && b.req.id == a.id && b.slot == a.task)
  }

  lemma LoggedStep(s: Sys, net: Net, st: Step)
    requires s.Sized(net) && net.Ok() && Tables(s) && AllGood(s, net) && Logged(s, net)
    ensures Logged(Next(s, net, st), net)
  {
    if Enabled(s, net, st) && st.Handle? && s.hand[st.p].k.Spawn? {
      assert s.sup[st.p].Tagged();
      LoggedSpawn(s, net, st.p, st.env);
    }
  }

  lemma LoggedSpawn(s: Sys, net: Net, p: int, env: Env)
    requires s.Sized(net) && net.Ok() && net.Cpu(p) && s.hand[p].Handling? && s.hand[p].k.Spawn?
    requires |s.sup[p].slots| == |s.sup[p].tags| && AllGood(s, net) && Logged(s, net)
    ensures Logged(SpawnStep(s, net, p, env), net)
  {
    var k := s.hand[p].k;
    var (l, e) := Outcome(s, net, p, env);
    assert Good(s.issued, net, k, p);
    if e.Relay? && net.Cpu(e.peer) {
    } else if e.Relay? {
      LoggedClosed(s, net, p, l, -1, -1);
    } else {
      LoggedClosed(s, net, p, l, e.task, e.status);
    }
  }

  lemma LoggedClosed(s: Sys, net: Net, p: int, l: Local, task: int, status: int)
    requires s.Sized(net) && net.Cpu(p) && s.hand[p].Handling? && s.hand[p].k.Spawn? && Logged(s, net)
    requires Good(s.issued, net, s.hand[p].k, p) && (status == 0 ==> s.hand[p].k.target in {p, LOCAL, ANY})
    ensures Logged(Closed(s, p, l, task, status), net)
  {
    var k, s' := s.hand[p].k, Closed(s, p, l, task, status);
    assert s'.answers[|s.answers|] == Answer(k.id, k.client, task, status);
    if status == 0 {
      assert s'.starts[|s.starts|] == Started(Req(k.id, k.via), p, task, k.hint);
    }
    forall a | a in s'.answers && a.status == 0
      ensures exists b :: b in s'.starts && b.req.id == a.id && b.slot == a.task
    {
      if a !in s.answers {
        assert Started(Req(k.id, k.via), p, task, k.hint) in s'.starts;
      } else {
        var b :| b in s.starts && b.req.id == a.id && b.slot == a.task;
        assert b in s'.starts;
      }
    }
  }

  // ---------- closing terminals ----------

  // A terminal that has begun to close relays nothing any more.
  predicate Silent(s: Sys, p: int) {
    0 <= p < |s.hand| == |s.halted| && (s.halted[p] || s.hand[p].Closing?)
  }

  // A request that terminal p relayed.
  predicate From(k: Packet, p: int) {
    k.Spawn? && k.via == p
  }

  // The cull that terminal p broadcast.
  predicate CullBy(k: Packet, p: int) {
    k.Cull? && k.from == p
  }

  // A task that terminal p had placed on this CPU for itself.
  predicate PlacedBy(b: Slot, p: int) {
    b.Used? && b.req.via == p && b.hint == p + 1
  }

  // Behind terminal p's cull nothing that p relayed is waiting at q.
  ghost predicate Behind(s: Sys, p: int, q: int)
    requires 0 <= q < |s.mail| == |s.hand|
  {
    && (forall i :: 0 <= i < |s.mail[q]| && CullBy(s.mail[q][i], p) ==> Silent(s, p))
    && (forall i, j :: 0 <= i < j < |s.mail[q]| && CullBy(s.mail[q][i], p) ==> !From(s.mail[q][j], p))
    && (s.hand[q].Handling? && CullBy(s.hand[q].k, p) ==>
          Silent(s, p) && forall j :: 0 <= j < |s.mail[q]| ==> !From(s.mail[q][j], p))
  }

  // Once q has served terminal p's cull, nothing of p's is left there.
  ghost predicate Rid(s: Sys, p: int, q: int)
    requires 0 <= q < |s.mail| == |s.hand| == |s.sup|
  {
    (p, q) in s.culled ==>
      && Silent(s, p)
      && (forall j :: 0 <= j < |s.mail[q]| ==> !From(s.mail[q][j], p))
      && (s.hand[q].Handling? ==> !From(s.hand[q].k, p))
      && (forall t :: 0 <= t < |s.sup[q].slots| ==> !PlacedBy(s.sup[q].slots[t], p))
  }

  ghost predicate Sealed(s: Sys, net: Net)
    requires s.Sized(net)
  {
    forall p, q :: net.Cpu(p) && net.Cpu(q) ==> Behind(s, p, q) && Rid(s, p, q)
  }

  lemma SealedStep(s: Sys, net: Net, st: Step)
    requires s.Sized(net) && net.Ok() && Tables(s) && AllGood(s, net) && Sealed(s, net)
    ensures Sealed(Next(s, net, st), net)
  {
    if Enabled(s, net, st) {
      assert s.sup[st.p].Tagged();
      forall p, q | net.Cpu(p) && net.Cpu(q)
        ensures Behind(Next(s, net, st), p, q) && Rid(Next(s, net, st), p, q)
      {
        assert Behind(s, p, q) && Rid(s, p, q);
        if st.Handle? {
          SealedHandle(s, net, st.p, st.env, p, q);
        } else if st.Tell? {
          SealedTell(s, net, st.p, st.found, p, q);
        } else if st.Take? {
          SealedTake(s, net, st.p, p, q);
        }
      }
    }
  }

  lemma SealedTake(s: Sys, net: Net, r: int, p: int, q: int)
    requires s.Sized(net) && net.Cpu(r) && net.Cpu(p) && net.Cpu(q) && s.hand[r].Idle? && s.mail[r] != []
    requires Behind(s, p, q) && Rid(s, p, q)
    ensures Behind(Taken(s, r), p, q) && Rid(Taken(s, r), p, q)
  {
    assert CullBy(s.mail[r][0], p) || !CullBy(s.mail[r][0], p);
  }

  lemma SealedTell(s: Sys, net: Net, r: int, found: bool, p: int, q: int)
    requires s.Sized(net) && net.Cpu(r) && net.Cpu(p) && net.Cpu(q) && s.hand[r].Closing?
    requires |s.sup[r].slots| == |s.sup[r].tags| && Behind(s, p, q) && Rid(s, p, q)
    ensures Behind(Told(s, net, r, found), p, q) && Rid(Told(s, net, r, found), p, q)
  {
    var s' := Told(s, net, r, found);
    assert Silent(s, p) ==> Silent(s', p);
    if q == r {
      assert forall t :: 0 <= t < |s.sup[q].slots| ==> PlacedBy(s'.sup[q].slots[t], p) == PlacedBy(s.sup[q].slots[t], p);
    }
  }

  lemma SealedHandle(s: Sys, net: Net, r: int, env: Env, p: int, q: int)
    requires s.Sized(net) && net.Ok() && AllGood(s, net)
    requires net.Cpu(r) && net.Cpu(p) && net.Cpu(q) && s.hand[r].Handling? && !s.halted[r]
    requires s.sup[r].Tagged() && Behind(s, p, q) && Rid(s, p, q)
    ensures Behind(Handled(s, net, r, env), p, q) && Rid(Handled(s, net, r, env), p, q)
  {
    var k := s.hand[r].k;
    if k.Spawn? {
      var (l, e) := Outcome(s, net, r, env);
      NothingElsePlaced(s, net, r, env, p);
      if e.Relay? && net.Cpu(e.peer) {
        SealedPassed(s, r, l, e, p, q);
      } else {
        SealedKept(s, Handled(s, net, r, env), r, p, q);
      }
    } else if k.Cull? {
      SealedCull(s, net, r, env, p, q);
    } else {
      SealedKept(s, Handled(s, net, r, env), r, p, q);
    }
  }

  // Handling a request adds no task of p's unless p relayed it.
  lemma NothingElsePlaced(s: Sys, net: Net, r: int, env: Env, p: int)
    requires s.Sized(net) && net.Ok() && net.Cpu(r) && s.hand[r].Handling? && s.hand[r].k.Spawn?
    requires |s.sup[r].slots| == |s.sup[r].tags|
    ensures var l := Outcome(s, net, r, env).0;
      |l.slots| == |s.sup[r].slots|
      && forall t :: 0 <= t < |l.slots| && PlacedBy(l.slots[t], p) ==> PlacedBy(s.sup[r].slots[t], p) || From(s.hand[r].k, p)
  {
    var k := s.hand[r].k;
    ReplyNamesTheTask(s.sup[r], r, net.scan, net.coresident[r], Req(k.id, k.via), k.len, k.target, k.hint, env);
  }

  // r put down its message; mailboxes are as they were, and no task of p's was added.
  lemma SealedKept(s: Sys, s': Sys, r: int, p: int, q: int)
    requires 0 <= r < |s.mail| == |s.hand| == |s.sup| == |s.halted| && 0 <= q < |s.mail| && s.hand[r].Handling? && !s.halted[r]
    requires s'.mail == s.mail && |s'.hand| == |s'.sup| == |s.mail| && s'.halted == s.halted && s'.culled == s.culled
    requires s'.hand == s.hand[r := s'.hand[r]] && !s'.hand[r].Handling?
    requires s'.sup == s.sup[r := s'.sup[r]]
    requires |s'.sup[r].slots| == |s.sup[r].slots|
    requires forall t :: 0 <= t < |s.sup[r].slots| && PlacedBy(s'.sup[r].slots[t], p) ==>
      PlacedBy(s.sup[r].slots[t], p) || From(s.hand[r].k, p)
    requires Behind(s, p, q) && Rid(s, p, q)
    ensures Behind(s', p, q) && Rid(s', p, q)
  {
    assert Silent(s, p) ==> Silent(s', p);
  }

  lemma SealedPassed(s: Sys, r: int, l: Local, e: Effect, p: int, q: int)
    requires 0 <= r < |s.mail| == |s.hand| == |s.sup| == |s.halted| && 0 <= q < |s.mail|
    requires s.hand[r].Handling? && s.hand[r].k.Spawn? && !s.halted[r] && e.Relay? && 0 <= e.peer < |s.mail|
    requires |l.slots| == |s.sup[r].slots|
    requires forall t :: 0 <= t < |l.slots| && PlacedBy(l.slots[t], p) ==>
      PlacedBy(s.sup[r].slots[t], p) || From(s.hand[r].k, p)
    requires Behind(s, p, q) && Rid(s, p, q)
    ensures Behind(Passed(s, r, l, e), p, q) && Rid(Passed(s, r, l, e), p, q)
  {
    var s1 := s.(sup := s.sup[r := l], hand := s.hand[r := Idle], relays := s.relays + [s.hand[r].k.id]);
    SealedKept(s, s1, r, p, q);
    assert !Silent(s, r);
    assert Silent(s1, p) ==> p != r;
  }

  lemma SealedCull(s: Sys, net: Net, r: int, env: Env, p: int, q: int)
    requires s.Sized(net) && net.Ok() && AllGood(s, net)
    requires net.Cpu(r) && net.Cpu(p) && net.Cpu(q) && s.hand[r].Handling? && s.hand[r].k.Cull? && !s.halted[r]
    requires s.sup[r].Tagged() && Behind(s, p, q) && Rid(s, p, q)
    ensures Behind(Handled(s, net, r, env), p, q) && Rid(Handled(s, net, r, env), p, q)
  {
    var k, s' := s.hand[r].k, Handled(s, net, r, env);
    assert Good(s.issued, net, k, r);
    if k.origin > 0 { CullIsExact(s.sup[r], k.origin); }
    assert forall t :: 0 <= t < |s.sup[r].slots| && PlacedBy(s'.sup[r].slots[t], p) ==>
      PlacedBy(s.sup[r].slots[t], p) && !CullBy(k, p);
    SealedKept(s, s'.(culled := s.culled), r, p, q);
  }

  // ---------- runs ----------

  ghost predicate Stopped(s: Sys)
    requires |s.hand| == |s.halted|
  {
    forall p :: 0 <= p < |s.hand| && s.halted[p] ==> s.hand[p].Idle?
  }

  ghost predicate Inv(s: Sys, net: Net) {
    s.Sized(net) && Tables(s) && Stopped(s) && (forall id :: Conserved(s, id))
    && AllGood(s, net) && Logged(s, net) && Sealed(s, net)
  }

  /** Before the first message: only boot tasks. */
  ghost predicate Booted(s: Sys, net: Net) {
    s.Sized(net) && Tables(s)
    && (forall p :: net.Cpu(p) ==> s.mail[p] == [] && s.hand[p].Idle? && !s.halted[p])
    && (forall p, t :: net.Cpu(p) && 0 <= t < |s.sup[p].slots| && s.sup[p].slots[t].Used? ==>
          s.sup[p].slots[t].req.via == -1)
    && s.issued == map[] && s.answers == [] && s.starts == [] && s.relays == [] && s.culled == {}
  }

  ghost function Ran(s: Sys, net: Net, steps: seq<Step>): (s': Sys)
    requires net.Ok() && Booted(s, net)
    ensures Inv(s', net)
    decreases |steps|
  {
    if steps == [] then
      BootInv(s, net);
      s
    else
      var s1 := Ran(s, net, steps[..|steps| - 1]);
      InvStep(s1, net, steps[|steps| - 1]);
      Next(s1, net, steps[|steps| - 1])
  }

  lemma {:induction false} NothingThere(mail: seq<seq<Packet>>, hand: seq<Hand>, n: nat, id: int, all: bool)
    requires n <= |mail| == |hand|
    requires forall p :: 0 <= p < n ==> mail[p] == [] && hand[p].Idle?
    ensures Load(mail, hand, n, id, all) == 0
  {
    if n > 0 { NothingThere(mail, hand, n - 1, id, all); }
  }

  lemma BootInv(s: Sys, net: Net)
    requires net.Ok() && Booted(s, net)
    ensures Inv(s, net)
  {
    forall id
      ensures Conserved(s, id)
    {
      NothingThere(s.mail, s.hand, |s.mail|, id, true);
      NothingThere(s.mail, s.hand, |s.mail|, id, false);
    }
  }

  lemma TablesStep(s: Sys, net: Net, st: Step)
    requires s.Sized(net) && net.Ok() && Tables(s) && Stopped(s)
    ensures Tables(Next(s, net, st)) && Stopped(Next(s, net, st))
  {
    if Enabled(s, net, st) {
      var p := st.p;
      assert s.sup[p].Tagged();
      if st.Handle? && s.hand[p].k.Spawn? {
        var k := s.hand[p].k;
        TagsKept(s.sup[p], p, net.scan, net.coresident[p], Req(k.id, k.via), k.len, k.target, k.hint, st.env);
      } else if st.Handle? && s.hand[p].k.Cull? {
        CullTags(s.sup[p], s.hand[p].k.origin);
      }
    }
  }

  /** Every step of every supervisor, in any interleaving, keeps the protocol's invariant. */
  lemma InvStep(s: Sys, net: Net, st: Step)
    requires net.Ok() && Inv(s, net)
    ensures Inv(Next(s, net, st), net)
  {
    TablesStep(s, net, st);
    GoodStep(s, net, st);
    LoggedStep(s, net, st);
    SealedStep(s, net, st);
    forall id
      ensures Conserved(Next(s, net, st), id)
    {
      if net.Cpu(st.p) && s.hand[st.p].Handling? { assert Good(s.issued, net, s.hand[st.p].k, st.p); }
      ConservedStep(s, net, st, id);
    }
  }

  // No running supervisor has anything left to do.
  ghost predicate Quiet(s: Sys, net: Net)
    requires s.Sized(net)
  {
    forall p :: net.Cpu(p) && !s.halted[p] ==> s.mail[p] == [] && !s.hand[p].Handling?
  }

  // A request that is somewhere is in a particular mailbox or hand.
  lemma {:induction false} Somewhere(mail: seq<seq<Packet>>, hand: seq<Hand>, n: nat, id: int) returns (p: int)
    requires n <= |mail| == |hand| && Load(mail, hand, n, id, true) > 0
    ensures 0 <= p < n && (Queued(mail[p], id, true) > 0 || Held(hand[p], id, true) > 0)
  {
    p := n - 1;
    if Queued(mail[p], id, true) + Held(hand[p], id, true) == 0 {
      p := Somewhere(mail, hand, n - 1, id);
    }
  }

  /** In every run: once the running supervisors have nothing left to do, each request ever
      issued has been answered exactly once, or lies in the mailbox of a CPU that halted. */
  lemma AnsweredOrAbandoned(s: Sys, net: Net, steps: seq<Step>, id: int)
    requires net.Ok() && Booted(s, net)
    requires id in Ran(s, net, steps).issued && Quiet(Ran(s, net, steps), net)
    ensures var s' := Ran(s, net, steps);
      Answered(s'.answers, id) == 1
      || exists p :: net.Cpu(p) && s'.halted[p] && Queued(s'.mail[p], id, true) == 1 && Answered(s'.answers, id) == 0
  {
    var s' := Ran(s, net, steps);
    assert Conserved(s', id);
    if InFlight(s', id, true) > 0 {
      var p := Somewhere(s'.mail, s'.hand, |s'.mail|, id);
      assert net.Cpu(p);
      assert s'.halted[p];
      QueuedAtMost(s'.mail, s'.hand, |s'.mail|, p, id);
      assert Queued(s'.mail[p], id, true) == 1;
    }
  }

  lemma {:induction false} QueuedAtMost(mail: seq<seq<Packet>>, hand: seq<Hand>, n: nat, p: int, id: int)
    requires 0 <= p < n <= |mail| == |hand|
    ensures Queued(mail[p], id, true) <= Load(mail, hand, n, id, true)
  {
    if p < n - 1 { QueuedAtMost(mail, hand, n - 1, p, id); }
  }

  /** In every run: a request is relayed at most once and starts at most one task. */
  lemma AtMostOnce(s: Sys, net: Net, steps: seq<Step>, id: int)
    requires net.Ok() && Booted(s, net)
    ensures var s' := Ran(s, net, steps);
      Relayed(s'.relays, id) <= 1 && Begun(s'.starts, id) <= 1 && Answered(s'.answers, id) <= 1
  {
    assert Conserved(Ran(s, net, steps), id);
  }

  /** In every run: once a CPU has served a closing terminal's cull, no task that the terminal
      placed there for itself is left, and none will come. */
  lemma NoOrphans(s: Sys, net: Net, steps: seq<Step>, p: int, q: int, t: int)
    requires net.Ok() && Booted(s, net) && net.Cpu(p) && net.Cpu(q)
    requires (p, q) in Ran(s, net, steps).culled && 0 <= t < |Ran(s, net, steps).sup[q].slots|
    ensures !PlacedBy(Ran(s, net, steps).sup[q].slots[t], p)
  {
    assert Rid(Ran(s, net, steps), p, q);
  }
}
