/** What a terminal leaves behind: programs with its hint that it did not relay itself, and when
    there are none. */
module Strays {
  import opened Sup = Supervisor
  import opened SpawnProtocol

  /** A task of terminal p, whoever asked for it. */
  predicate OfTerminal(b: Slot, p: int) { b.Used? && b.hint == p + 1 }

  /** No task of terminal p is on q. */
  ghost predicate Clear(s: Sys, p: int, q: int)
    requires 0 <= q < |s.sup|
  {
    forall t :: 0 <= t < |s.sup[q].slots| ==> !OfTerminal(s.sup[q].slots[t], p)
  }

  predicate StartedFor(b: Started, p: int, q: int) { b.cpu == q && b.hint == p + 1 }

  ghost predicate NoneFor(bs: seq<Started>, p: int, q: int) {
    forall b :: b in bs ==> !StartedFor(b, p, q)
  }

  /** More steps from a state that keeps the invariant. */
  ghost function Onward(s: Sys, net: Net, steps: seq<Step>): (s': Sys)
    requires net.Ok() && Inv(s, net)
    ensures Inv(s', net)
    decreases |steps|
  {
    if steps == [] then s
    else
      var s1 := Onward(s, net, steps[..|steps| - 1]);
      InvStep(s1, net, steps[|steps| - 1]);
      Next(s1, net, steps[|steps| - 1])
  }

  /** Serving a terminal's cull clears the CPU of all its tasks. */
  lemma CullClears(s: Sys, net: Net, p: int, q: int, env: Env)
    requires net.Ok() && Inv(s, net) && net.Cpu(p) && net.Cpu(q)
    requires !s.halted[q] && s.hand[q].Handling? && CullBy(s.hand[q].k, p)
    ensures var s' := Next(s, net, Handle(q, env)); s'.Sized(net) && (p, q) in s'.culled && Clear(s', p, q)
  {
    assert s.sup[q].Tagged();
    assert Good(s.issued, net, s.hand[q].k, q);
    CullIsExact(s.sup[q], p + 1);
  }

  // What was started by a step.
  function NewStarts(s: Sys, s': Sys): seq<Started> {
    if |s.starts| <= |s'.starts| then s'.starts[|s.starts|..] else []
  }

  // The one slot that handling a request may fill.
  lemma FillsOne(l: Local, net: Net, r: int, k: Packet, env: Env, p: int)
    requires net.Ok() && net.Cpu(r) && |l.slots| == |l.tags| && k.Spawn?
    ensures var (l', e) := Sup.Spawned(l, r, net.scan, net.coresident[r], Req(k.id, k.via), k.len, k.target, k.hint, env);
            var fills := e.Reply? && e.status == 0;
            && |l'.slots| == |l.slots|
            && (fills ==> 0 <= e.task < |l.slots| && (OfTerminal(l'.slots[e.task], p) <==> k.hint == p + 1))
            && (forall t :: 0 <= t < |l.slots| && OfTerminal(l'.slots[t], p) ==>
                  OfTerminal(l.slots[t], p) || (fills && t == e.task))
  {
    ReplyNamesTheTask(l, r, net.scan, net.coresident[r], Req(k.id, k.via), k.len, k.target, k.hint, env);
  }

  lemma HandledSpawn(s: Sys, net: Net, r: int, env: Env, p: int, q: int)
    requires s.Sized(net) && net.Ok() && Tables(s) && net.Cpu(r) && net.Cpu(q)
    requires !s.halted[r] && s.hand[r].Handling? && s.hand[r].k.Spawn?
    ensures var s' := Next(s, net, Handle(r, env));
            && s'.starts == s.starts + NewStarts(s, s')
            && (Clear(s, p, q) && NoneFor(NewStarts(s, s'), p, q) ==> Clear(s', p, q))
            && (!NoneFor(NewStarts(s, s'), p, q) ==> !Clear(s', p, q))
  {
    assert s.sup[r].Tagged();
    var k := s.hand[r].k;
    var (l, e) := Outcome(s, net, r, env);
    FillsOne(s.sup[r], net, r, k, env, p);
    if e.Reply? && e.status == 0 {
      StartsOne(s, r, l, e.task, p, q);
    } else {
      assert Next(s, net, Handle(r, env)).starts == s.starts;
    }
  }

  lemma StartsOne(s: Sys, r: int, l: Local, task: int, p: int, q: int)
    requires 0 <= r < |s.hand| == |s.sup| && s.hand[r].Handling? && s.hand[r].k.Spawn? && 0 <= q < |s.sup|
    requires |l.slots| == |s.sup[r].slots| && 0 <= task < |l.slots|
    requires OfTerminal(l.slots[task], p) <==> s.hand[r].k.hint == p + 1
    requires forall t :: 0 <= t < |l.slots| && OfTerminal(l.slots[t], p) ==> OfTerminal(s.sup[r].slots[t], p) || t == task
    ensures var s' := Closed(s, r, l, task, 0);
            && s'.starts == s.starts + NewStarts(s, s')
            && (Clear(s, p, q) && NoneFor(NewStarts(s, s'), p, q) ==> Clear(s', p, q))
            && (!NoneFor(NewStarts(s, s'), p, q) ==> !Clear(s', p, q))
  {
    var b := Started(Req(s.hand[r].k.id, s.hand[r].k.via), r, task, s.hand[r].k.hint);
    assert NewStarts(s, Closed(s, r, l, task, 0)) == [b];
    assert b in [b];
  }

  /** A step brings a task of p's to q exactly when the log gains such a start. */
  lemma ClearStep(s: Sys, net: Net, st: Step, p: int, q: int)
    requires net.Ok() && Inv(s, net) && net.Cpu(q)
    ensures var s' := Next(s, net, st);
            && s'.Sized(net) && s'.starts == s.starts + NewStarts(s, s')
            && (Clear(s, p, q) && NoneFor(NewStarts(s, s'), p, q) ==> Clear(s', p, q))
            && (!NoneFor(NewStarts(s, s'), p, q) ==> !Clear(s', p, q))
  {
    if Enabled(s, net, st) {
      assert s.sup[st.p].Tagged();
      if st.Handle? && s.hand[st.p].k.Spawn? {
        HandledSpawn(s, net, st.p, st.env, p, q);
      } else {
        NothingStarted(s, net, st, p, q);
      }
    }
  }

  lemma NothingStarted(s: Sys, net: Net, st: Step, p: int, q: int)
    requires s.Sized(net) && net.Ok() && Tables(s) && net.Cpu(q) && Enabled(s, net, st)
    requires !(st.Handle? && s.hand[st.p].k.Spawn?)
    ensures var s' := Next(s, net, st);
            s'.starts == s.starts && NewStarts(s, s') == [] && (Clear(s, p, q) ==> Clear(s', p, q))
  {
    assert s.sup[st.p].Tagged();
    NoneNew(s, net, st, q);
    assert Next(s, net, st).starts == s.starts;
  }

  /** q is clear of terminal p now and after each of the steps. */
  ghost predicate StaysClear(s: Sys, net: Net, steps: seq<Step>, p: int, q: int)
    requires net.Ok() && Inv(s, net) && net.Cpu(q)
    decreases |steps|
  {
    Clear(Onward(s, net, steps), p, q) && (steps != [] ==> StaysClear(s, net, steps[..|steps| - 1], p, q))
  }

  lemma NewStartsJoin(s: Sys, s1: Sys, s2: Sys)
    requires s1.starts == s.starts + NewStarts(s, s1) && s2.starts == s1.starts + NewStarts(s1, s2)
    ensures NewStarts(s, s2) == NewStarts(s, s1) + NewStarts(s1, s2) && s2.starts == s.starts + NewStarts(s, s2)
  {
    var a, b, c := s.starts, NewStarts(s, s1), NewStarts(s1, s2);
    assert s2.starts == (a + b) + c == a + (b + c);
    assert s2.starts[|a|..] == b + c;
  }

  /** From a state in which q is clear of terminal p, as it is once it has served p's cull: q stays
      clear at every later moment exactly when it starts no program with p's hint. */
  lemma {:induction false} ClearIff(s: Sys, net: Net, steps: seq<Step>, p: int, q: int)
    requires net.Ok() && Inv(s, net) && net.Cpu(q) && Clear(s, p, q)
    ensures Onward(s, net, steps).starts == s.starts + NewStarts(s, Onward(s, net, steps))
    ensures StaysClear(s, net, steps, p, q) <==> NoneFor(NewStarts(s, Onward(s, net, steps)), p, q)
    decreases |steps|
  {
    if steps == [] {
      assert NewStarts(s, s) == [];
    } else {
      var k := |steps| - 1;
      var s1 := Onward(s, net, steps[..k]);
      ClearIff(s, net, steps[..k], p, q);
      ClearStep(s1, net, steps[k], p, q);
      NewStartsJoin(s, s1, Next(s1, net, steps[k]));
      assert StaysClear(s, net, steps[..k], p, q) ==> Clear(s1, p, q);
    }
  }

  // ---------- when only the terminal's own supervisor is asked ----------

  // A request with p's hint, elsewhere than on p, was relayed by p.
  predicate LoyalPacket(k: Packet, p: int) { k.Spawn? && k.hint == p + 1 ==> k.via == p }

  ghost predicate LoyalAt(s: Sys, p: int, r: int)
    requires 0 <= r < |s.mail| == |s.hand| == |s.sup|
  {
    (forall i :: 0 <= i < |s.mail[r]| ==> LoyalPacket(s.mail[r][i], p))
    && (s.hand[r].Handling? ==> LoyalPacket(s.hand[r].k, p))
    && (forall t :: 0 <= t < |s.sup[r].slots| && OfTerminal(s.sup[r].slots[t], p) ==> s.sup[r].slots[t].req.via == p)
  }

  ghost predicate Loyal(s: Sys, net: Net, p: int)
    requires s.Sized(net)
  {
    forall r :: net.Cpu(r) && r != p ==> LoyalAt(s, p, r)
  }

  /** Programs with p's hint ask p's own supervisor. */
  predicate AsksAtHome(st: Step, p: int) {
    st.Ask? && st.k.Spawn? && st.k.hint == p + 1 ==> st.p == p
  }

  lemma LoyalStep(s: Sys, net: Net, st: Step, p: int)
    requires net.Ok() && Inv(s, net) && Loyal(s, net, p) && AsksAtHome(st, p) && 0 <= p
    ensures Next(s, net, st).Sized(net) && Loyal(Next(s, net, st), net, p)
  {
    if Enabled(s, net, st) {
      assert s.sup[st.p].Tagged();
      if st.Handle? && s.hand[st.p].k.Spawn? {
        forall r | net.Cpu(r) && r != p
          ensures LoyalAt(Next(s, net, st), p, r)
        {
          LoyalSpawn(s, net, st.p, st.env, p, r);
        }
      } else {
        forall r | net.Cpu(r) && r != p
          ensures LoyalAt(Next(s, net, st), p, r)
        {
          assert LoyalAt(s, p, r);
          LoyalElse(s, net, st, p, r);
        }
      }
    }
  }

  // What holds of each task of terminal p on r still does when no task on r is new.
  predicate Older(l: Local, l': Local) {
    |l'.slots| == |l.slots|
    && forall t :: 0 <= t < |l.slots| && l'.slots[t].Used? ==>
         l.slots[t].Used? && l'.slots[t].req == l.slots[t].req && l'.slots[t].hint == l.slots[t].hint
  }

  lemma NoneNew(s: Sys, net: Net, st: Step, r: int)
    requires s.Sized(net) && net.Ok() && Tables(s) && Enabled(s, net, st) && net.Cpu(r)
    requires !(st.Handle? && s.hand[st.p].k.Spawn?)
    ensures Older(s.sup[r], Next(s, net, st).sup[r])
  {
    assert s.sup[st.p].Tagged();
  }

  // The other steps put nothing of p's in the hand or the mailbox of another CPU.
  lemma LoyalElse(s: Sys, net: Net, st: Step, p: int, r: int)
    requires s.Sized(net) && net.Ok() && Tables(s) && Enabled(s, net, st) && AsksAtHome(st, p)
    requires !(st.Handle? && s.hand[st.p].k.Spawn?) && net.Cpu(r) && r != p && LoyalAt(s, p, r)
    ensures LoyalAt(Next(s, net, st), p, r)
  {
    assert s.sup[st.p].Tagged();
    NoneNew(s, net, st, r);
  }

  // A request from p's hand may go anywhere; one with p's hint in another hand stays there.
  lemma LoyalSpawn(s: Sys, net: Net, c: int, env: Env, p: int, r: int)
    requires net.Ok() && Inv(s, net) && Loyal(s, net, p) && net.Cpu(r) && r != p && 0 <= p
    requires net.Cpu(c) && !s.halted[c] && s.hand[c].Handling? && s.hand[c].k.Spawn?
    ensures Next(s, net, Handle(c, env)).Sized(net) && LoyalAt(Next(s, net, Handle(c, env)), p, r)
  {
    assert s.sup[c].Tagged() && LoyalAt(s, p, r);
    assert c != p ==> LoyalAt(s, p, c);
    var k := s.hand[c].k;
    var (l, e) := Outcome(s, net, c, env);
    assert Good(s.issued, net, k, c);
    HeldLoyally(s.sup[c], net, c, k, env, p);
    if e.Relay? && net.Cpu(e.peer) {
      LoyalPassed(s, c, l, e, p, r);
    } else if e.Relay? {
      LoyalPut(s, c, l, -1, -1, p, r);
    } else {
      LoyalPut(s, c, l, e.task, e.status, p, r);
    }
  }

  // What handling a request that is loyal to p leaves.
  lemma HeldLoyally(l: Local, net: Net, c: int, k: Packet, env: Env, p: int)
    requires net.Ok() && net.Cpu(c) && |l.slots| == |l.tags| && k.Spawn? && (k.via != -1 ==> k.target == LOCAL)
    requires c != p ==> LoyalPacket(k, p)
    requires 0 <= p
    ensures var (l', e) := Sup.Spawned(l, c, net.scan, net.coresident[c], Req(k.id, k.via), k.len, k.target, k.hint, env);
            && |l'.slots| == |l.slots|
            && (e.Relay? ==> e.hint == k.hint && (k.hint == p + 1 ==> c == p))
            && (c != p ==> forall t :: 0 <= t < |l.slots| && OfTerminal(l'.slots[t], p) ==>
                  l'.slots[t] == l.slots[t] || l'.slots[t].req.via == p)
  {
    ReplyNamesTheTask(l, c, net.scan, net.coresident[c], Req(k.id, k.via), k.len, k.target, k.hint, env);
  }

  lemma LoyalPassed(s: Sys, c: int, l: Local, e: Effect, p: int, r: int)
    requires 0 <= c < |s.hand| == |s.mail| == |s.sup| && s.hand[c].Handling? && s.hand[c].k.Spawn?
    requires e.Relay? && 0 <= e.peer < |s.mail| && 0 <= r < |s.mail| && r != p && LoyalAt(s, p, r)
    requires |l.slots| == |s.sup[c].slots| && (e.hint == p + 1 ==> c == p)
    requires c != p ==> forall t :: 0 <= t < |l.slots| && OfTerminal(l.slots[t], p) ==>
      l.slots[t] == s.sup[c].slots[t] || l.slots[t].req.via == p
    ensures LoyalAt(Passed(s, c, l, e), p, r)
  {
  }

  lemma LoyalPut(s: Sys, c: int, l: Local, task: int, status: int, p: int, r: int)
    requires 0 <= c < |s.hand| == |s.mail| == |s.sup| && s.hand[c].Handling? && s.hand[c].k.Spawn?
    requires 0 <= r < |s.mail| && r != p && LoyalAt(s, p, r) && |l.slots| == |s.sup[c].slots|
    requires c != p ==> forall t :: 0 <= t < |l.slots| && OfTerminal(l.slots[t], p) ==>
      l.slots[t] == s.sup[c].slots[t] || l.slots[t].req.via == p
    ensures LoyalAt(Closed(s, c, l, task, status), p, r)
  {
  }

  lemma {:induction false} LoyalRun(s: Sys, net: Net, steps: seq<Step>, p: int)
    requires net.Ok() && Booted(s, net) && Loyal(s, net, p) && 0 <= p && forall st :: st in steps ==> AsksAtHome(st, p)
    ensures Loyal(Ran(s, net, steps), net, p)
    decreases |steps|
  {
    if steps != [] {
      var k := |steps| - 1;
      LoyalRun(s, net, steps[..k], p);
      LoyalStep(Ran(s, net, steps[..k]), net, steps[k], p);
    }
  }

  /** In every run in which programs with terminal p's hint ask p's own supervisor only: once
      another CPU has served p's cull, no task with p's hint at all is there, and none will come. */
  lemma NoneLeft(s: Sys, net: Net, steps: seq<Step>, p: int, q: int)
    requires net.Ok() && Booted(s, net) && Loyal(s, net, p) && forall st :: st in steps ==> AsksAtHome(st, p)
    requires net.Cpu(p) && net.Cpu(q) && p != q && (p, q) in Ran(s, net, steps).culled
    ensures Clear(Ran(s, net, steps), p, q)
  {
    LoyalRun(s, net, steps, p);
    assert LoyalAt(Ran(s, net, steps), p, q);
    forall t | 0 <= t < |Ran(s, net, steps).sup[q].slots|
      ensures !OfTerminal(Ran(s, net, steps).sup[q].slots[t], p)
    {
      NoOrphans(s, net, steps, p, q, t);
    }
  }

  // ---------- what a closing terminal tells ----------

  /** Terminal p's cull is waiting at q, being served there, or has been served. */
  ghost predicate CullCame(s: Sys, p: int, q: int)
    requires 0 <= q < |s.mail| == |s.hand|
  {
    (p, q) in s.culled || Cull(p + 1, p) in s.mail[q] || s.hand[q] == Handling(Cull(p + 1, p))
  }

  // p has told every other CPU below n.
  ghost predicate ToldBelow(s: Sys, net: Net, p: int, n: int)
    requires s.Sized(net)
  {
    forall q :: net.Cpu(q) && q != p && q < n ==> CullCame(s, p, q)
  }

  ghost predicate Telling(s: Sys, net: Net, p: int)
    requires s.Sized(net) && net.Cpu(p)
  {
    && (s.hand[p].Closing? ==> ToldBelow(s, net, p, s.hand[p].next))
    && (s.halted[p] ==> ToldBelow(s, net, p, net.scan))
  }

  // p finds every other supervisor in the directory.
  predicate FindsAll(st: Step, p: int) {
    st.Tell? && st.p == p ==> st.found
  }

  lemma CullStays(s: Sys, net: Net, st: Step, p: int, q: int)
    requires s.Sized(net) && net.Ok() && Tables(s) && net.Cpu(q) && 0 <= p && CullCame(s, p, q)
    ensures CullCame(Next(s, net, st), p, q)
  {
    if Enabled(s, net, st) {
      assert s.sup[st.p].Tagged();
      if st.Take? && st.p == q && Cull(p + 1, p) in s.mail[q] {
        assert s.mail[q] == [s.mail[q][0]] + s.mail[q][1..];
      }
    }
  }

  lemma TellingStep(s: Sys, net: Net, st: Step, p: int)
    requires s.Sized(net) && net.Ok() && Tables(s) && net.Cpu(p) && net.coresident[p]
    requires Telling(s, net, p) && FindsAll(st, p)
    ensures Telling(Next(s, net, st), net, p)
  {
    var s' := Next(s, net, st);
    forall q | net.Cpu(q) && CullCame(s, p, q)
      ensures CullCame(s', p, q)
    {
      CullStays(s, net, st, p, q);
    }
    if Enabled(s, net, st) && st.p == p {
      assert s.sup[p].Tagged();
      if st.Tell? { TellsNext(s, net, p); }
    }
  }

  // One more peer is told, or there is none left.
  lemma TellsNext(s: Sys, net: Net, p: int)
    requires s.Sized(net) && net.Ok() && Tables(s) && net.Cpu(p) && !s.halted[p] && s.hand[p].Closing?
    requires s.sup[p].Tagged()
    ensures var s', q := Told(s, net, p, true), s.hand[p].next;
            if q >= net.scan then s'.halted[p] && s'.hand[p].Idle?
            else s'.hand[p] == Closing(q + 1) && !s'.halted[p] && (net.Cpu(q) && q != p ==> CullCame(s', p, q))
  {
  }

  /** In every run: a terminal that halted, having found all supervisors in the directory, has sent
      its cull to every other CPU; none is lost on the way. */
  lemma {:induction false} EveryoneTold(s: Sys, net: Net, steps: seq<Step>, p: int)
    requires net.Ok() && Booted(s, net) && net.Cpu(p) && net.coresident[p] && forall st :: st in steps ==> FindsAll(st, p)
    ensures Telling(Ran(s, net, steps), net, p)
    decreases |steps|
  {
    if steps != [] {
      var k := |steps| - 1;
      EveryoneTold(s, net, steps[..k], p);
      TellingStep(Ran(s, net, steps[..k]), net, steps[k], p);
    }
  }

  // ---------- after a halt ----------

  /** No task is running here. */
  ghost predicate Dead(l: Local) {
    forall t :: 0 <= t < |l.slots| && l.slots[t].Used? ==> l.slots[t].exited
  }

  ghost predicate HaltedDead(s: Sys)
    requires |s.sup| == |s.halted|
  {
    forall p :: 0 <= p < |s.sup| && s.halted[p] ==> Dead(s.sup[p])
  }

  // The step that halts a CPU kills its tasks ...
  lemma HaltKills(s: Sys, net: Net, p: int, found: bool)
    requires s.Sized(net) && net.Cpu(p) && s.hand[p].Closing? && s.sup[p].Tagged()
    ensures var s' := Told(s, net, p, found);
            (s'.halted[p] && !s.halted[p] ==> Dead(s'.sup[p])) && (s.halted[p] && Dead(s.sup[p]) ==> Dead(s'.sup[p]))
  {
    NoneRuns(s.sup[p]);
  }

  // ... and no step starts one on a CPU that halted.
  lemma DeadStep(s: Sys, net: Net, st: Step)
    requires s.Sized(net) && net.Ok() && Tables(s) && HaltedDead(s)
    ensures HaltedDead(Next(s, net, st))
  {
    if Enabled(s, net, st) {
      assert s.sup[st.p].Tagged();
      if st.Tell? { HaltKills(s, net, st.p, st.found); }
    }
  }

  /** In every run: on a CPU that halted no program is running any more. */
  lemma {:induction false} NoneOutlivesHalt(s: Sys, net: Net, steps: seq<Step>)
    requires net.Ok() && Booted(s, net)
    ensures HaltedDead(Ran(s, net, steps))
    decreases |steps|
  {
    if steps != [] {
      var k := |steps| - 1;
      NoneOutlivesHalt(s, net, steps[..k]);
      DeadStep(Ran(s, net, steps[..k]), net, steps[k]);
    }
  }

  // ---------- a stray ----------

  /** One terminal and one computing CPU, with room for one task each. */
  const TWO := Net([true, false], 2)
  const FREE_TABLE := Local([Empty], [0], 0)
  const QUIET := Sys([FREE_TABLE, FREE_TABLE], [[], []], [Idle, Idle], [false, false], map[], [], [], [], {})
  const ANSWERS := Env({0, 1}, {0}, true, true, 0, 0, Term(1, 1, 1))
  const FAR_CULL := Cull(1, 0)
  const LATE := Spawn(7, 9, 1, LOCAL, 1, -1)

  // A run and one more step.
  lemma RanMore(s: Sys, net: Net, steps: seq<Step>, st: Step, s1: Sys, s2: Sys)
    requires net.Ok() && Booted(s, net) && Ran(s, net, steps) == s1
    requires s1.Sized(net) && Tables(s1) && Next(s1, net, st) == s2
    ensures Ran(s, net, steps + [st]) == s2
  {
    assert (steps + [st])[..|steps|] == steps;
  }

  // The states of the run: the mailboxes, the hands, and whether the late request was issued and
  // the cull served.
  function At(mail0: seq<Packet>, mail1: seq<Packet>, hand0: Hand, hand1: Hand, asked: bool, served: bool): Sys {
    QUIET.(mail := [mail0, mail1], hand := [hand0, hand1],
           issued := if asked then map[7 := LATE] else map[], culled := if served then {(0, 1)} else {})
  }

  lemma ShutsDown()
    ensures TWO.Ok() && Booted(QUIET, TWO) && QUIET == At([], [], Idle, Idle, false, false)
    ensures Next(QUIET, TWO, Ask(0, Packet.Shutdown)) == At([Packet.Shutdown], [], Idle, Idle, false, false)
  {
    assert [] + [Packet.Shutdown] == [Packet.Shutdown];
  }

  lemma Closes()
    ensures var s := At([Packet.Shutdown], [], Idle, Idle, false, false);
            s.Sized(TWO) && TWO.Ok() && Tables(s)
            && Next(s, TWO, Take(0)) == At([], [], Handling(Packet.Shutdown), Idle, false, false)
    ensures var s := At([], [], Handling(Packet.Shutdown), Idle, false, false);
            s.Sized(TWO) && Tables(s) && Next(s, TWO, Handle(0, ANSWERS)) == At([], [], Closing(0), Idle, false, false)
  {
    assert [Packet.Shutdown][1..] == [];
  }

  lemma TellsPeer()
    ensures var s := At([], [], Closing(0), Idle, false, false);
            s.Sized(TWO) && TWO.Ok() && Tables(s) && Next(s, TWO, Tell(0, true)) == At([], [], Closing(1), Idle, false, false)
    ensures var s := At([], [], Closing(1), Idle, false, false);
            s.Sized(TWO) && Tables(s) && Next(s, TWO, Tell(0, true)) == At([], [FAR_CULL], Closing(2), Idle, false, false)
  {
    assert [] + [FAR_CULL] == [FAR_CULL];
  }

  lemma AsksLate()
    ensures var s := At([], [FAR_CULL], Closing(2), Idle, false, false);
            s.Sized(TWO) && TWO.Ok() && Tables(s)
            && Next(s, TWO, Ask(1, LATE)) == At([], [FAR_CULL, LATE], Closing(2), Idle, true, false)
  {
    assert [FAR_CULL] + [LATE] == [FAR_CULL, LATE];
  }

  lemma ServesCull()
    ensures var s := At([], [FAR_CULL, LATE], Closing(2), Idle, true, false);
            s.Sized(TWO) && TWO.Ok() && Tables(s)
            && Next(s, TWO, Take(1)) == At([], [LATE], Closing(2), Handling(FAR_CULL), true, false)
    ensures var s := At([], [LATE], Closing(2), Handling(FAR_CULL), true, false);
            s.Sized(TWO) && Tables(s) && Next(s, TWO, Handle(1, ANSWERS)) == At([], [LATE], Closing(2), Idle, true, true)
  {
    assert [FAR_CULL, LATE][1..] == [LATE];
  }

  lemma TakesLate()
    ensures var s := At([], [LATE], Closing(2), Idle, true, true);
            s.Sized(TWO) && TWO.Ok() && Tables(s)
            && Next(s, TWO, Take(1)) == At([], [], Closing(2), Handling(LATE), true, true)
  {
    assert [LATE][1..] == [];
  }

  lemma StartsLate()
    ensures var s := At([], [], Closing(2), Handling(LATE), true, true);
            s.Sized(TWO) && TWO.Ok() && Tables(s)
            && var s' := Next(s, TWO, Handle(1, ANSWERS));
            s'.Sized(TWO) && s'.culled == {(0, 1)} && |s'.sup[1].slots| == 1 && OfTerminal(s'.sup[1].slots[0], 0)
  {
    var s := At([], [], Closing(2), Handling(LATE), true, true);
    assert s.sup[1] == FREE_TABLE && FREE_TABLE.Reap() == FREE_TABLE;
  }

  /** A program on the other CPU asks that CPU's supervisor, behind the cull: it is started with
      the closed terminal's hint, and is there after the cull. */
  lemma StrayRun() returns (steps: seq<Step>)
    ensures TWO.Ok() && Booted(QUIET, TWO)
    ensures var s := Ran(QUIET, TWO, steps);
            s.Sized(TWO) && (0, 1) in s.culled && |s.sup[1].slots| == 1 && OfTerminal(s.sup[1].slots[0], 0)
  {
    ShutsDown();
    Closes();
    TellsPeer();
    AsksLate();
    ServesCull();
    TakesLate();
    StartsLate();
    var a, b := At([Packet.Shutdown], [], Idle, Idle, false, false), At([], [], Handling(Packet.Shutdown), Idle, false, false);
    var c, d := At([], [], Closing(0), Idle, false, false), At([], [], Closing(1), Idle, false, false);
    var e, f := At([], [FAR_CULL], Closing(2), Idle, false, false), At([], [FAR_CULL, LATE], Closing(2), Idle, true, false);
    var h, i := At([], [LATE], Closing(2), Handling(FAR_CULL), true, false), At([], [LATE], Closing(2), Idle, true, true);
    var j := At([], [], Closing(2), Handling(LATE), true, true);
    steps := StepsTo([], Ask(0, Packet.Shutdown), QUIET, a);
    steps := StepsTo(steps, Take(0), a, b);
    steps := StepsTo(steps, Handle(0, ANSWERS), b, c);
    steps := StepsTo(steps, Tell(0, true), c, d);
    steps := StepsTo(steps, Tell(0, true), d, e);
    steps := StepsTo(steps, Ask(1, LATE), e, f);
    steps := StepsTo(steps, Take(1), f, h);
    steps := StepsTo(steps, Handle(1, ANSWERS), h, i);
    steps := StepsTo(steps, Take(1), i, j);
    steps := StepsTo(steps, Handle(1, ANSWERS), j, Next(j, TWO, Handle(1, ANSWERS)));
  }

  lemma StepsTo(steps: seq<Step>, st: Step, s1: Sys, s2: Sys) returns (more: seq<Step>)
    requires TWO.Ok() && Booted(QUIET, TWO) && Ran(QUIET, TWO, steps) == s1
    requires s1.Sized(TWO) && Tables(s1) && Next(s1, TWO, st) == s2
    ensures Ran(QUIET, TWO, more) == s2
  {
    RanMore(QUIET, TWO, steps, st, s1, s2);
    more := steps + [st];
  }
}
