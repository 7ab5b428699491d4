/** One CPU's supervisor: its task table with the terminal tags, the placement of a spawn
    request, and the culling of a terminal's tasks. */
module Supervisor {
  import opened RoundRobin

  // Target markers on the wire; processor ids are smaller.
  const LOCAL := 0xFF
  const ANY := 0xFE
  const REQ_MAX := 256
  const TABLE_FULL := -6

  /** Console, keyboard and grid services; 0 is the null reference. */
  datatype Term = Term(console: int, keyboard: int, grid: int)

  const NO_TERM := Term(0, 0, 0)

  /** Which request, and the CPU that relayed it here (-1 when it came directly). */
  datatype Req = Req(id: int, via: int)

  /** A task slot: the request that made the task, the terminal hint it carried, and the
      terminal services the task was started with. */
  datatype Slot = Empty | Used(req: Req, hint: int, term: Term, exited: bool)

  /** What the rest of the system answers while one request is handled: the supervisors and the
      window managers found in the directory, whether the relay's own lookup succeeds, whether
      the program may run on a terminal, the results of fetching the request and of loading the
      program, and the terminal services found. */
  datatype Env = Env(live: set<int>, terminals: set<int>, reachable: bool, localOk: bool,
                     fetch: int, loaded: int, found: Term)

  datatype Effect =
    | Reply(task: int, status: int)
    | Relay(peer: int, len: int, target: int, hint: int)

  datatype Local = Local(slots: seq<Slot>, tags: seq<int>, counter: int) {
    /** Each slot's tag is the hint of the task in it. */
    predicate Tagged() {
      |slots| == |tags|
      && forall t :: 0 <= t < |slots| ==> tags[t] == if slots[t].Used? then slots[t].hint else 0
    }

    function Reap(): (l: Local)
      requires |slots| == |tags|
      ensures |l.slots| == |l.tags| == |slots|
    {
      Local(seq(|slots|, t requires 0 <= t < |slots| => if Gone(t) then Empty else slots[t]),
            seq(|slots|, t requires 0 <= t < |slots| => if Gone(t) then 0 else tags[t]), counter)
    }

    predicate Gone(t: int)
      requires 0 <= t < |slots|
    {
      slots[t].Used? && slots[t].exited
    }

    predicate Marked(t: int, origin: int)
      requires 0 <= t < |slots| == |tags|
    {
      slots[t].Used? && tags[t] == origin
    }

    // The slots whose tasks are tagged with the origin.
    ghost function Killed(origin: int): set<int>
      requires |slots| == |tags|
    {
      set t | 0 <= t < |slots| && Marked(t, origin)
    }

    // The tasks tagged with the origin are killed.
    function Kill(origin: int): (l: Local)
      requires |slots| == |tags|
      ensures |l.slots| == |l.tags| == |slots|
    {
      this.(slots := seq(|slots|, t requires 0 <= t < |slots| =>
        if Marked(t, origin) then slots[t].(exited := true) else slots[t]))
    }

    function Cull(origin: int): (l: Local)
      requires |slots| == |tags|
      ensures |l.slots| == |l.tags| == |slots|
    {
      if origin > 0 && exists t :: 0 <= t < |slots| && Marked(t, origin) then Kill(origin).Reap() else this
    }

    function KillAll(): (l: Local)
      requires |slots| == |tags|
      ensures |l.slots| == |l.tags| == |slots|
    {
      this.(slots := seq(|slots|, t requires 0 <= t < |slots| =>
        if slots[t].Used? then slots[t].(exited := true) else Empty))
    }
  }

  /** The lowest empty slot at or after t, or the number of slots. */
  function FreeAfter(slots: seq<Slot>, t: nat): (f: nat)
    requires t <= |slots|
    ensures t <= f <= |slots|
    ensures f < |slots| ==> slots[f].Empty?
    ensures forall u :: t <= u < f ==> slots[u].Used?
    decreases |slots| - t
  {
    if t == |slots| || slots[t].Empty? then t else FreeAfter(slots, t + 1)
  }

  predicate BadLength(len: int) {
    len <= 0 || len > REQ_MAX
  }

  /** Where a request is to run, and the round-robin counter afterwards. */
  function Place(l: Local, self: int, n: int, coresident: bool, len: int, target: int, env: Env): (r: (int, int))
    requires n > 0
  {
    if target == LOCAL || target == self then (self, l.counter)
    else if target != ANY then (target, l.counter)
    else if coresident && !BadLength(len) && env.localOk then (self, l.counter)
    else Pick(env.live - env.terminals, n, l.counter, self)
  }

  // Starting a program in the first free slot.
  function Hosted(l: Local, req: Req, len: int, hint: int, env: Env): (r: (Local, Effect))
    requires |l.slots| == |l.tags|
    ensures |r.0.slots| == |r.0.tags| == |l.slots|
  {
    var t := FreeAfter(l.slots, 0);
    if BadLength(len) then (l, Reply(-1, -1))
    else if env.fetch != 0 then (l, Reply(-1, env.fetch))
    else if env.loaded < 0 then (l, Reply(env.loaded, env.loaded))
    else if t == |l.slots| then (l, Reply(TABLE_FULL, TABLE_FULL))
    else (Local(l.slots[t := Used(req, hint, if hint > 0 then env.found else NO_TERM, false)], l.tags[t := hint], l.counter),
          Reply(t, 0))
  }

  /** A spawn request: the new state, and the reply or the relay it ends in. */
  function Spawned(l: Local, self: int, n: int, coresident: bool, req: Req, len: int, target: int, hint: int, env: Env)
    : (r: (Local, Effect))
    requires n > 0 && |l.slots| == |l.tags|
    ensures |r.0.slots| == |r.0.tags| == |l.slots|
  {
    var l1 := l.Reap();
    var (cpu, counter) := Place(l1, self, n, coresident, len, target, env);
    var l2 := l1.(counter := counter);
    if cpu == self then Hosted(l2, req, len, hint, env)
    else (l2, if env.reachable then Relay(cpu, len, LOCAL, hint) else Reply(-1, -1))
  }

  // ---------- what the handlers guarantee ----------

  /** Every handler keeps the tags in step with the tasks. */
  lemma TagsKept(l: Local, self: int, n: int, coresident: bool, req: Req, len: int, target: int, hint: int, env: Env)
    requires n > 0 && l.Tagged()
    ensures Spawned(l, self, n, coresident, req, len, target, hint, env).0.Tagged()
  {
    assert l.Reap().Tagged();
  }

  lemma CullTags(l: Local, origin: int)
    requires l.Tagged()
    ensures l.Cull(origin).Tagged() && l.KillAll().Tagged()
  {
    assert l.Kill(origin).Tagged();
  }

  /** Killing everything leaves no task running, and every other slot as it was. */
  lemma NoneRuns(l: Local)
    requires |l.slots| == |l.tags|
    ensures var k := l.KillAll();
            && forall t :: 0 <= t < |l.slots| ==>
                 k.slots[t] == if l.slots[t].Used? then Used(l.slots[t].req, l.slots[t].hint, l.slots[t].term, true) else Empty
  {
  }

  /** Culling ends exactly the tasks of that terminal (and clears exited ones on the way). */
  lemma CullIsExact(l: Local, origin: int)
    requires l.Tagged() && origin > 0
    ensures forall t :: 0 <= t < |l.slots| && l.slots[t].Used? && l.slots[t].hint == origin ==>
      l.Cull(origin).slots[t] == Empty
    ensures forall t :: 0 <= t < |l.slots| && l.slots[t].Used? && l.slots[t].hint != origin && !l.slots[t].exited ==>
      l.Cull(origin).slots[t] == l.slots[t]
    ensures forall t :: 0 <= t < |l.slots| && l.slots[t].Empty? ==> l.Cull(origin).slots[t] == Empty
  {
    assert forall t :: 0 <= t < |l.slots| && l.slots[t].Used? && l.slots[t].hint == origin ==> l.Marked(t, origin);
  }

  /** A relay leaves the CPU pinned to its peer, with the hint it came with; a request for any
      CPU is relayed only to a live CPU that is no terminal, one for this CPU never. */
  lemma RelayIsPinned(l: Local, self: int, n: int, coresident: bool, req: Req, len: int, target: int, hint: int, env: Env)
    requires n > 0 && |l.slots| == |l.tags| && Ids(env.live, n)
    ensures var e := Spawned(l, self, n, coresident, req, len, target, hint, env).1;
      e.Relay? ==>
        e.peer != self && e.target == LOCAL && e.hint == hint && e.len == len
        && target != LOCAL && target != self
        && (if target == ANY then e.peer in env.live - env.terminals else e.peer == target)
  {
    if target == ANY {
      var eligible := env.live - env.terminals;
      assert Ids(eligible, n);
      PickIsNearest(eligible, n, l.counter, self, 0);
    }
  }

  /** A reply with status 0 names the one task that was started: it was put in a free slot with
      the request's hint and that terminal's services; any other reply started nothing. */
  lemma ReplyNamesTheTask(l: Local, self: int, n: int, coresident: bool, req: Req, len: int, target: int, hint: int,
                          env: Env)
    requires n > 0 && |l.slots| == |l.tags|
    ensures var (l', e) := Spawned(l, self, n, coresident, req, len, target, hint, env);
      if e.Reply? && e.status == 0 then
        0 <= e.task < |l.slots| && l.Reap().slots[e.task].Empty?
        && l'.slots == l.Reap().slots[e.task := Used(req, hint, if hint > 0 then env.found else NO_TERM, false)]
        && 0 < len <= REQ_MAX
      else l'.slots == l.Reap().slots
  {
  }

  // ---------- the supervisor itself ----------

  class Supervisor {
    const self: int
    const n: int
    const coresident: bool
    const slots: array<Slot>
    const tags: array<int>
    var counter: int
    // Services the next child gets instead of this supervisor's own.
    var override: Term

    ghost predicate Valid()
      reads this
    {
      n > 0 && 0 <= self < ANY && slots.Length == tags.Length && slots as object != tags as object
      && override == NO_TERM
    }

    function Now(): Local
      reads this, slots, tags
    {
      Local(slots[..], tags[..], counter)
    }

    constructor (self: int, n: int, coresident: bool, size: nat)
      requires n > 0 && 0 <= self < ANY
      ensures Valid() && Now() == Local(seq(size, _ => Empty), seq(size, _ => 0), self + 1)
      ensures Now().Tagged() && this.self == self && this.n == n && this.coresident == coresident
    {
      this.self, this.n, this.coresident := self, n, coresident;
      slots := new Slot[size](_ => Empty);
      tags := new int[size](_ => 0);
      counter, override := self + 1, NO_TERM;
      new;
      assert slots[..] == seq(size, _ => Empty);
      assert tags[..] == seq(size, _ => 0);
    }

    method ReapExitedTasks()
      requires Valid()
      modifies slots, tags
      ensures Now() == old(Now()).Reap()
    {
      ghost var l := Now();
      var t := 0;
      while t < slots.Length
        invariant 0 <= t <= slots.Length
        invariant forall u :: 0 <= u < slots.Length ==>
          (slots[u], tags[u]) == if u < t && l.Gone(u) then (Empty, 0) else (l.slots[u], l.tags[u])
      {
        if slots[t].Used? && slots[t].exited {
          slots[t] := Empty;
          tags[t] := 0;
        }
        t := t + 1;
      }
      assert slots[..] == l.Reap().slots;
      assert tags[..] == l.Reap().tags;
    }

    method CullTasksForTerminal(origin: int) returns (k: int)
      requires Valid()
      modifies slots, tags
      ensures Now() == old(Now()).Cull(origin)
      ensures k == if origin <= 0 then 0 else |old(Now()).Killed(origin)|
    {
      if origin <= 0 { return 0; }
      ghost var l := Now();
      k := KillForTerminal(origin);
      if k != 0 {
        ghost var t :| t in l.Killed(origin);
        assert l.Marked(t, origin);
        ReapExitedTasks();
      } else {
        assert forall t :: 0 <= t < |l.slots| && l.Marked(t, origin) ==> t in l.Killed(origin);
        assert l.Kill(origin).slots == l.slots;
      }
    }

    method KillForTerminal(origin: int) returns (k: int)
      requires Valid()
      modifies slots
      ensures Now() == old(Now()).Kill(origin) && k == |old(Now()).Killed(origin)|
    {
      k := 0;
      ghost var l, killed: set<int> := Now(), {};
      var t := 0;
      while t < slots.Length
        invariant 0 <= t <= slots.Length && k == |killed|
        invariant forall u :: u in killed <==> 0 <= u < t && l.Marked(u, origin)
        invariant forall u :: 0 <= u < slots.Length ==>
          slots[u] == if u < t && l.Marked(u, origin) then l.slots[u].(exited := true) else l.slots[u]
      {
        assert tags[t] == l.tags[t];
        if slots[t].Used? && tags[t] == origin {
          assert l.Marked(t, origin);
          slots[t] := slots[t].(exited := true);
          killed := killed + {t};
          k := k + 1;
        }
        t := t + 1;
      }
      assert killed == l.Killed(origin);
      assert slots[..] == l.Kill(origin).slots;
    }

    // A supervisor that halts kills everything first.
    method KillAllTasks()
      requires Valid()
      modifies slots
      ensures Now() == old(Now()).KillAll()
    {
      ghost var l := Now();
      var t := 0;
      while t < slots.Length
        invariant 0 <= t <= slots.Length
        invariant forall u :: 0 <= u < slots.Length ==>
          slots[u] == if u < t && l.slots[u].Used? then l.slots[u].(exited := true) else l.slots[u]
      {
        if slots[t].Used? { slots[t] := slots[t].(exited := true); }
        t := t + 1;
      }
      assert slots[..] == l.KillAll().slots;
    }

    method PickNextCpu(env: Env) returns (cpu: int)
      requires Valid()
      modifies this`counter
      ensures (cpu, counter) == Pick(env.live - env.terminals, n, old(counter), self)
    {
      var i := 0;
      while i < n
        invariant 0 <= i <= n && counter == old(counter)
        invariant PickFrom(env.live - env.terminals, n, counter, self, i) == Pick(env.live - env.terminals, n, counter, self)
      {
        var candidate := (counter + i) % n;
        if candidate in env.live {
          if candidate !in env.terminals {
            counter := candidate + 1;
            return candidate;
          }
        }
        i := i + 1;
      }
      counter := self + 1;
      return self;
    }

    // Store the services that were found.
    method PopulateChildTermSlots(found: Term)
      modifies this`override
      ensures old(override) == NO_TERM ==> override == found
    {
      if found.console != 0 { override := override.(console := found.console); }
      if found.keyboard != 0 { override := override.(keyboard := found.keyboard); }
      if found.grid != 0 { override := override.(grid := found.grid); }
    }

    // Load a program and register its task; the task takes the overriding services.
    method Start(req: Req, hint: int, loaded: int) returns (t: int)
      requires slots.Length == tags.Length
      modifies slots
      ensures loaded < 0 ==> t == loaded && slots[..] == old(slots[..])
      ensures loaded >= 0 ==>
        var f := FreeAfter(old(slots[..]), 0);
        if f == slots.Length then t == TABLE_FULL && slots[..] == old(slots[..])
        else t == f && slots[..] == old(slots[..])[f := Used(req, hint, override, false)]
    {
      if loaded < 0 { return loaded; }
      t := 0;
      while t < slots.Length && slots[t].Used?
        invariant 0 <= t <= slots.Length && FreeAfter(slots[..], t) == FreeAfter(slots[..], 0)
      {
        t := t + 1;
      }
      if t == slots.Length { return TABLE_FULL; }
      slots[t] := Used(req, hint, override, false);
    }

    // Spawn here, with the requester's terminal; the overrides never outlive the spawn.
    method SpawnHere(req: Req, len: int, hint: int, env: Env) returns (e: Effect)
      requires Valid()
      modifies this`override, slots, tags
      ensures Valid() && (Now(), e) == Hosted(old(Now()), req, len, hint, env)
    {
      if BadLength(len) { return Reply(-1, -1); }
      if env.fetch != 0 { return Reply(-1, env.fetch); }
      if hint > 0 { PopulateChildTermSlots(env.found); }
      var t := Start(req, hint, env.loaded);
      if 0 <= t < tags.Length { tags[t] := hint; }
      if hint > 0 { override := NO_TERM; }
      return Reply(t, if t < 0 then t else 0);
    }

    method RelayTo(cpu: int, len: int, hint: int, env: Env) returns (e: Effect)
      ensures e == if env.reachable then Relay(cpu, len, LOCAL, hint) else Reply(-1, -1)
    {
      if !env.reachable { return Reply(-1, -1); }
      return Relay(cpu, len, LOCAL, hint);
    }

    method HandleSpawnRequest(req: Req, len: int, target: int, hint: int, env: Env) returns (e: Effect)
      requires Valid()
      modifies this, slots, tags
      ensures Valid() && (Now(), e) == Spawned(old(Now()), self, n, coresident, req, len, target, hint, env)
    {
      ReapExitedTasks();
      if target != LOCAL && target != ANY && target != self {
        e := RelayTo(target, len, hint, env);
        return;
      }
      if target == ANY {
        var picked := self;
        if !(coresident && !BadLength(len) && env.localOk) {
          picked := PickNextCpu(env);
        }
        if picked != self {
          e := RelayTo(picked, len, hint, env);
          return;
        }
      }
      e := SpawnHere(req, len, hint, env);
    }
  }
}
