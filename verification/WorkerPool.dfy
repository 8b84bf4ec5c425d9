/** The pool of worker threads, one per database path: retain counts, eviction, the idle sweep, and requests that settle
    once. The segments between two awaits and the events of the workers are the steps; any order of them is a run. */
module WorkerPool {
  import opened Options

  type Path = string

  // One connection ---------------------------------------------------------------------------------------------------

  /** A worker's requests: those without a reply yet, and how each of the others was settled. */
  datatype Connection = Connection(
    path: Path, nextRequestId: nat, pending: set<nat>, settled: map<nat, bool>, isDead: bool, lastActivityAt: int)
  {
    /** Every request made so far is pending or settled, not both; a dead worker has none pending. */
    ghost predicate Valid() {
      && nextRequestId >= 1 && pending !! settled.Keys
      && (forall id :: id in pending || id in settled <==> 1 <= id < nextRequestId)
      && (isDead ==> pending == {})
    }

    function Send(now: int): Connection {
      this.(pending := pending + {nextRequestId}, nextRequestId := nextRequestId + 1, lastActivityAt := now)
    }

    function Reply(id: nat, ok: bool, now: int): Connection {
      if id in pending then this.(pending := pending - {id}, settled := settled[id := ok], lastActivityAt := now)
        else this
    }

    function Die(now: int): Connection {
      if isDead then this
      else
        this.(isDead := true, pending := {}, settled := settled + Failed(pending),
              lastActivityAt := if pending == {} then lastActivityAt else now)
    }

    /** A connection that is closed asks its worker to go. */
    function Close(now: int): Connection { if isDead then this else Send(now) }

    /** What settled stays as it was: each request settles once. */
    ghost predicate Follows(before: Connection) {
      && path == before.path && nextRequestId >= before.nextRequestId && (before.isDead ==> isDead)
      && forall id :: id in before.settled ==> id in settled && settled[id] == before.settled[id]
    }
  }

  function Failed(ids: set<nat>): map<nat, bool> { map id | id in ids :: false }

  function Fresh(path: Path, now: int): Connection { Connection(path, 1, {}, map[], false, now) }

  /** Whatever happens to a connection, each of its requests is settled once: by its reply, or else by the death. */
  lemma RequestsSettleOnce(c: Connection, id: nat, ok: bool, now: int)
    requires c.Valid()
    ensures !c.isDead ==> c.Send(now).Valid() && c.Send(now).Follows(c) && c.nextRequestId in c.Send(now).pending
    ensures c.Reply(id, ok, now).Valid() && c.Reply(id, ok, now).Follows(c)
    ensures id in c.pending ==> id in c.Reply(id, ok, now).settled && c.Reply(id, ok, now).settled[id] == ok
    ensures c.Die(now).Valid() && c.Die(now).Follows(c) && c.Die(now).isDead
    ensures forall r :: r in c.pending ==> r in c.Die(now).settled && !c.Die(now).settled[r]
    ensures c.Close(now).Valid() && c.Close(now).Follows(c)
    ensures !c.isDead ==> c.Send(now).pending == c.pending + {c.nextRequestId} && c.Send(now).lastActivityAt == now
    ensures id in c.pending ==>
      c.Reply(id, ok, now).pending == c.pending - {id} && c.Reply(id, ok, now).lastActivityAt == now
    ensures id !in c.pending ==> c.Reply(id, ok, now) == c
    ensures !c.isDead ==> c.nextRequestId in c.Close(now).pending && c.Close(now).lastActivityAt == now
    ensures c.isDead ==> c.Close(now) == c && c.Die(now) == c
  {
  }

  class AgentWorkerConnection {
    const path: Path
    var nextRequestId: nat
    var pending: set<nat>
    var settled: map<nat, bool>
    var isDead: bool
    var lastActivityAt: int

    ghost function Abs(): Connection
      reads this
    {
      Connection(path, nextRequestId, pending, settled, isDead, lastActivityAt)
    }

    constructor (path: Path, now: int)
      ensures Abs() == Fresh(path, now) && Abs().Valid()
    {
      this.path := path;
      nextRequestId, pending, settled, isDead, lastActivityAt := 1, {}, map[], false, now;
    }

    /** The id of the request, unless the worker is dead: then it is refused at once. */
    method Send(now: int) returns (id: Option<nat>)
      requires Abs().Valid()
      modifies this
      ensures Abs().Valid() && Abs() == old(if isDead then Abs() else Abs().Send(now))
      ensures id == if isDead then None else Some(old(nextRequestId))
    {
      if isDead {
        return None;
      }
      lastActivityAt := now;
      id := Some(nextRequestId);
      pending := pending + {nextRequestId};
      nextRequestId := nextRequestId + 1;
    }

    method OnMessage(id: nat, ok: bool, now: int)
      requires Abs().Valid()
      modifies this
      ensures Abs().Valid() && Abs() == old(Abs().Reply(id, ok, now))
    {
      if id !in pending {
        return;
      }
      pending := pending - {id};
      lastActivityAt := now;
      settled := settled[id := ok];
    }

    method Die(now: int)
      requires Abs().Valid()
      modifies this
      ensures Abs().Valid() && Abs() == old(Abs().Die(now))
    {
      if isDead {
        return;
      }
      isDead := true;
      var left := pending;
      assert old(pending) - left == {};
      FailNone(settled);
      hide Failed;
      while left != {}
        invariant left <= pending == old(pending) && isDead && nextRequestId == old(nextRequestId)
        invariant settled == old(settled) + Failed(old(pending) - left)
        invariant lastActivityAt == if left == pending then old(lastActivityAt) else now
        decreases |left|
      {
        var id :| id in left;
        FailOne(old(settled), old(pending) - left, id);
        assert old(pending) - left + {id} == old(pending) - (left - {id});
        lastActivityAt := now;
        settled := settled[id := false];
        left := left - {id};
      }
      assert old(pending) - {} == old(pending);
      pending := {};
    }
  }

  lemma FailNone(settled: map<nat, bool>)
    ensures settled + Failed({}) == settled
  {
  }

  lemma FailOne(settled: map<nat, bool>, failed: set<nat>, id: nat)
    ensures (settled + Failed(failed))[id := false] == settled + Failed(failed + {id})
  {
  }

  // The pool ---------------------------------------------------------------------------------------------------------

  /** A call under way, named by what it waits for. A refused request is none. */
  datatype Op =
    | Ensured(path: Path, conn: nat)
    | AwaitingInit(path: Path, conn: nat, request: nat)
    | AwaitingReply(path: Path, conn: nat, reply: Option<nat>)
    | Finished

  /** idleTimeoutMs is absent if it is infinite. */
  datatype Config = Config(maxWorkers: nat, idleTimeoutMs: Option<int>)

  /** All connections ever made; those held, in the order they were made; the retain counts; the timer; the calls. */
  datatype State = State(conns: seq<Connection>, held: seq<nat>, activeOps: map<Path, nat>, sweeping: bool,
      ops: seq<Op>)

  function Initial(): State { State([], [], map[], false, []) }

  function Retained(s: State, path: Path): nat { if path in s.activeOps then s.activeOps[path] else 0 }

  ghost predicate Within(held: seq<nat>, n: nat) { forall i :: 0 <= i < |held| ==> held[i] < n }

  ghost predicate HoldsConns(s: State) { Within(s.held, |s.conns|) }

  function Find(s: State, held: seq<nat>, path: Path): Option<nat>
    requires Within(held, |s.conns|)
  {
    if held == [] then None
    else if s.conns[held[0]].path == path then Some(held[0])
    else Find(s, held[1..], path)
  }

  function Remove(held: seq<nat>, conn: nat): seq<nat> {
    if held == [] then [] else (if held[0] == conn then [] else [held[0]]) + Remove(held[1..], conn)
  }

  function AfterRetain(s: State, path: Path): State { s.(activeOps := s.activeOps[path := Retained(s, path) + 1]) }

  function AfterRelease(s: State, path: Path): State {
    if Retained(s, path) <= 1 then s.(activeOps := s.activeOps - {path})
    else s.(activeOps := s.activeOps[path := s.activeOps[path] - 1])
  }

  function AfterStopSweep(s: State): State { if s.held == [] then s.(sweeping := false) else s }

  /** The held connection that is not retained and was active the longest ago; the earliest made of those. */
  function Victim(s: State, n: nat): Option<nat>
    requires HoldsConns(s) && n <= |s.held|
  {
    if n == 0 then None
    else
      var earlier, h := Victim(s, n - 1), s.held[n - 1];
      if Retained(s, s.conns[h].path) > 0 then earlier
      else if earlier.None? ||
        (earlier.value < |s.conns| && s.conns[h].lastActivityAt < s.conns[earlier.value].lastActivityAt) then Some(h)
      else earlier
  }

  function Drop(s: State, conn: nat, now: int): State
    requires conn < |s.conns|
  {
    s.(held := Remove(s.held, conn), conns := s.conns[conn := s.conns[conn].Close(now)])
  }

  function Evict(c: Config, s: State, now: int): State
    requires HoldsConns(s)
  {
    if |s.held| < c.maxWorkers then s
    else
      match Victim(s, |s.held|)
      case None => s
      case Some(victim) => if victim < |s.conns| then Drop(s, victim, now) else s
  }

  /** A new worker, which is asked to initialise. */
  function Spawn(c: Config, s: State, path: Path, now: int): State {
    s.(conns := s.conns + [Fresh(path, now).Send(now)], held := s.held + [|s.conns|],
       sweeping := s.sweeping || c.idleTimeoutMs.Some?)
  }

  function Begin(c: Config, s: State, path: Path, now: int): State
    requires HoldsConns(s)
  {
    var s1 := AfterRetain(s, path);
    match Find(s1, s1.held, path)
    case Some(conn) => s1.(ops := s.ops + [Ensured(path, conn)])
    case None =>
      var s2 := Evict(c, s1, now);
      Spawn(c, s2, path, now).(ops := s.ops + [AwaitingInit(path, |s2.conns|, 1)])
  }

  function End(s: State, op: nat): State
    requires op < |s.ops| && !s.ops[op].Finished?
  {
    AfterRelease(s, s.ops[op].path).(ops := s.ops[op := Finished])
  }

  function InitSettles(s: State, op: nat): State
    requires op < |s.ops| && s.ops[op].AwaitingInit? && s.ops[op].conn < |s.conns|
    requires s.ops[op].request in s.conns[s.ops[op].conn].settled
  {
    if s.conns[s.ops[op].conn].settled[s.ops[op].request] then
      s.(ops := s.ops[op := Ensured(s.ops[op].path, s.ops[op].conn)])
    else End(s, op)
  }

  function Sends(s: State, op: nat, now: int): State
    requires op < |s.ops| && s.ops[op].Ensured? && s.ops[op].conn < |s.conns|
  {
    var Ensured(path, conn) := s.ops[op];
    if s.conns[conn].isDead then s.(ops := s.ops[op := AwaitingReply(path, conn, None)])
    else
      s.(conns := s.conns[conn := s.conns[conn].Send(now)],
         ops := s.ops[op := AwaitingReply(path, conn, Some(s.conns[conn].nextRequestId))])
  }

  function Dies(s: State, conn: nat, now: int): State
    requires conn < |s.conns|
  {
    if s.conns[conn].isDead then s
    else
      var s1 := s.(conns := s.conns[conn := s.conns[conn].Die(now)]);
      if conn in s.held then AfterStopSweep(s1.(held := Remove(s.held, conn))) else s1
  }

  function SweepFrom(c: Config, s: State, held: seq<nat>, now: int): State
    requires c.idleTimeoutMs.Some? && Within(held, |s.conns|)
    decreases |held|
  {
    if held == [] then s
    else
      var conn := s.conns[held[0]];
      var s' :=
        if Retained(s, conn.path) > 0 || now - conn.lastActivityAt < c.idleTimeoutMs.value then s
          else Drop(s, held[0], now);
      SweepFrom(c, s', held[1..], now)
  }

  function AfterSweep(c: Config, s: State, now: int): State
    requires c.idleTimeoutMs.Some? && HoldsConns(s)
  {
    AfterStopSweep(SweepFrom(c, s, s.held, now))
  }

  function AfterCloseStore(s: State, path: Path, now: int): State
    requires HoldsConns(s)
  {
    match Find(s, s.held, path)
    case None => s
    case Some(conn) => if conn < |s.conns| then AfterStopSweep(Drop(s, conn, now)) else s
  }

  function CloseFrom(s: State, held: seq<nat>, now: int): State
    requires Within(held, |s.conns|)
    decreases |held|
  {
    if held == [] then s
    else CloseFrom(s.(conns := s.conns[held[0] := s.conns[held[0]].Close(now)]), held[1..], now)
  }

  function AfterCloseAll(s: State, now: int): State
    requires HoldsConns(s)
  {
    CloseFrom(s, s.held, now).(held := [], sweeping := false)
  }

  // The invariant ----------------------------------------------------------------------------------------------------

  predicate IsOn(op: Op, path: Path) { !op.Finished? && op.path == path }

  /** The calls under way on a path. */
  function InFlight(ops: seq<Op>, path: Path): nat {
    if ops == [] then 0 else InFlight(ops[..|ops| - 1], path) + if IsOn(ops[|ops| - 1], path) then 1 else 0
  }

  ghost predicate ConnsOk(conns: seq<Connection>) { forall i :: 0 <= i < |conns| ==> conns[i].Valid() }

  /** Held connections are alive, one for each path. */
  ghost predicate HeldOk(conns: seq<Connection>, held: seq<nat>) {
    && Within(held, |conns|)
    && (forall i, j :: 0 <= i < j < |held| ==> held[i] < held[j])
    && (forall i :: 0 <= i < |held| ==> !conns[held[i]].isDead)
    && (forall i, j :: 0 <= i < |held| && 0 <= j < |held| && conns[held[i]].path == conns[held[j]].path ==> i == j)
  }

  /** The retain counts are the calls under way, and no zero is kept. */
  ghost predicate CountsOk(activeOps: map<Path, nat>, ops: seq<Op>) {
    forall path :: (path in activeOps <==> InFlight(ops, path) > 0) &&
      (path in activeOps ==> activeOps[path] == InFlight(ops, path))
  }

  /** A call works on a connection of its path, and waits for a request that was made. */
  ghost predicate OpOk(conns: seq<Connection>, op: Op) {
    match op
    case Ensured(path, conn) => conn < |conns| && conns[conn].path == path
    case AwaitingInit(path, conn, request) => conn < |conns| && conns[conn].path == path &&
      1 <= request < conns[conn].nextRequestId
    case AwaitingReply(path, conn, reply) =>
      conn < |conns| && conns[conn].path == path && (reply.Some? ==> 1 <= reply.value < conns[conn].nextRequestId)
    case Finished => true
  }

  ghost predicate OpsOk(conns: seq<Connection>, ops: seq<Op>) { forall i :: 0 <= i < |ops| ==> OpOk(conns, ops[i]) }

  ghost predicate Inv(c: Config, s: State) {
    && ConnsOk(s.conns) && HeldOk(s.conns, s.held) && CountsOk(s.activeOps, s.ops) && OpsOk(s.conns, s.ops)
    && (s.sweeping <==> s.held != [] && c.idleTimeoutMs.Some?)
  }

  /** No connection is forgotten, and no request of one is settled again. */
  ghost predicate Evolves(before: seq<Connection>, after: seq<Connection>) {
    |before| <= |after| && forall i :: 0 <= i < |before| ==> after[i].Follows(before[i])
  }

  lemma OpsStayOk(before: seq<Connection>, after: seq<Connection>, ops: seq<Op>)
    requires OpsOk(before, ops) && Evolves(before, after)
    ensures OpsOk(after, ops)
  {
    forall i | 0 <= i < |ops|
      ensures OpOk(after, ops[i])
    {
      assert OpOk(before, ops[i]);
    }
  }

  // Counting ---------------------------------------------------------------------------------------------------------

  lemma InFlightSnoc(ops: seq<Op>, op: Op, path: Path)
    ensures InFlight(ops + [op], path) == InFlight(ops, path) + if IsOn(op, path) then 1 else 0
  {
    assert (ops + [op])[..|ops|] == ops;
  }

  lemma {:induction false} InFlightUpdate(ops: seq<Op>, i: nat, op: Op, path: Path)
    requires i < |ops|
    ensures InFlight(ops[i := op], path) + (if IsOn(ops[i], path) then 1 else 0) ==
      InFlight(ops, path) + if IsOn(op, path) then 1 else 0
  {
    var front, updated := ops[..|ops| - 1], ops[i := op];
    if i < |front| {
      InFlightUpdate(front, i, op, path);
      assert updated[..|ops| - 1] == front[i := op];
    } else {
      assert updated[..|ops| - 1] == front;
    }
  }

  lemma RetainCounts(s: State, path: Path, op: Op)
    requires CountsOk(s.activeOps, s.ops) && !op.Finished? && op.path == path
    ensures CountsOk(AfterRetain(s, path).activeOps, s.ops + [op])
  {
    forall other
      ensures InFlight(s.ops + [op], other) == InFlight(s.ops, other) + if other == path then 1 else 0
    {
      InFlightSnoc(s.ops, op, other);
    }
  }

  lemma ReleaseCounts(s: State, op: nat)
    requires CountsOk(s.activeOps, s.ops) && op < |s.ops| && !s.ops[op].Finished?
    ensures CountsOk(End(s, op).activeOps, End(s, op).ops)
  {
    forall other
      ensures InFlight(s.ops[op := Finished], other) + (if other == s.ops[op].path then 1 else 0) ==
        InFlight(s.ops, other)
    {
      InFlightUpdate(s.ops, op, Finished, other);
    }
  }

  lemma MovesOn(s: State, op: nat, next: Op)
    requires CountsOk(s.activeOps, s.ops) && op < |s.ops| && !s.ops[op].Finished? && !next.Finished? &&
      next.path == s.ops[op].path
    ensures CountsOk(s.activeOps, s.ops[op := next])
  {
    forall other
      ensures InFlight(s.ops[op := next], other) == InFlight(s.ops, other)
    {
      InFlightUpdate(s.ops, op, next, other);
    }
  }

  // Dropping ---------------------------------------------------------------------------------------------------------

  lemma {:induction false} RemoveKeeps(held: seq<nat>, conn: nat)
    requires forall i, j :: 0 <= i < j < |held| ==> held[i] < held[j]
    ensures var r := Remove(held, conn); forall i, j :: 0 <= i < j < |r| ==> r[i] < r[j]
    ensures forall h :: h in Remove(held, conn) <==> h in held && h != conn
    ensures |Remove(held, conn)| == |held| - if conn in held then 1 else 0
  {
    if held != [] {
      RemoveKeeps(held[1..], conn);
      var r := Remove(held[1..], conn);
      assert held == [held[0]] + held[1..];
      forall i | 0 <= i < |r|
        ensures r[i] > held[0]
      {
        assert r[i] in held[1..];
      }
    }
  }

  /** The parts of the state that dropping connections touches. */
  ghost predicate PoolOk(s: State) { ConnsOk(s.conns) && HeldOk(s.conns, s.held) }

  lemma HeldAscends(conns: seq<Connection>, held: seq<nat>)
    requires HeldOk(conns, held)
    ensures Within(held, |conns|) && forall i, j :: 0 <= i < j < |held| ==> held[i] < held[j]
  {
  }

  lemma HeldStays(before: seq<Connection>, after: seq<Connection>, held: seq<nat>, kept: seq<nat>)
    requires HeldOk(before, held) && |before| <= |after|
    requires forall i, j :: 0 <= i < j < |kept| ==> kept[i] < kept[j]
    requires forall h :: h in kept ==> h in held
    requires forall h :: h in kept && h < |before| ==> after[h].path == before[h].path && !after[h].isDead
    ensures HeldOk(after, kept)
  {
    forall i | 0 <= i < |kept|
      ensures kept[i] < |before| && kept[i] in held && after[kept[i]].path == before[kept[i]].path &&
        !after[kept[i]].isDead
    {
      assert kept[i] in kept;
    }
    forall i, j | 0 <= i < |kept| && 0 <= j < |kept| && after[kept[i]].path == after[kept[j]].path
      ensures i == j
    {
      var i' :| 0 <= i' < |held| && held[i'] == kept[i];
      var j' :| 0 <= j' < |held| && held[j'] == kept[j];
    }
  }

  lemma DropKeeps(s: State, conn: nat, now: int)
    requires PoolOk(s) && conn < |s.conns|
    ensures PoolOk(Drop(s, conn, now)) && Evolves(s.conns, Drop(s, conn, now).conns) &&
      |Drop(s, conn, now).conns| == |s.conns|
    ensures forall h :: h in Drop(s, conn, now).held <==> h in s.held && h != conn
  {
    hide HeldOk;
    var after := s.conns[conn := s.conns[conn].Close(now)];
    RequestsSettleOnce(s.conns[conn], 0, true, now);
    HeldAscends(s.conns, s.held);
    RemoveKeeps(s.held, conn);
    HeldAreAlive(s);
    HeldStays(s.conns, after, s.held, Remove(s.held, conn));
  }

  lemma {:induction false} VictimMeaning(s: State, n: nat)
    requires HoldsConns(s) && n <= |s.held|
    ensures
      match Victim(s, n)
      case None => forall i :: 0 <= i < n ==> Retained(s, s.conns[s.held[i]].path) > 0
      case Some(v) =>
        && v in s.held && v < |s.conns| && Retained(s, s.conns[v].path) == 0
        && (exists k :: 0 <= k < n && s.held[k] == v)
        && forall i :: 0 <= i < n && Retained(s, s.conns[s.held[i]].path) == 0 ==>
          s.conns[v].lastActivityAt < s.conns[s.held[i]].lastActivityAt || (s.held[i] == v) ||
          (s.conns[v].lastActivityAt == s.conns[s.held[i]].lastActivityAt && exists k :: 0 <= k < i && s.held[k] == v)
  {
    if n > 0 {
      VictimMeaning(s, n - 1);
      assert s.held[n - 1] in s.held;
    }
  }

  /** Eviction drops nothing below capacity; at capacity it drops the least active connection that no call is using, or
      nothing if every one is in use. */
  lemma EvictionSparesRetained(c: Config, s: State, now: int)
    requires PoolOk(s)
    ensures
      var s' := Evict(c, s, now);
      && PoolOk(s') && Evolves(s.conns, s'.conns) && |s'.conns| == |s.conns|
      && (forall h :: h in s'.held ==> h in s.held)
      && (forall h :: h in s.held && Retained(s, s.conns[h].path) > 0 ==> h in s'.held)
      && |s'.held| == |s.held| -
         (if |s.held| >= c.maxWorkers && exists i :: 0 <= i < |s.held| && Retained(s, s.conns[s.held[i]].path) == 0
          then 1 else 0)
      && (forall h, k :: h in s.held && h !in s'.held && k in s.held && Retained(s, s.conns[k].path) == 0 ==>
        s.conns[h].lastActivityAt <= s.conns[k].lastActivityAt)
      && (forall h :: 0 <= h < |s.conns| ==>
            s'.conns[h] == if h in s.held && h !in s'.held then s.conns[h].Close(now) else s.conns[h])
  {
    HeldAscends(s.conns, s.held);
    hide ConnsOk, HeldOk, Victim, Drop, PoolOk, Evolves;
    VictimMeaning(s, |s.held|);
    var victim := Victim(s, |s.held|);
    if |s.held| >= c.maxWorkers && victim.Some? {
      DropKeeps(s, victim.value, now);
      DropClosesOne(s, victim.value, now);
    } else {
      EvolvesItself(s.conns);
    }
  }

  lemma DropClosesOne(s: State, conn: nat, now: int)
    requires PoolOk(s) && conn in s.held && conn < |s.conns|
    ensures
      var s' := Drop(s, conn, now);
      && |s'.held| == |s.held| - 1 && (forall h :: h in s'.held <==> h in s.held && h != conn)
      && |s'.conns| == |s.conns|
      && forall h :: 0 <= h < |s.conns| ==> s'.conns[h] == if h == conn then s.conns[h].Close(now) else s.conns[h]
  {
    HeldAscends(s.conns, s.held);
    RemoveKeeps(s.held, conn);
    hide ConnsOk, HeldOk;
  }

  lemma EvolvesItself(conns: seq<Connection>)
    ensures Evolves(conns, conns)
  {
    assert forall i :: 0 <= i < |conns| ==> conns[i].Follows(conns[i]);
  }

  // Every step -------------------------------------------------------------------------------------------------------

  datatype Step =
    | DoBegin(path: Path, now: int)
    | DoInitSettles(op: nat)
    | DoSends(op: nat, now: int)
    | DoEnds(op: nat)
    | DoReply(conn: nat, request: nat, ok: bool, now: int)
    | DoDies(conn: nat, now: int)
    | DoSweep(now: int)
    | DoCloseStore(path: Path, now: int)
    | DoCloseAll(now: int)

  /** A call ends once its request is settled, or was refused. */
  predicate Answered(s: State, op: nat)
    requires op < |s.ops|
  {
    && s.ops[op].AwaitingReply?
    && (s.ops[op].reply.Some? ==>
      s.ops[op].conn < |s.conns| && s.ops[op].reply.value in s.conns[s.ops[op].conn].settled)
  }

  predicate Enabled(c: Config, s: State, step: Step) {
    match step
    case DoBegin(_, _) => true
    case DoInitSettles(op) =>
      && op < |s.ops| && s.ops[op].AwaitingInit? && s.ops[op].conn < |s.conns|
      && s.ops[op].request in s.conns[s.ops[op].conn].settled
    case DoSends(op, _) => op < |s.ops| && s.ops[op].Ensured? && s.ops[op].conn < |s.conns|
    case DoEnds(op) => op < |s.ops| && Answered(s, op)
    case DoReply(conn, _, _, _) => conn < |s.conns|
    case DoDies(conn, _) => conn < |s.conns|
    case DoSweep(_) => s.sweeping && c.idleTimeoutMs.Some?
    case DoCloseStore(_, _) => true
    case DoCloseAll(_) => true
  }

  function Apply(c: Config, s: State, step: Step): State
    requires HoldsConns(s) && Enabled(c, s, step)
  {
    match step
    case DoBegin(path, now) => Begin(c, s, path, now)
    case DoInitSettles(op) => InitSettles(s, op)
    case DoSends(op, now) => Sends(s, op, now)
    case DoEnds(op) => End(s, op)
    case DoReply(conn, request, ok, now) => s.(conns := s.conns[conn := s.conns[conn].Reply(request, ok, now)])
    case DoDies(conn, now) => Dies(s, conn, now)
    case DoSweep(now) => AfterSweep(c, s, now)
    case DoCloseStore(path, now) => AfterCloseStore(s, path, now)
    case DoCloseAll(now) => AfterCloseAll(s, now)
  }

  lemma StepKeepsInv(c: Config, s: State, step: Step)
    requires Inv(c, s) && Enabled(c, s, step)
    ensures Inv(c, Apply(c, s, step)) && Evolves(s.conns, Apply(c, s, step).conns)
  {
    hide Inv, Evolves, Begin, InitSettles, Sends, End, Dies, AfterSweep, AfterCloseStore, AfterCloseAll;
    match step
    case DoBegin(path, now) => BeginKeepsInv(c, s, path, now);
    case DoInitSettles(op) => InitKeepsInv(c, s, op);
    case DoSends(op, now) => SendKeepsInv(c, s, op, now);
    case DoEnds(op) => EndKeepsInv(c, s, op);
    case DoReply(conn, request, ok, now) => ReplyKeepsInv(c, s, conn, request, ok, now);
    case DoDies(conn, now) => DeathKeepsInv(c, s, conn, now);
    case DoSweep(now) => SweepKeepsInv(c, s, now);
    case DoCloseStore(path, now) => CloseStoreKeepsInv(c, s, path, now);
    case DoCloseAll(now) => CloseAllKeepsInv(c, s, now);
  }

  lemma Unchanged(conns: seq<Connection>)
    ensures Evolves(conns, conns)
  {
  }

  lemma OneEvolves(conns: seq<Connection>, conn: nat, after: Connection)
    requires conn < |conns| && ConnsOk(conns) && after.Valid() && after.Follows(conns[conn])
    ensures Evolves(conns, conns[conn := after]) && ConnsOk(conns[conn := after])
  {
  }

  lemma ConnIsValid(conns: seq<Connection>, conn: nat)
    requires ConnsOk(conns) && conn < |conns|
    ensures conns[conn].Valid()
  {
  }

  /** What a call needs to be in order, by what it waits for. */
  lemma OpIsOk(conns: seq<Connection>, op: Op)
    ensures !op.Finished? ==>
      (OpOk(conns, op) <==>
       && op.conn < |conns| && conns[op.conn].path == op.path
       && (op.AwaitingInit? ==> 1 <= op.request < conns[op.conn].nextRequestId)
       && (op.AwaitingReply? && op.reply.Some? ==> 1 <= op.reply.value < conns[op.conn].nextRequestId))
  {
  }

  lemma InitKeepsInv(c: Config, s: State, op: nat)
    requires Inv(c, s) && Enabled(c, s, DoInitSettles(op))
    ensures Inv(c, InitSettles(s, op)) && Evolves(s.conns, InitSettles(s, op).conns)
  {
    hide ConnsOk, HeldOk, CountsOk, Evolves, AfterRelease;
    Unchanged(s.conns);
    assert OpOk(s.conns, s.ops[op]);
    MovesOn(s, op, Ensured(s.ops[op].path, s.ops[op].conn));
    ReleaseCounts(s, op);
    ReleaseOnlyCounts(s, s.ops[op].path);
  }

  lemma ReleaseOnlyCounts(s: State, path: Path)
    ensures AfterRelease(s, path) == s.(activeOps := AfterRelease(s, path).activeOps)
  {
  }

  lemma SendKeepsInv(c: Config, s: State, op: nat, now: int)
    requires Inv(c, s) && Enabled(c, s, DoSends(op, now))
    ensures Inv(c, Sends(s, op, now)) && Evolves(s.conns, Sends(s, op, now).conns)
  {
    hide ConnsOk, HeldOk, CountsOk, Evolves, OpOk;
    var Ensured(path, conn) := s.ops[op];
    var connection := s.conns[conn];
    assert OpOk(s.conns, s.ops[op]);
    ConnIsValid(s.conns, conn);
    OpIsOk(s.conns, s.ops[op]);
    Unchanged(s.conns);
    RequestsSettleOnce(connection, 0, true, now);
    if connection.isDead {
      MovesOn(s, op, AwaitingReply(path, conn, None));
      OpIsOk(s.conns, AwaitingReply(path, conn, None));
    } else {
      var after := s.conns[conn := connection.Send(now)];
      OneEvolves(s.conns, conn, connection.Send(now));
      MovesOn(s, op, AwaitingReply(path, conn, Some(connection.nextRequestId)));
      OpsStayOk(s.conns, after, s.ops);
      OpIsOk(after, AwaitingReply(path, conn, Some(connection.nextRequestId)));
      SameAlive(s.conns, after, s.held);
    }
  }

  lemma SameAlive(before: seq<Connection>, after: seq<Connection>, held: seq<nat>)
    requires HeldOk(before, held) && |before| <= |after|
    requires forall i :: 0 <= i < |before| ==> after[i].path == before[i].path && after[i].isDead == before[i].isDead
    ensures HeldOk(after, held)
  {
  }

  lemma EndKeepsInv(c: Config, s: State, op: nat)
    requires Inv(c, s) && Enabled(c, s, DoEnds(op))
    ensures Inv(c, End(s, op)) && Evolves(s.conns, End(s, op).conns)
  {
    hide ConnsOk, HeldOk, CountsOk, Evolves, AfterRelease;
    Unchanged(s.conns);
    ReleaseCounts(s, op);
    ReleaseOnlyCounts(s, s.ops[op].path);
  }

  lemma ReplyKeepsInv(c: Config, s: State, conn: nat, request: nat, ok: bool, now: int)
    requires Inv(c, s) && conn < |s.conns|
    ensures
      var s' := s.(conns := s.conns[conn := s.conns[conn].Reply(request, ok, now)]);
      Inv(c, s') && Evolves(s.conns, s'.conns)
  {
    hide ConnsOk, HeldOk, CountsOk, Evolves, OpOk, OpsOk;
    ConnIsValid(s.conns, conn);
    RequestsSettleOnce(s.conns[conn], request, ok, now);
    var after := s.conns[conn := s.conns[conn].Reply(request, ok, now)];
    OneEvolves(s.conns, conn, s.conns[conn].Reply(request, ok, now));
    OpsStayOk(s.conns, after, s.ops);
    SameAlive(s.conns, after, s.held);
  }

  lemma DeathKeepsInv(c: Config, s: State, conn: nat, now: int)
    requires Inv(c, s) && conn < |s.conns|
    ensures Inv(c, Dies(s, conn, now)) && Evolves(s.conns, Dies(s, conn, now).conns)
  {
    hide ConnsOk, HeldOk, CountsOk, Evolves, OpOk, OpsOk, Remove, Failed;
    Unchanged(s.conns);
    ConnIsValid(s.conns, conn);
    RequestsSettleOnce(s.conns[conn], 0, true, now);
    var after := s.conns[conn := s.conns[conn].Die(now)];
    OneEvolves(s.conns, conn, s.conns[conn].Die(now));
    OpsStayOk(s.conns, after, s.ops);
    HeldAscends(s.conns, s.held);
    RemoveKeeps(s.held, conn);
    HeldAreAlive(s);
    if conn !in s.held {
      RemoveAbsent(s.held, conn);
    }
    HeldStays(s.conns, after, s.held, Remove(s.held, conn));
  }

  lemma HeldAreAlive(s: State)
    requires HeldOk(s.conns, s.held)
    ensures forall h :: h in s.held ==> h < |s.conns| && !s.conns[h].isDead
  {
  }

  lemma {:induction false} RemoveAbsent(held: seq<nat>, conn: nat)
    requires conn !in held
    ensures Remove(held, conn) == held
  {
    if held != [] {
      RemoveAbsent(held[1..], conn);
      assert held == [held[0]] + held[1..];
    }
  }

  /** Whatever the sweep drops has been idle for long enough, and no call is using it. */
  lemma {:induction false} SweepSparesRetained(c: Config, s: State, held: seq<nat>, now: int)
    requires PoolOk(s) && c.idleTimeoutMs.Some? && Within(held, |s.conns|)
    ensures
      var s' := SweepFrom(c, s, held, now);
      && PoolOk(s') && Evolves(s.conns, s'.conns) && |s'.conns| == |s.conns|
      && s' == s.(conns := s'.conns, held := s'.held)
      && (forall h :: h in s'.held ==> h in s.held)
      && (forall h :: h in s.held && Retained(s, s.conns[h].path) > 0 ==> h in s'.held)
    decreases |held|
  {
    hide PoolOk, Drop;
    if held == [] {
      Unchanged(s.conns);
    } else {
      var connection := s.conns[held[0]];
      if Retained(s, connection.path) > 0 || now - connection.lastActivityAt < c.idleTimeoutMs.value {
        SweepSparesRetained(c, s, held[1..], now);
      } else {
        DropKeeps(s, held[0], now);
        var s1 := Drop(s, held[0], now);
        DropOnlyDrops(s, held[0], now);
        SweepSparesRetained(c, s1, held[1..], now);
        EvolvesFurther(s.conns, s1.conns, SweepFrom(c, s, held, now).conns);
        HeldWithin(s);
        HeldWithin(s1);
      }
    }
  }

  lemma DropOnlyDrops(s: State, conn: nat, now: int)
    requires conn < |s.conns|
    ensures Drop(s, conn, now) == s.(conns := Drop(s, conn, now).conns, held := Drop(s, conn, now).held)
  {
  }

  lemma HeldWithin(s: State)
    requires PoolOk(s)
    ensures forall h :: h in s.held ==> h < |s.conns|
  {
  }

  lemma EvolvesFurther(a: seq<Connection>, b: seq<Connection>, c: seq<Connection>)
    requires Evolves(a, b) && Evolves(b, c)
    ensures Evolves(a, c)
  {
  }

  lemma SweepKeepsInv(c: Config, s: State, now: int)
    requires Inv(c, s) && s.sweeping && c.idleTimeoutMs.Some?
    ensures Inv(c, AfterSweep(c, s, now)) && Evolves(s.conns, AfterSweep(c, s, now).conns)
  {
    hide ConnsOk, CountsOk, Evolves, OpsOk, SweepFrom;
    SweepSparesRetained(c, s, s.held, now);
    OpsStayOk(s.conns, SweepFrom(c, s, s.held, now).conns, s.ops);
  }

  lemma {:induction false} Finds(s: State, held: seq<nat>, path: Path)
    requires Within(held, |s.conns|)
    ensures
      match Find(s, held, path)
      case None => forall i :: 0 <= i < |held| ==> s.conns[held[i]].path != path
      case Some(conn) => conn in held && conn < |s.conns| && s.conns[conn].path == path
  {
    if held != [] && s.conns[held[0]].path != path {
      Finds(s, held[1..], path);
    }
  }

  lemma CloseStoreKeepsInv(c: Config, s: State, path: Path, now: int)
    requires Inv(c, s)
    ensures Inv(c, AfterCloseStore(s, path, now)) && Evolves(s.conns, AfterCloseStore(s, path, now).conns)
  {
    hide ConnsOk, CountsOk, Evolves, OpsOk;
    Unchanged(s.conns);
    Finds(s, s.held, path);
    if Find(s, s.held, path).Some? {
      var conn := Find(s, s.held, path).value;
      DropKeeps(s, conn, now);
      OpsStayOk(s.conns, Drop(s, conn, now).conns, s.ops);
    }
  }

  lemma {:induction false} CloseFromKeeps(s: State, held: seq<nat>, now: int)
    requires ConnsOk(s.conns) && Within(held, |s.conns|)
    ensures var s' := CloseFrom(s, held, now);
      ConnsOk(s'.conns) && Evolves(s.conns, s'.conns) && s' == s.(conns := s'.conns)
    decreases |held|
  {
    hide ConnsOk;
    Unchanged(s.conns);
    if held != [] {
      ConnIsValid(s.conns, held[0]);
      RequestsSettleOnce(s.conns[held[0]], 0, true, now);
      var s1 := s.(conns := s.conns[held[0] := s.conns[held[0]].Close(now)]);
      OneEvolves(s.conns, held[0], s.conns[held[0]].Close(now));
      CloseFromKeeps(s1, held[1..], now);
      EvolvesFurther(s.conns, s1.conns, CloseFrom(s, held, now).conns);
    }
  }

  lemma CloseAllKeepsInv(c: Config, s: State, now: int)
    requires Inv(c, s)
    ensures Inv(c, AfterCloseAll(s, now)) && Evolves(s.conns, AfterCloseAll(s, now).conns)
  {
    hide ConnsOk, CountsOk, Evolves, OpsOk, CloseFrom;
    CloseFromKeeps(s, s.held, now);
    OpsStayOk(s.conns, CloseFrom(s, s.held, now).conns, s.ops);
  }

  // Beginning a call -------------------------------------------------------------------------------------------------

  lemma SpawnKeeps(c: Config, s: State, path: Path, now: int)
    requires PoolOk(s) && forall h :: h in s.held && h < |s.conns| ==> s.conns[h].path != path
    ensures
      var s' := Spawn(c, s, path, now);
      && PoolOk(s') && Evolves(s.conns, s'.conns)
      && OpOk(s'.conns, AwaitingInit(path, |s.conns|, 1))
  {
    var s' := Spawn(c, s, path, now);
    forall i, j | 0 <= i < |s'.held| && 0 <= j < |s'.held| && s'.conns[s'.held[i]].path == s'.conns[s'.held[j]].path
      ensures i == j
    {
      if i < |s.held| {
        assert s.held[i] in s.held;
      }
      if j < |s.held| {
        assert s.held[j] in s.held;
      }
    }
  }

  lemma BeginKeepsInv(c: Config, s: State, path: Path, now: int)
    requires Inv(c, s)
    ensures Inv(c, Begin(c, s, path, now)) && Evolves(s.conns, Begin(c, s, path, now).conns)
  {
    hide ConnsOk, HeldOk, CountsOk, Evolves, OpOk, Evict, Spawn;
    Unchanged(s.conns);
    HeldAscends(s.conns, s.held);
    var s1 := AfterRetain(s, path);
    Finds(s1, s1.held, path);
    match Find(s1, s1.held, path)
    case Some(conn) =>
      RetainCounts(s, path, Ensured(path, conn));
      OpIsOk(s.conns, Ensured(path, conn));
    case None =>
      EvictionSparesRetained(c, s1, now);
      var s2 := Evict(c, s1, now);
      EvictOnlyDrops(c, s1, now);
      forall h | h in s2.held && h < |s2.conns|
        ensures s2.conns[h].path != path
      {
        var i :| 0 <= i < |s1.held| && s1.held[i] == h;
        PathStays(s1.conns, s2.conns, h);
      }
      SpawnKeeps(c, s2, path, now);
      var s3 := Spawn(c, s2, path, now);
      SpawnOnlyAdds(c, s2, path, now);
      RetainCounts(s, path, AwaitingInit(path, |s2.conns|, 1));
      EvolvesFurther(s.conns, s2.conns, s3.conns);
      OpsStayOk(s.conns, s3.conns, s.ops);
  }

  lemma PathStays(before: seq<Connection>, after: seq<Connection>, conn: nat)
    requires Evolves(before, after) && conn < |before|
    ensures conn < |after| && after[conn].path == before[conn].path
  {
  }

  lemma SpawnOnlyAdds(c: Config, s: State, path: Path, now: int)
    ensures Spawn(c, s, path, now) ==
      s.(conns := Spawn(c, s, path, now).conns, held := s.held + [|s.conns|],
        sweeping := s.sweeping || c.idleTimeoutMs.Some?)
  {
  }

  lemma EvictOnlyDrops(c: Config, s: State, now: int)
    requires HoldsConns(s)
    ensures Evict(c, s, now) == s.(conns := Evict(c, s, now).conns, held := Evict(c, s, now).held)
  {
  }

  /** A call for a path without a worker adds one; the pool grows at or above its limit only if every held connection is
      in use, and the connections that calls are using are kept. */
  lemma SpawnGrowsOnlyIfAllRetained(c: Config, s: State, path: Path, now: int)
    requires Inv(c, s)
    ensures
      var s' := Begin(c, s, path, now);
      && (forall h :: h in s.held && Retained(s, s.conns[h].path) > 0 ==> h in s'.held)
      && (|s.held| >= c.maxWorkers && |s'.held| > |s.held| ==>
            forall i :: 0 <= i < |s.held| ==> Retained(s, s.conns[s.held[i]].path) > 0)
      && |s'.held| <= |s.held| + 1
  {
    hide ConnsOk, CountsOk, Evolves, OpsOk, Evict;
    var s1 := AfterRetain(s, path);
    Finds(s1, s1.held, path);
    if Find(s1, s1.held, path).None? {
      EvictionSparesRetained(c, s1, now);
      forall h | h in s.held
        ensures h < |s.conns| && Retained(s1, s.conns[h].path) == Retained(s, s.conns[h].path)
      {
        var i :| 0 <= i < |s.held| && s.held[i] == h;
      }
      assert forall i :: 0 <= i < |s.held| ==> s.held[i] in s.held;
    }
  }

  /** The sweep keeps every connection that a call is using. */
  lemma SweepSparesCalls(c: Config, s: State, now: int)
    requires Inv(c, s) && s.sweeping && c.idleTimeoutMs.Some?
    ensures forall i :: 0 <= i < |s.held| && InFlight(s.ops, s.conns[s.held[i]].path) > 0 ==>
      s.held[i] in AfterSweep(c, s, now).held
  {
    hide ConnsOk, HeldOk, Evolves, SweepFrom;
    HeldAscends(s.conns, s.held);
    SweepSparesRetained(c, s, s.held, now);
    forall i | 0 <= i < |s.held| && InFlight(s.ops, s.conns[s.held[i]].path) > 0
      ensures s.held[i] in AfterSweep(c, s, now).held
    {
      assert s.held[i] in s.held && Retained(s, s.conns[s.held[i]].path) > 0;
    }
  }

  // What becomes of calls and connections ----------------------------------------------------------------------------

  predicate IsStepOf(step: Step, op: nat) {
    (step.DoInitSettles? || step.DoSends? || step.DoEnds?) && step.op == op
  }

  /** A call whose worker was asked to initialise goes on if that went well, and ends if not; it then makes a request of
      its own, unless the worker is dead; and it ends when that is settled. */
  ghost predicate GoesOn(s: State, s': State, op: nat)
    requires op < |s.ops| && op < |s'.ops|
  {
    match s.ops[op]
    case AwaitingInit(path, conn, request) =>
      conn < |s.conns| && request in s.conns[conn].settled &&
      s'.ops[op] == if s.conns[conn].settled[request] then Ensured(path, conn) else Finished
    case Ensured(path, conn) =>
      conn < |s.conns| && conn < |s'.conns| &&
      if s.conns[conn].isDead then s'.ops[op] == AwaitingReply(path, conn, None)
      else
        && s'.ops[op].AwaitingReply? && s'.ops[op].path == path && s'.ops[op].conn == conn && s'.ops[op].reply.Some?
        && var request := s'.ops[op].reply.value;
           request in s'.conns[conn].pending && request !in s.conns[conn].pending && request !in s.conns[conn].settled
    case AwaitingReply(_, _, _) => Answered(s, op) && s'.ops[op] == Finished
    case Finished => false
  }

  lemma CallsGoOn(c: Config, s: State, step: Step, op: nat)
    requires Inv(c, s) && Enabled(c, s, step) && op < |s.ops|
    ensures var s' := Apply(c, s, step);
      op < |s'.ops| && if IsStepOf(step, op) then GoesOn(s, s', op) else s'.ops[op] == s.ops[op]
  {
    hide HeldOk, CountsOk, OpsOk, Evict, SweepFrom, CloseFrom;
    HeldAscends(s.conns, s.held);
    match step
    case DoBegin(path, now) => EvictOnlyDrops(c, AfterRetain(s, path), now);
    case DoSends(i, now) => ConnIsValid(s.conns, s.ops[i].conn);
    case DoSweep(now) => SweepOnlyDrops(c, s, s.held, now);
    case DoCloseAll(now) => CloseOnlyCloses(s, s.held, now);
    case _ =>
  }

  lemma {:induction false} SweepOnlyDrops(c: Config, s: State, held: seq<nat>, now: int)
    requires c.idleTimeoutMs.Some? && Within(held, |s.conns|)
    ensures var s' := SweepFrom(c, s, held, now);
      s' == s.(conns := s'.conns, held := s'.held) && |s'.conns| == |s.conns|
    decreases |held|
  {
    if held != [] {
      DropOnlyDrops(s, held[0], now);
      SweepOnlyDrops(c, s, held[1..], now);
      SweepOnlyDrops(c, Drop(s, held[0], now), held[1..], now);
    }
  }

  lemma {:induction false} CloseOnlyCloses(s: State, held: seq<nat>, now: int)
    requires Within(held, |s.conns|)
    ensures var s' := CloseFrom(s, held, now); s' == s.(conns := s'.conns) && |s'.conns| == |s.conns|
    decreases |held|
  {
    if held != [] {
      CloseOnlyCloses(s.(conns := s.conns[held[0] := s.conns[held[0]].Close(now)]), held[1..], now);
    }
  }

  /** A call uses the connection of its path if one is held, and then no other is made; else it waits for a new one,
      which is held from now on. */
  lemma CallFindsOrSpawns(c: Config, s: State, path: Path, now: int)
    requires Inv(c, s)
    ensures
      var s' := Begin(c, s, path, now);
      && |s'.ops| == |s.ops| + 1
      && if exists h :: h in s.held && h < |s.conns| && s.conns[h].path == path then
           && s'.conns == s.conns && s'.held == s.held
           && var op := s'.ops[|s.ops|];
              op.Ensured? && op.path == path && op.conn in s.held && op.conn < |s.conns| &&
                s.conns[op.conn].path == path
         else
           && |s'.conns| == |s.conns| + 1 && s'.ops[|s.ops|] == AwaitingInit(path, |s.conns|, 1) && |s.conns| in s'.held
           && var made := s'.conns[|s.conns|];
              made.path == path && !made.isDead && made.pending == {1} && made.settled == map[] &&
                made.lastActivityAt == now
  {
    hide ConnsOk, HeldOk, CountsOk, OpsOk, Evict;
    HeldAscends(s.conns, s.held);
    var s1 := AfterRetain(s, path);
    Finds(s1, s1.held, path);
    if Find(s1, s1.held, path).None? {
      EvictionSparesRetained(c, s1, now);
      EvictOnlyDrops(c, s1, now);
      forall h | h in s.held && h < |s.conns|
        ensures s.conns[h].path != path
      {
        var i :| 0 <= i < |s.held| && s.held[i] == h;
      }
    }
  }

  /** Which of the held connections a step gives up, and what becomes of each connection. */
  predicate Leaves(c: Config, s: State, step: Step, h: nat)
    requires h < |s.conns|
  {
    match step
    case DoDies(conn, _) => h == conn
    case DoSweep(now) =>
      Retained(s, s.conns[h].path) == 0 && c.idleTimeoutMs.Some? &&
        now - s.conns[h].lastActivityAt >= c.idleTimeoutMs.value
    case DoCloseStore(path, _) => s.conns[h].path == path
    case DoCloseAll(_) => true
    case _ => false
  }

  /** A step other than a new call gives up exactly those. */
  lemma WhoLeaves(c: Config, s: State, step: Step, h: nat)
    requires Inv(c, s) && Enabled(c, s, step) && !step.DoBegin? && h < |s.conns|
    ensures h in Apply(c, s, step).held <==> h in s.held && !Leaves(c, s, step, h)
  {
    hide ConnsOk, HeldOk, CountsOk, OpsOk, SweepFrom, CloseFrom;
    HeldAscends(s.conns, s.held);
    match step
    case DoDies(conn, now) =>
      RemoveKeeps(s.held, conn);
      if s.conns[conn].isDead {
        DeadAreNotHeld(s, conn);
      }
    case DoSweep(now) => SweptFrom(c, s, s.held, now, h);
    case DoCloseStore(path, now) =>
      Finds(s, s.held, path);
      if Find(s, s.held, path).Some? {
        RemoveKeeps(s.held, Find(s, s.held, path).value);
        OneOfPath(s, Find(s, s.held, path).value, h);
      } else if h in s.held {
        var i :| 0 <= i < |s.held| && s.held[i] == h;
      }
    case DoCloseAll(now) =>
    case _ =>
  }

  lemma DeadAreNotHeld(s: State, conn: nat)
    requires HeldOk(s.conns, s.held) && conn < |s.conns| && s.conns[conn].isDead
    ensures conn !in s.held
  {
  }

  lemma OneOfPath(s: State, a: nat, b: nat)
    requires HeldOk(s.conns, s.held) && a in s.held && b < |s.conns|
    ensures a < |s.conns|
    ensures b in s.held && s.conns[a].path == s.conns[b].path ==> a == b
  {
    if b in s.held {
      var i :| 0 <= i < |s.held| && s.held[i] == a;
      var j :| 0 <= j < |s.held| && s.held[j] == b;
    }
  }

  /** The sweep looks at each held connection once. */
  lemma {:induction false} SweptFrom(c: Config, s: State, held: seq<nat>, now: int, h: nat)
    requires c.idleTimeoutMs.Some? && Within(held, |s.conns|) && h < |s.conns|
    requires forall i, j :: 0 <= i < j < |held| ==> held[i] < held[j]
    requires forall i, j :: 0 <= i < j < |s.held| ==> s.held[i] < s.held[j]
    ensures
      var s' := SweepFrom(c, s, held, now);
      && |s'.conns| == |s.conns|
      && (h in s'.held <==> h in s.held && !(h in held && Leaves(c, s, DoSweep(now), h)))
      && s'.conns[h] == if h in held && Leaves(c, s, DoSweep(now), h) then s.conns[h].Close(now) else s.conns[h]
    decreases |held|
  {
    hide Drop, Leaves;
    if held != [] {
      assert held == [held[0]] + held[1..];
      LeavesIf(c, s, held[0], now);
      if Leaves(c, s, DoSweep(now), held[0]) {
        var s1 := Drop(s, held[0], now);
        DropMeans(s, held[0], now);
        SameLeaves(c, s, s1, held[0], h, now);
        SweptFrom(c, s1, held[1..], now, h);
      } else {
        SweptFrom(c, s, held[1..], now, h);
      }
    }
  }

  lemma LeavesIf(c: Config, s: State, h: nat, now: int)
    requires h < |s.conns| && c.idleTimeoutMs.Some?
    ensures Leaves(c, s, DoSweep(now), h) <==>
      !(Retained(s, s.conns[h].path) > 0 || now - s.conns[h].lastActivityAt < c.idleTimeoutMs.value)
  {
  }

  lemma DropMeans(s: State, conn: nat, now: int)
    requires conn < |s.conns| && forall i, j :: 0 <= i < j < |s.held| ==> s.held[i] < s.held[j]
    ensures
      var s' := Drop(s, conn, now);
      && |s'.conns| == |s.conns| && s'.activeOps == s.activeOps
      && (forall h :: 0 <= h < |s.conns| ==> s'.conns[h] == if h == conn then s.conns[h].Close(now) else s.conns[h])
      && (forall h :: h in s'.held <==> h in s.held && h != conn)
      && (forall i, j :: 0 <= i < j < |s'.held| ==> s'.held[i] < s'.held[j])
  {
    RemoveKeeps(s.held, conn);
  }

  lemma SameLeaves(c: Config, s: State, s1: State, dropped: nat, h: nat, now: int)
    requires h < |s.conns| == |s1.conns| && s1.activeOps == s.activeOps && (h != dropped ==> s1.conns[h] == s.conns[h])
    ensures h != dropped ==> Leaves(c, s1, DoSweep(now), h) == Leaves(c, s, DoSweep(now), h)
  {
  }

  /** A connection that is given up is asked to close; a dead worker's fails its requests; no other changes, but by its
      own replies and requests. */
  lemma ConnectionsChange(c: Config, s: State, step: Step, h: nat)
    requires Inv(c, s) && Enabled(c, s, step) && !step.DoBegin? && h < |s.conns|
    ensures
      var s' := Apply(c, s, step);
      && |s'.conns| == |s.conns|
      && s'.conns[h] ==
         if step.DoDies? && h == step.conn then s.conns[h].Die(step.now)
         else if (step.DoSweep? || step.DoCloseStore? || step.DoCloseAll?) && h in s.held && Leaves(c, s, step, h) then
           s.conns[h].Close(step.now)
         else if step.DoReply? && h == step.conn then s.conns[h].Reply(step.request, step.ok, step.now)
         else if step.DoSends? && h == s.ops[step.op].conn && !s.conns[h].isDead then s.conns[h].Send(step.now)
         else s.conns[h]
  {
    hide ConnsOk, HeldOk, CountsOk, OpsOk, SweepFrom, CloseFrom;
    HeldAscends(s.conns, s.held);
    match step
    case DoSweep(now) => SweptFrom(c, s, s.held, now, h);
    case DoCloseStore(path, now) =>
      Finds(s, s.held, path);
      if Find(s, s.held, path).Some? {
        OneOfPath(s, Find(s, s.held, path).value, h);
      } else if h in s.held {
        var i :| 0 <= i < |s.held| && s.held[i] == h;
      }
    case DoCloseAll(now) => ClosedFrom(s, s.held, now, h);
    case _ =>
  }

  lemma {:induction false} ClosedFrom(s: State, held: seq<nat>, now: int, h: nat)
    requires Within(held, |s.conns|) && h < |s.conns|
    requires forall i, j :: 0 <= i < j < |held| ==> held[i] < held[j]
    ensures
      var s' := CloseFrom(s, held, now);
      |s'.conns| == |s.conns| && s'.conns[h] == if h in held then s.conns[h].Close(now) else s.conns[h]
    decreases |held|
  {
    if held != [] {
      assert held == [held[0]] + held[1..];
      ClosedFrom(s.(conns := s.conns[held[0] := s.conns[held[0]].Close(now)]), held[1..], now, h);
    }
  }

  // Whole runs -------------------------------------------------------------------------------------------------------

  lemma InitialInv(c: Config)
    ensures Inv(c, Initial())
  {
  }

  ghost predicate Possible(c: Config, s: State, steps: seq<Step>)
    decreases steps
  {
    steps != [] ==> HoldsConns(s) && Enabled(c, s, steps[0]) && Possible(c, Apply(c, s, steps[0]), steps[1..])
  }

  ghost function Final(c: Config, s: State, steps: seq<Step>): State
    requires Possible(c, s, steps)
    decreases steps
  {
    if steps == [] then s else Final(c, Apply(c, s, steps[0]), steps[1..])
  }

  /** In every run the retain counts are the calls under way, the timer runs exactly while connections are held, and a
      request that has settled stays settled as it was. */
  lemma {:induction false} RunKeepsInv(c: Config, s: State, steps: seq<Step>)
    requires Inv(c, s) && Possible(c, s, steps)
    ensures Inv(c, Final(c, s, steps)) && Evolves(s.conns, Final(c, s, steps).conns)
    decreases steps
  {
    hide Inv, Apply, Enabled, Evolves;
    if steps == [] {
      Unchanged(s.conns);
    } else {
      StepKeepsInv(c, s, steps[0]);
      var next := Apply(c, s, steps[0]);
      RunKeepsInv(c, next, steps[1..]);
      EvolvesFurther(s.conns, next.conns, Final(c, s, steps).conns);
    }
  }

  /** No call waits for nothing: the request it waits for is settled already, or still has its worker to settle it. */
  lemma CallsAreAnswered(c: Config, s: State, op: nat)
    requires Inv(c, s) && op < |s.ops| &&
      (s.ops[op].AwaitingInit? || (s.ops[op].AwaitingReply? && s.ops[op].reply.Some?))
    ensures
      var id := if s.ops[op].AwaitingInit? then s.ops[op].request else s.ops[op].reply.value;
      var connection := s.conns[s.ops[op].conn];
      id in connection.settled || (id in connection.pending && !connection.isDead)
  {
    assert OpOk(s.conns, s.ops[op]);
    assert s.conns[s.ops[op].conn].Valid();
  }

  // The object -------------------------------------------------------------------------------------------------------

  /** The pool's own state. Connections stand as values here; what happens to one is a step on its entry. */
  class AgentWorkerPool {
    const config: Config
    var conns: seq<Connection>
    var connections: seq<nat>
    var activeOps: map<Path, nat>
    var sweepTimer: bool
    var ops: seq<Op>

    ghost function Abs(): State
      reads this
    {
      State(conns, connections, activeOps, sweepTimer, ops)
    }

    constructor (config: Config)
      ensures this.config == config && Abs() == Initial()
    {
      this.config := config;
      conns, connections, activeOps, sweepTimer, ops := [], [], map[], false, [];
    }

    method Retain(path: Path)
      modifies this
      ensures Abs() == old(AfterRetain(Abs(), path))
    {
      activeOps := activeOps[path := (if path in activeOps then activeOps[path] else 0) + 1];
    }

    method Release(path: Path)
      modifies this
      ensures Abs() == old(AfterRelease(Abs(), path))
    {
      var count: int := if path in activeOps then activeOps[path] else 0;
      var next := count - 1;
      if next <= 0 {
        activeOps := activeOps - {path};
      } else {
        activeOps := activeOps[path := next];
      }
    }

    method DropConnection(conn: nat, now: int)
      requires conn < |conns|
      modifies this
      ensures Abs() == old(Drop(Abs(), conn, now))
    {
      connections := Remove(connections, conn);
      conns := conns[conn := conns[conn].Close(now)];
    }

    method EvictForCapacity(now: int)
      requires HoldsConns(Abs())
      modifies this
      ensures Abs() == old(Evict(config, Abs(), now))
    {
      if |connections| < config.maxWorkers {
        return;
      }
      var victim: Option<nat> := None;
      for i := 0 to |connections|
        invariant Abs() == old(Abs()) && victim == Victim(Abs(), i)
        invariant victim.Some? ==> victim.value < |conns|
      {
        var connection := conns[connections[i]];
        if connection.path in activeOps && activeOps[connection.path] > 0 {
          continue;
        }
        if victim.None? || connection.lastActivityAt < conns[victim.value].lastActivityAt {
          victim := Some(connections[i]);
        }
      }
      if victim.Some? {
        DropConnection(victim.value, now);
      }
    }

    method BeginCall(path: Path, now: int)
      requires Inv(config, Abs())
      modifies this
      ensures Abs() == old(Begin(config, Abs(), path, now)) && Inv(config, Abs())
    {
      hide ConnsOk, CountsOk, OpsOk, Evict, Evolves;
      BeginKeepsInv(config, Abs(), path, now);
      Retain(path);
      var existing := Lookup(path);
      if existing.Some? {
        ops := ops + [Ensured(path, existing.value)];
        return;
      }
      EvictOnlyDrops(config, Abs(), now);
      EvictForCapacity(now);
      var connection := Fresh(path, now);
      conns := conns + [connection.Send(now)];
      connections := connections + [|conns| - 1];
      if !sweepTimer && config.idleTimeoutMs.Some? {
        sweepTimer := true;
      }
      ops := ops + [AwaitingInit(path, |conns| - 1, 1)];
    }

    method Lookup(path: Path) returns (conn: Option<nat>)
      requires HoldsConns(Abs())
      ensures conn == Find(Abs(), connections, path)
    {
      for i := 0 to |connections|
        invariant Find(Abs(), connections, path) == Find(Abs(), connections[i..], path)
      {
        assert connections[i..][1..] == connections[i + 1..];
        if conns[connections[i]].path == path {
          return Some(connections[i]);
        }
      }
      return None;
    }

    method StopSweepIfEmpty()
      modifies this
      ensures Abs() == old(AfterStopSweep(Abs()))
    {
      if |connections| == 0 {
        sweepTimer := false;
      }
    }

    method SweepIdle(now: int)
      requires Inv(config, Abs()) && sweepTimer && config.idleTimeoutMs.Some?
      modifies this
      ensures Abs() == old(AfterSweep(config, Abs(), now)) && Inv(config, Abs())
    {
      assert HoldsConns(Abs()) by { HeldWithin(Abs()); }
      hide Inv, Drop, Connection.Close, Remove;
      SweepKeepsInv(config, Abs(), now);
      var all := connections;
      ghost var result := SweepFrom(config, Abs(), all, now);
      for i := 0 to |all|
        invariant |conns| == old(|conns|) && Within(all[i..], |conns|)
        invariant result == SweepFrom(config, Abs(), all[i..], now)
      {
        assert all[i..][0] == all[i] && all[i..][1..] == all[i + 1..];
        var connection := conns[all[i]];
        if connection.path in activeOps && activeOps[connection.path] > 0 {
          continue;
        }
        if now - connection.lastActivityAt < config.idleTimeoutMs.value {
          continue;
        }
        DropLength(Abs(), all[i], now);
        DropConnection(all[i], now);
      }
      StopSweepIfEmpty();
    }

    method CloseStore(path: Path, now: int)
      requires Inv(config, Abs())
      modifies this
      ensures Abs() == old(AfterCloseStore(Abs(), path, now)) && Inv(config, Abs())
    {
      hide ConnsOk, CountsOk, OpsOk, Evolves;
      CloseStoreKeepsInv(config, Abs(), path, now);
      Finds(Abs(), connections, path);
      var conn := Lookup(path);
      if conn.None? {
        return;
      }
      DropConnection(conn.value, now);
      StopSweepIfEmpty();
    }

    method CloseAll(now: int)
      requires Inv(config, Abs())
      modifies this
      ensures Abs() == old(AfterCloseAll(Abs(), now)) && Inv(config, Abs())
    {
      hide ConnsOk, CountsOk, OpsOk, Evolves;
      CloseAllKeepsInv(config, Abs(), now);
      sweepTimer := false;
      var all := connections;
      connections := [];
      ghost var before := old(Abs());
      for i := 0 to |all|
        invariant Abs() == before.(conns := conns, held := [], sweeping := false) && |conns| == |before.conns|
        invariant CloseFrom(before, all, now) == CloseFrom(before.(conns := conns), all[i..], now)
      {
        assert all[i..][0] == all[i] && all[i..][1..] == all[i + 1..];
        conns := conns[all[i] := conns[all[i]].Close(now)];
      }
    }

    method OnExit(conn: nat, now: int)
      requires Inv(config, Abs()) && conn < |conns|
      modifies this
      ensures Abs() == old(Dies(Abs(), conn, now)) && Inv(config, Abs())
    {
      hide ConnsOk, CountsOk, OpsOk, HeldOk, Evolves;
      DeathKeepsInv(config, Abs(), conn, now);
      if conns[conn].isDead {
        return;
      }
      conns := conns[conn := conns[conn].Die(now)];
      if conn in connections {
        connections := Remove(connections, conn);
        StopSweepIfEmpty();
      }
    }
  }

  lemma DropLength(s: State, conn: nat, now: int)
    requires conn < |s.conns|
    ensures |Drop(s, conn, now).conns| == |s.conns| && Drop(s, conn, now).activeOps == s.activeOps
  {
  }
}
