/** The shared desktop's window allocator: which agent sits at which window, across the awaits of loading the persisted
    seats, bringing windows up, migrating from the primary one, rolling back and releasing. */
module WindowAllocator {
  import opened Options

  type Agent = string

  const PRIMARY := 1
  const FIRST_FORK := 2

  predicate IsPrimary(index: int) { index <= PRIMARY }

  function Get<K, V>(m: map<K, V>, k: K): Option<V> { if k in m then Some(m[k]) else None }

  // The persisted document -------------------------------------------------------------------------------------------

  /** A JSON value, as far as the parser tells values apart. */
  datatype Json = Number(value: int) | Text(text: string) | OtherValue

  /** What the persisted bytes decode to. The assignments are listed in the order of their sorted keys. */
  datatype Document =
    | NotJson
    | NotAnObject
    | Root(assignments: Option<seq<(Agent, Json)>>, tokens: Option<map<Agent, Json>>)

  /** An entry is taken if its index is a window and, for a fork, no earlier entry took it. */
  predicate Takes(entries: seq<(Agent, Json)>, maxWindowCount: int, i: int)
    requires 0 <= i < |entries|
  {
    && entries[i].1.Number? && 1 <= entries[i].1.value <= maxWindowCount
    && (entries[i].1.value >= FIRST_FORK ==>
          forall j :: 0 <= j < i ==> !(entries[j].1.Number? && entries[j].1.value == entries[i].1.value))
  }

  function Taken(raw: seq<(Agent, Json)>, maxWindowCount: int, n: int): seq<(Agent, int)>
    requires 0 <= n <= |raw|
  {
    if n == 0 then []
    else
      Taken(raw, maxWindowCount, n - 1) + if Takes(raw, maxWindowCount, n - 1) then [(raw[n - 1].0, raw[n - 1].1.value)]
        else []
  }

  predicate HasToken(tokens: Option<map<Agent, Json>>, a: Agent) {
    tokens.Some? && a in tokens.value && tokens.value[a].Text? && |tokens.value[a].text| > 0
  }

  function TakenTokens(raw: seq<(Agent, Json)>, tokens: Option<map<Agent, Json>>, maxWindowCount: int,
      n: int): map<Agent, string>
    requires 0 <= n <= |raw|
  {
    if n == 0 then map[]
    else
      var earlier := TakenTokens(raw, tokens, maxWindowCount, n - 1);
      var a := raw[n - 1].0;
      if Takes(raw, maxWindowCount, n - 1) && HasToken(tokens, a) then earlier[a := tokens.value[a].text] else earlier
  }

  function Assignments(doc: Document, maxWindowCount: int): seq<(Agent, int)> {
    if doc.Root? && doc.assignments.Some? then Taken(doc.assignments.value, maxWindowCount, |doc.assignments.value|)
      else []
  }

  function Tokens(doc: Document, maxWindowCount: int): map<Agent, string> {
    if doc.Root? && doc.assignments.Some? then
      TakenTokens(doc.assignments.value, doc.tokens, maxWindowCount, |doc.assignments.value|)
    else map[]
  }

  method ParseAssignments(doc: Document, maxWindowCount: int)
      returns (assignments: seq<(Agent, int)>, tokens: map<Agent, string>, isCorrupt: bool)
    ensures isCorrupt <==> doc.NotJson?
    ensures assignments == Assignments(doc, maxWindowCount)
    ensures tokens == Tokens(doc, maxWindowCount)
  {
    assignments, tokens, isCorrupt := [], map[], doc.NotJson?;
    if !doc.Root? || doc.assignments.None? {
      return;
    }
    var raw := doc.assignments.value;
    var usedForks: set<int> := {};
    for i := 0 to |raw|
      invariant assignments == Taken(raw, maxWindowCount, i)
      invariant tokens == TakenTokens(raw, doc.tokens, maxWindowCount, i)
      invariant forall f :: f in usedForks <==>
        exists j :: 0 <= j < i && raw[j].1.Number? && raw[j].1.value == f && FIRST_FORK <= f <= maxWindowCount
    {
      var (agentId, value) := raw[i];
      if !value.Number? || value.value < 1 || value.value > maxWindowCount {
        continue;
      }
      var index := value.value;
      if index >= FIRST_FORK {
        if index in usedForks {
          continue;
        }
        usedForks := usedForks + {index};
      }
      assignments := assignments + [(agentId, index)];
      if doc.tokens.Some? && agentId in doc.tokens.value {
        var token := doc.tokens.value[agentId];
        if token.Text? && |token.text| > 0 {
          tokens := tokens[agentId := token.text];
        }
      }
    }
  }

  predicate InRange(windows: map<Agent, int>, maxWindowCount: int) {
    forall a :: a in windows ==> 1 <= windows[a] <= maxWindowCount
  }

  predicate ForksUnique(windows: map<Agent, int>) {
    forall a, b :: a in windows && b in windows && windows[a] == windows[b] >= FIRST_FORK ==> a == b
  }

  predicate TokensNonempty(tokens: map<Agent, string>) { forall a :: a in tokens ==> |tokens[a]| > 0 }

  /** The entries the parser takes are windows, whatever the document. */
  lemma {:induction false} TakenInRange(raw: seq<(Agent, Json)>, tokens: Option<map<Agent, Json>>, maxWindowCount: int,
      n: int)
    requires 0 <= n <= |raw|
    ensures forall e :: e in Taken(raw, maxWindowCount, n) ==> 1 <= e.1 <= maxWindowCount
    ensures TokensNonempty(TakenTokens(raw, tokens, maxWindowCount, n))
  {
    if n > 0 {
      TakenInRange(raw, tokens, maxWindowCount, n - 1);
    }
  }

  /** An entry is taken exactly if its value is a window, and, for a fork, no entry before it has the same. */
  lemma {:induction false} TakenIff(raw: seq<(Agent, Json)>, maxWindowCount: int, n: int, a: Agent, index: int)
    requires 0 <= n <= |raw|
    ensures (a, index) in Taken(raw, maxWindowCount, n) <==>
      exists i ::
        && 0 <= i < n && raw[i] == (a, Number(index)) && 1 <= index <= maxWindowCount
        && (index >= 2 ==> forall j :: 0 <= j < i ==> raw[j].1 != Number(index))
  {
    if n > 0 {
      TakenIff(raw, maxWindowCount, n - 1, a, index);
      var taken := Taken(raw, maxWindowCount, n - 1);
      assert (a, index) in Taken(raw, maxWindowCount, n) <==>
        (a, index) in taken || (Takes(raw, maxWindowCount, n - 1) && (raw[n - 1].0, raw[n - 1].1.value) == (a, index));
    }
  }

  /** An agent gets a token exactly if an entry of it is taken and the document has a nonempty text for it. */
  lemma {:induction false} TokensIff(raw: seq<(Agent, Json)>, tokens: Option<map<Agent, Json>>, maxWindowCount: int,
      n: int,
      a: Agent)
    requires 0 <= n <= |raw|
    ensures
      var got := TakenTokens(raw, tokens, maxWindowCount, n);
      && (a in got <==>
            (exists i :: 0 <= i < n && raw[i].0 == a && Takes(raw, maxWindowCount, i)) &&
            tokens.Some? && a in tokens.value && tokens.value[a].Text? && tokens.value[a].text != "")
      && (a in got ==> got[a] == tokens.value[a].text)
  {
    hide Takes;
    if n > 0 {
      TokensIff(raw, tokens, maxWindowCount, n - 1, a);
    }
  }

  // The state --------------------------------------------------------------------------------------------------------

  datatype Load = Pending | Succeeded | Failed

  /** One call under way, named by the await it stands at. */
  datatype Op =
    | AwaitingLoad(agent: Agent, load: nat)
    | Loaded(agent: Agent)
    | AwaitingReady(agent: Agent, isNew: bool, seat: Option<int>)
    | AwaitingWindow(agent: Agent, isNew: bool, isMigration: bool, index: int)
    | RollingBack(agent: Agent, isNew: bool, restoreFrom: Option<int>)
    | Releasing(index: int)
    | Finished

  /** maxWindowCount is at least 1, as the constructor clamps it. */
  datatype Config = Config(maxWindowCount: nat, persistAssignments: bool, hasEnsureWindow: bool)

  datatype State = State(
    windows: map<Agent, int>, tokens: map<Agent, string>, established: set<Agent>, tearing: set<int>,
    current: Option<nat>, loads: seq<Load>, ops: seq<Op>)

  function Initial(): State { State(map[], map[], {}, {}, None, [], []) }

  function IsFree(s: State, index: int): bool { index !in s.windows.Values && index !in s.tearing }

  function FreeFork(c: Config, s: State, index: int): Option<int>
    decreases c.maxWindowCount - index
  {
    if index > c.maxWindowCount then None
    else if IsFree(s, index) then Some(index)
    else FreeFork(c, s, index + 1)
  }

  /** The fork handed out is the least free one; none is handed out only if none is free. */
  lemma {:induction false} FreeForkIsLeast(c: Config, s: State, from: int)
    ensures
      match FreeFork(c, s, from)
      case Some(index) => from <= index <= c.maxWindowCount && IsFree(s, index) &&
        forall i :: from <= i < index ==> !IsFree(s, i)
      case None => forall i :: from <= i <= c.maxWindowCount ==> !IsFree(s, i)
    decreases c.maxWindowCount - from
  {
    if from <= c.maxWindowCount && !IsFree(s, from) {
      FreeForkIsLeast(c, s, from + 1);
    }
  }

  function TakeFree(c: Config, s: State, a: Agent): State {
    match FreeFork(c, s, FIRST_FORK)
    case Some(index) => s.(windows := s.windows[a := index])
    case None => s
  }

  // The segments -----------------------------------------------------------------------------------------------------

  function AdoptOne(s: State, a: Agent, index: int, tokens: map<Agent, string>): State {
    if a in s.windows || index in s.windows.Values then s
    else
      s.(windows := s.windows[a := index],
         tokens := if a in tokens && a !in s.tokens then s.tokens[a := tokens[a]] else s.tokens)
  }

  function Adopt(s: State, persisted: seq<(Agent, int)>, tokens: map<Agent, string>): State {
    if persisted == [] then s
    else
      var (a, index) := persisted[|persisted| - 1];
      AdoptOne(Adopt(s, persisted[..|persisted| - 1], tokens), a, index, tokens)
  }

  function Call(c: Config, s: State, a: Agent): State {
    if !c.persistAssignments then s.(ops := s.ops + [Loaded(a)])
    else if s.current.Some? then s.(ops := s.ops + [AwaitingLoad(a, s.current.value)])
    else s.(current := Some(|s.loads|), loads := s.loads + [Pending], ops := s.ops + [AwaitingLoad(a, |s.loads|)])
  }

  function LoadSettles(c: Config, s: State, load: nat, outcome: Option<Document>): State
    requires load < |s.loads|
  {
    match outcome
    case None => s.(loads := s.loads[load := Failed])
    case Some(doc) =>
      Adopt(s, Assignments(doc, c.maxWindowCount), Tokens(doc, c.maxWindowCount)).(loads := s.loads[load := Succeeded])
  }

  /** The waiting call goes on, or forgets the load that failed: whichever load that is by then. */
  function LoadResumes(s: State, op: nat): State
    requires op < |s.ops| && s.ops[op].AwaitingLoad? && s.ops[op].load < |s.loads|
  {
    if s.loads[s.ops[op].load].Failed? then s.(current := None, ops := s.ops[op := Finished])
    else s.(ops := s.ops[op := Loaded(s.ops[op].agent)])
  }

  function Assigns(c: Config, s: State, op: nat): State
    requires op < |s.ops| && s.ops[op].Loaded?
  {
    var a := s.ops[op].agent;
    var s' := if a in s.windows then s else TakeFree(c, s, a);
    s'.(ops := s.ops[op := AwaitingReady(a, a !in s.windows, Get(s'.windows, a))])
  }

  /** The window the call goes on with: a primary seat moves to a free fork, if there is one. */
  function Migrate(c: Config, s: State, a: Agent, seat: int): (State, int) {
    if !IsPrimary(seat) || !c.hasEnsureWindow then (s, seat)
    else
      var now := if a in s.windows then s.windows[a] else seat;
      if !IsPrimary(now) then (s, now)
      else if FreeFork(c, s, FIRST_FORK).Some? then (TakeFree(c, s, a), FreeFork(c, s, FIRST_FORK).value)
      else (s, now)
  }

  function Forget(s: State, a: Agent): State { s.(windows := s.windows - {a}, tokens := s.tokens - {a}) }

  function ReadySettles(c: Config, s: State, op: nat, ok: bool, minted: string): State
    requires op < |s.ops| && s.ops[op].AwaitingReady?
  {
    var AwaitingReady(a, isNew, seat) := s.ops[op];
    var ended := s.ops[op := Finished];
    if !ok || seat.None? then s.(ops := ended)
    else
      var (s1, index) := Migrate(c, s, a, seat.value);
      if IsPrimary(index) then s1.(ops := ended)
      else
        var s2 := if a in s1.tokens then s1 else s1.(tokens := s1.tokens[a := minted]);
        if !c.hasEnsureWindow then (if isNew then Forget(s2, a) else s2).(ops := ended)
        else s2.(ops := s.ops[op := AwaitingWindow(a, isNew, index != seat.value, index)])
  }

  function WindowSettles(s: State, op: nat, ok: bool): State
    requires op < |s.ops| && s.ops[op].AwaitingWindow?
  {
    var AwaitingWindow(a, isNew, isMigration, index) := s.ops[op];
    if ok then s.(established := s.established + {a}, ops := s.ops[op := Finished])
    else if isMigration && a !in s.established then s.(ops := s.ops[op := RollingBack(a, false, Some(index))])
    else if a in s.windows && s.windows[a] >= FIRST_FORK && a !in s.established then
      s.(ops := s.ops[op := RollingBack(a, isNew, None)])
    else (if isNew then Forget(s, a) else s).(ops := s.ops[op := Finished])
  }

  function RollbackSettles(s: State, op: nat): State
    requires op < |s.ops| && s.ops[op].RollingBack?
  {
    var RollingBack(a, isNew, restoreFrom) := s.ops[op];
    var s' :=
      if restoreFrom.None? then if isNew then Forget(s, a) else s
      else if Get(s.windows, a) == restoreFrom then s.(windows := s.windows[a := PRIMARY], tokens := s.tokens - {a})
      else s;
    s'.(ops := s.ops[op := Finished])
  }

  function Release(s: State, a: Agent): State {
    var s' := Forget(s, a).(established := s.established - {a});
    if a in s.windows && s.windows[a] >= FIRST_FORK then
      s'.(tearing := s.tearing + {s.windows[a]}, ops := s.ops + [Releasing(s.windows[a])])
    else s'
  }

  function ReleaseSettles(s: State, op: nat): State
    requires op < |s.ops| && s.ops[op].Releasing?
  {
    s.(tearing := s.tearing - {s.ops[op].index}, ops := s.ops[op := Finished])
  }

  // Runs -------------------------------------------------------------------------------------------------------------

  datatype Step =
    | DoCall(agent: Agent)
    | DoLoadSettles(load: nat, outcome: Option<Document>)
    | DoLoadResumes(op: nat)
    | DoAssigns(op: nat)
    | DoReadySettles(op: nat, ok: bool, minted: string)
    | DoWindowSettles(op: nat, ok: bool)
    | DoRollbackSettles(op: nat)
    | DoRelease(agent: Agent)
    | DoReleaseSettles(op: nat)

  predicate Enabled(s: State, step: Step) {
    match step
    case DoCall(_) => true
    case DoLoadSettles(load, _) => load < |s.loads| && s.loads[load].Pending?
    case DoLoadResumes(op) =>
      op < |s.ops| && s.ops[op].AwaitingLoad? && s.ops[op].load < |s.loads| && !s.loads[s.ops[op].load].Pending?
    case DoAssigns(op) => op < |s.ops| && s.ops[op].Loaded?
    case DoReadySettles(op, _, minted) => op < |s.ops| && s.ops[op].AwaitingReady? && |minted| > 0
    case DoWindowSettles(op, _) => op < |s.ops| && s.ops[op].AwaitingWindow?
    case DoRollbackSettles(op) => op < |s.ops| && s.ops[op].RollingBack?
    case DoRelease(_) => true
    case DoReleaseSettles(op) => op < |s.ops| && s.ops[op].Releasing?
  }

  function Apply(c: Config, s: State, step: Step): State
    requires Enabled(s, step)
  {
    match step
    case DoCall(a) => Call(c, s, a)
    case DoLoadSettles(load, outcome) => LoadSettles(c, s, load, outcome)
    case DoLoadResumes(op) => LoadResumes(s, op)
    case DoAssigns(op) => Assigns(c, s, op)
    case DoReadySettles(op, ok, minted) => ReadySettles(c, s, op, ok, minted)
    case DoWindowSettles(op, ok) => WindowSettles(s, op, ok)
    case DoRollbackSettles(op) => RollbackSettles(s, op)
    case DoRelease(a) => Release(s, a)
    case DoReleaseSettles(op) => ReleaseSettles(s, op)
  }

  // What every interleaving keeps ------------------------------------------------------------------------------------

  ghost predicate OpInRange(c: Config, op: Op) {
    op.AwaitingReady? && op.seat.Some? ==> 1 <= op.seat.value <= c.maxWindowCount
  }

  ghost predicate Seats(c: Config, windows: map<Agent, int>, tokens: map<Agent, string>) {
    InRange(windows, c.maxWindowCount) && ForksUnique(windows) && TokensNonempty(tokens)
  }

  /** Holds in every interleaving: windows are in range and a fork has at most one agent. */
  ghost predicate Inv(c: Config, s: State) {
    && c.maxWindowCount >= 1
    && Seats(c, s.windows, s.tokens)
    && forall i :: 0 <= i < |s.ops| ==> OpInRange(c, s.ops[i])
  }

  ghost predicate TookFree(s: State, s': State, a: Agent, index: int) {
    index >= FIRST_FORK && IsFree(s, index) && s' == s.(windows := s.windows[a := index])
  }

  lemma TakeFreeKeeps(c: Config, s: State, a: Agent)
    requires Seats(c, s.windows, s.tokens)
    ensures
      var s' := TakeFree(c, s, a);
      && Seats(c, s'.windows, s'.tokens)
      && match FreeFork(c, s, FIRST_FORK)
         case Some(index) => index <= c.maxWindowCount && TookFree(s, s', a, index)
         case None => s' == s
  {
    FreeForkIsLeast(c, s, FIRST_FORK);
  }

  lemma ForgetKeeps(c: Config, s: State, a: Agent)
    requires Seats(c, s.windows, s.tokens)
    ensures Seats(c, Forget(s, a).windows, Forget(s, a).tokens)
  {
  }

  lemma MintKeeps(c: Config, s: State, a: Agent, minted: string)
    requires Seats(c, s.windows, s.tokens) && |minted| > 0
    ensures Seats(c, s.windows, s.tokens[a := minted])
  {
  }

  lemma RestoreKeeps(c: Config, s: State, a: Agent)
    requires c.maxWindowCount >= 1 && Seats(c, s.windows, s.tokens)
    ensures Seats(c, s.windows[a := PRIMARY], s.tokens - {a})
  {
  }

  lemma {:induction false} AdoptKeeps(c: Config, s: State, persisted: seq<(Agent, int)>, tokens: map<Agent, string>)
    requires Seats(c, s.windows, s.tokens)
    requires TokensNonempty(tokens) && forall e :: e in persisted ==> 1 <= e.1 <= c.maxWindowCount
    ensures
      var s' := Adopt(s, persisted, tokens);
      Seats(c, s'.windows, s'.tokens) && s' == s.(windows := s'.windows, tokens := s'.tokens)
  {
    if persisted != [] {
      AdoptKeeps(c, s, persisted[..|persisted| - 1], tokens);
    }
  }

  lemma StepKeepsInv(c: Config, s: State, step: Step)
    requires Inv(c, s) && Enabled(s, step)
    ensures Inv(c, Apply(c, s, step))
  {
    hide FreeFork, Adopt, Taken, TakenTokens, ReadySettles, Seats, Forget;
    match step
    case DoLoadSettles(load, outcome) => LoadKeepsInv(c, s, load, outcome);
    case DoAssigns(op) => AssignKeepsInv(c, s, op);
    case DoReadySettles(op, ok, minted) => ReadyKeepsInv(c, s, op, ok, minted);
    case DoWindowSettles(op, ok) => ForgetKeepsInv(c, s, s.ops[op].agent);
    case DoRollbackSettles(op) => ForgetKeepsInv(c, s, s.ops[op].agent); RestoreKeeps(c, s, s.ops[op].agent);
    case DoRelease(a) => ForgetKeepsInv(c, s, a);
    case _ =>
  }

  lemma ForgetKeepsInv(c: Config, s: State, a: Agent)
    requires Inv(c, s)
    ensures Inv(c, Forget(s, a)) && Forget(s, a) == s.(windows := Forget(s, a).windows, tokens := Forget(s, a).tokens)
  {
    hide Seats;
    ForgetKeeps(c, s, a);
  }

  lemma LoadKeepsInv(c: Config, s: State, load: nat, outcome: Option<Document>)
    requires Inv(c, s) && load < |s.loads|
    ensures Inv(c, LoadSettles(c, s, load, outcome))
  {
    hide Adopt, Assignments, Tokens, Seats;
    if outcome.Some? {
      DocumentInRange(outcome.value, c.maxWindowCount);
      AdoptKeeps(c, s, Assignments(outcome.value, c.maxWindowCount), Tokens(outcome.value, c.maxWindowCount));
    }
  }

  lemma AssignKeepsInv(c: Config, s: State, op: nat)
    requires Inv(c, s) && op < |s.ops| && s.ops[op].Loaded?
    ensures Inv(c, Assigns(c, s, op))
  {
    hide FreeFork, Seats;
    TakeFreeKeeps(c, s, s.ops[op].agent);
    SeatInRange(c, s, s.ops[op].agent);
  }

  lemma SeatInRange(c: Config, s: State, a: Agent)
    requires Inv(c, s)
    ensures a in s.windows ==> 1 <= s.windows[a] <= c.maxWindowCount
  {
  }

  /** What follows the migration of a primary seat, up to the next await. */
  lemma ReadyKeepsInv(c: Config, s: State, op: nat, ok: bool, minted: string)
    requires Inv(c, s) && op < |s.ops| && s.ops[op].AwaitingReady? && |minted| > 0
    ensures Inv(c, ReadySettles(c, s, op, ok, minted))
  {
    hide FreeFork, Seats, TakeFree, Forget, Migrate;
    var a, seat := s.ops[op].agent, s.ops[op].seat;
    if ok && seat.Some? {
      MigrateKeeps(c, s, a, seat.value);
      var s1 := Migrate(c, s, a, seat.value).0;
      MintKeeps(c, s1, a, minted);
      var s2 := if a in s1.tokens then s1 else s1.(tokens := s1.tokens[a := minted]);
      ForgetKeepsInv(c, s2, a);
    }
  }

  lemma MigrateKeeps(c: Config, s: State, a: Agent, seat: int)
    requires Inv(c, s)
    ensures
      var s' := Migrate(c, s, a, seat).0;
      Inv(c, s') && s' == s.(windows := s'.windows)
  {
    hide FreeFork, Seats;
    TakeFreeKeeps(c, s, a);
  }

  lemma DocumentInRange(doc: Document, maxWindowCount: int)
    ensures forall e :: e in Assignments(doc, maxWindowCount) ==> 1 <= e.1 <= maxWindowCount
    ensures TokensNonempty(Tokens(doc, maxWindowCount))
  {
    hide Taken, TakenTokens;
    if doc.Root? && doc.assignments.Some? {
      TakenInRange(doc.assignments.value, doc.tokens, maxWindowCount, |doc.assignments.value|);
    }
  }

  // Exclusive seats --------------------------------------------------------------------------------------------------

  /** No two agents at one window, and nobody at a window that is being torn down. */
  ghost predicate Exclusive(s: State) {
    && (forall a, b :: a in s.windows && b in s.windows && s.windows[a] == s.windows[b] ==> a == b)
    && (forall a :: a in s.windows ==> s.windows[a] !in s.tearing)
  }

  /** A failed load is forgotten by a call that waited for it, not by one that waited for an earlier one. */
  predicate NotStale(s: State, step: Step)
    requires Enabled(s, step)
  {
    step.DoLoadResumes? && s.loads[s.ops[step.op].load].Failed? ==>
      s.current.None? || s.current.value == s.ops[step.op].load
  }

  /** Only the agent whose persisted seat was the primary window is, was or will be there. */
  ghost predicate OwnsPrimary(windows: map<Agent, int>, owner: Option<Agent>) {
    forall a :: a in windows && windows[a] == PRIMARY ==> owner == Some(a)
  }

  ghost predicate OpOwned(op: Op, owner: Option<Agent>) {
    match op
    case AwaitingReady(a, _, seat) => seat == Some(PRIMARY) ==> owner == Some(a)
    case AwaitingWindow(a, _, isMigration, _) => isMigration ==> owner == Some(a)
    case RollingBack(a, _, restoreFrom) => restoreFrom.Some? ==> owner == Some(a)
    case _ => true
  }

  ghost predicate TornDown(windows: map<Agent, int>, tearing: set<int>) {
    && (forall i :: i in tearing ==> i >= FIRST_FORK)
    && (forall a :: a in windows ==> windows[a] !in tearing)
  }

  ghost predicate Untouched(s: State) {
    && s.windows == map[] && s.tearing == {}
    && forall i :: 0 <= i < |s.ops| ==> s.ops[i].AwaitingLoad? || s.ops[i].Finished?
  }

  ghost predicate SingleFlight(s: State) {
    && (forall l: nat :: l < |s.loads| && !s.loads[l].Failed? ==> s.current == Some(l))
    && (s.current.Some? ==> s.current.value < |s.loads|)
  }

  ghost predicate NoneSucceeded(loads: seq<Load>) { forall l :: 0 <= l < |loads| ==> !loads[l].Succeeded? }

  /** Holds as long as no call forgets a load it did not wait for. */
  ghost predicate Sound(c: Config, s: State, owner: Option<Agent>) {
    && Inv(c, s) && OwnsPrimary(s.windows, owner) && TornDown(s.windows, s.tearing) && SingleFlight(s)
    && (forall i :: 0 <= i < |s.ops| ==> OpOwned(s.ops[i], owner))
    && (c.persistAssignments && NoneSucceeded(s.loads) ==> Untouched(s) && owner == None)
    && (!c.persistAssignments ==> s.loads == [])
  }

  lemma SoundIsExclusive(c: Config, s: State, owner: Option<Agent>)
    requires Sound(c, s, owner)
    ensures Exclusive(s)
  {
    forall a, b | a in s.windows && b in s.windows && s.windows[a] == s.windows[b]
      ensures a == b
    {
      assert 1 <= s.windows[a];
    }
  }

  lemma {:induction false} AdoptIsExclusive(s: State, persisted: seq<(Agent, int)>, tokens: map<Agent, string>)
      returns (owner: Option<Agent>)
    requires s.windows == map[]
    ensures OwnsPrimary(Adopt(s, persisted, tokens).windows, owner)
  {
    if persisted == [] {
      owner := None;
    } else {
      owner := AdoptIsExclusive(s, persisted[..|persisted| - 1], tokens);
      var before := Adopt(s, persisted[..|persisted| - 1], tokens);
      var (a, index) := persisted[|persisted| - 1];
      if AdoptOne(before, a, index, tokens) != before && index == PRIMARY {
        owner := Some(a);
        forall b | b in before.windows
          ensures before.windows[b] != PRIMARY
        {
          assert before.windows[b] in before.windows.Values;
        }
      }
    }
  }

  lemma StepKeepsSound(c: Config, s: State, step: Step, owner: Option<Agent>) returns (owner': Option<Agent>)
    requires Sound(c, s, owner) && Enabled(s, step) && NotStale(s, step)
    ensures Sound(c, Apply(c, s, step), owner')
  {
    hide Inv, Sound, Call, LoadSettles, LoadResumes, Assigns, ReadySettles, WindowSettles, RollbackSettles, Release,
      ReleaseSettles;
    owner' := owner;
    match step
    case DoCall(a) => CallKeepsSound(c, s, a, owner);
    case DoLoadResumes(op) => ResumeKeepsSound(c, s, op, owner);
    case DoWindowSettles(op, ok) => WindowKeepsSound(c, s, op, ok, owner);
    case DoRollbackSettles(op) => RollbackKeepsSound(c, s, op, owner);
    case DoReleaseSettles(op) => TornDownKeepsSound(c, s, op, owner);
    case DoLoadSettles(load, outcome) => owner' := LoadKeepsSound(c, s, load, outcome, owner);
    case DoAssigns(op) => AssignKeepsSound(c, s, op, owner);
    case DoReadySettles(op, ok, minted) => ReadyKeepsSound(c, s, op, ok, minted, owner);
    case DoRelease(a) => ReleaseKeepsSound(c, s, a, owner);
  }

  lemma CallKeepsSound(c: Config, s: State, a: Agent, owner: Option<Agent>)
    requires Sound(c, s, owner)
    ensures Sound(c, Call(c, s, a), owner)
  {
    hide Inv;
    StepKeepsInv(c, s, DoCall(a));
    if c.persistAssignments && s.current.None? {
      assert Call(c, s, a).loads[..|s.loads|] == s.loads;
      assert NoneSucceeded(s.loads);
    }
  }

  lemma ResumeKeepsSound(c: Config, s: State, op: nat, owner: Option<Agent>)
    requires Sound(c, s, owner) && Enabled(s, DoLoadResumes(op)) && NotStale(s, DoLoadResumes(op))
    ensures Sound(c, LoadResumes(s, op), owner)
  {
    hide Inv;
    StepKeepsInv(c, s, DoLoadResumes(op));
  }

  lemma WindowKeepsSound(c: Config, s: State, op: nat, ok: bool, owner: Option<Agent>)
    requires Sound(c, s, owner) && op < |s.ops| && s.ops[op].AwaitingWindow?
    ensures Sound(c, WindowSettles(s, op, ok), owner)
  {
    hide Inv;
    StepKeepsInv(c, s, DoWindowSettles(op, ok));
    assert OpOwned(s.ops[op], owner);
    assert !Untouched(s);
  }

  lemma RollbackKeepsSound(c: Config, s: State, op: nat, owner: Option<Agent>)
    requires Sound(c, s, owner) && op < |s.ops| && s.ops[op].RollingBack?
    ensures Sound(c, RollbackSettles(s, op), owner)
  {
    hide Inv;
    StepKeepsInv(c, s, DoRollbackSettles(op));
    assert OpOwned(s.ops[op], owner);
    assert !Untouched(s);
  }

  lemma TornDownKeepsSound(c: Config, s: State, op: nat, owner: Option<Agent>)
    requires Sound(c, s, owner) && op < |s.ops| && s.ops[op].Releasing?
    ensures Sound(c, ReleaseSettles(s, op), owner)
  {
    hide Inv;
    StepKeepsInv(c, s, DoReleaseSettles(op));
    assert !Untouched(s);
  }

  lemma LoadKeepsSound(c: Config, s: State, load: nat, outcome: Option<Document>, owner: Option<Agent>)
      returns (owner': Option<Agent>)
    requires Sound(c, s, owner) && load < |s.loads| && s.loads[load].Pending?
    ensures Sound(c, LoadSettles(c, s, load, outcome), owner')
  {
    hide Adopt, Assignments, Tokens, Seats, Inv;
    LoadKeepsInv(c, s, load, outcome);
    owner' := owner;
    assert NoneSucceeded(s.loads);
    if outcome.Some? {
      var persisted, tokens := Assignments(outcome.value, c.maxWindowCount), Tokens(outcome.value, c.maxWindowCount);
      owner' := AdoptIsExclusive(s, persisted, tokens);
      AdoptFrame(s, persisted, tokens);
      assert LoadSettles(c, s, load, outcome).loads[load].Succeeded?;
    }
  }

  lemma {:induction false} AdoptFrame(s: State, persisted: seq<(Agent, int)>, tokens: map<Agent, string>)
    ensures var s' := Adopt(s, persisted, tokens); s' == s.(windows := s'.windows, tokens := s'.tokens)
  {
    if persisted != [] {
      AdoptFrame(s, persisted[..|persisted| - 1], tokens);
    }
  }

  lemma AssignKeepsSound(c: Config, s: State, op: nat, owner: Option<Agent>)
    requires Sound(c, s, owner) && op < |s.ops| && s.ops[op].Loaded?
    ensures Sound(c, Assigns(c, s, op), owner)
  {
    hide FreeFork, Seats, TakeFree;
    AssignKeepsInv(c, s, op);
    TakeFreeKeeps(c, s, s.ops[op].agent);
  }

  lemma MigrateKeepsSound(c: Config, s: State, a: Agent, seat: int, owner: Option<Agent>)
    requires Sound(c, s, owner) && 1 <= seat
    ensures
      var (s', index) := Migrate(c, s, a, seat);
      && s' == s.(windows := s'.windows) && OwnsPrimary(s'.windows, owner) && TornDown(s'.windows, s.tearing)
      && (index != seat ==> seat == PRIMARY)
  {
    hide FreeFork, Seats, TakeFree;
    TakeFreeKeeps(c, s, a);
  }

  lemma ReadyKeepsSound(c: Config, s: State, op: nat, ok: bool, minted: string, owner: Option<Agent>)
    requires Sound(c, s, owner) && op < |s.ops| && s.ops[op].AwaitingReady? && |minted| > 0
    ensures Sound(c, ReadySettles(c, s, op, ok, minted), owner)
  {
    hide FreeFork, Seats, TakeFree, Migrate;
    ReadyKeepsInv(c, s, op, ok, minted);
    var a, seat := s.ops[op].agent, s.ops[op].seat;
    assert OpOwned(s.ops[op], owner) && OpInRange(c, s.ops[op]);
    assert !Untouched(s);
    if ok && seat.Some? {
      MigrateKeepsSound(c, s, a, seat.value, owner);
    }
  }

  lemma ReleaseKeepsSound(c: Config, s: State, a: Agent, owner: Option<Agent>)
    requires Sound(c, s, owner)
    ensures Sound(c, Release(s, a), owner)
  {
    hide Inv, ForksUnique;
    StepKeepsInv(c, s, DoRelease(a));
    if a in s.windows {
      assert !Untouched(s);
      if s.windows[a] >= FIRST_FORK {
        OthersElsewhere(c, s, a);
      }
    } else {
      assert s.windows - {a} == s.windows;
    }
  }

  lemma OthersElsewhere(c: Config, s: State, a: Agent)
    requires Inv(c, s) && a in s.windows && s.windows[a] >= FIRST_FORK
    ensures forall b :: b in s.windows && b != a ==> s.windows[b] != s.windows[a]
  {
  }

  // What each segment does -------------------------------------------------------------------------------------------

  /** An agent that is released has no seat, no token and no window of its own any more. If its seat was a fork, that is
      in teardown from now on, until the release is through. */
  lemma ReleaseForgets(s: State, a: Agent, b: Agent)
    requires a != b
    ensures
      var (s', seat) := (Release(s, a), Get(s.windows, a));
      && a !in s'.windows && a !in s'.tokens && a !in s'.established
      && Get(s'.windows, b) == Get(s.windows, b) && Get(s'.tokens, b) == Get(s.tokens, b)
      && (b in s'.established <==> b in s.established) && s'.current == s.current && s'.loads == s.loads
      && if seat.Some? && seat.value >= 2 then
           && s'.tearing == s.tearing + {seat.value} && s'.ops == s.ops + [Releasing(seat.value)]
           && ReleaseSettles(s', |s.ops|) == s'.(tearing := s'.tearing - {seat.value}, ops := s.ops + [Finished])
         else s'.tearing == s.tearing && s'.ops == s.ops
  {
    var seat := Get(s.windows, a);
    if seat.Some? && seat.value >= 2 {
      assert (s.ops + [Releasing(seat.value)])[|s.ops| := Finished] == s.ops + [Finished];
    }
  }

  /** The least fork that is free. */
  ghost predicate IsLeastFree(c: Config, s: State, f: int) {
    2 <= f <= c.maxWindowCount && IsFree(s, f) && forall i :: 2 <= i < f ==> !IsFree(s, i)
  }

  /** A call is new exactly if its agent has no seat; then it gets the least fork that is free, if there is one. */
  lemma AssignsASeat(c: Config, s: State, op: nat, f: int)
    requires op < |s.ops| && s.ops[op].Loaded?
    ensures
      var (s', a) := (Assigns(c, s, op), s.ops[op].agent);
      && s'.ops == s.ops[op := AwaitingReady(a, a !in s.windows, Get(s'.windows, a))]
      && s' == s.(windows := s'.windows, ops := s'.ops)
      && (a in s.windows || (forall i :: !IsLeastFree(c, s, i)) ==> s'.windows == s.windows)
      && (a !in s.windows && IsLeastFree(c, s, f) ==> s'.windows == s.windows[a := f])
  {
    FreeForkIsLeast(c, s, 2);
    var found := FreeFork(c, s, 2);
    assert found.Some? ==> IsLeastFree(c, s, found.value);
  }

  /** What a call that has been assigned does when the desktop is ready: a seat at the primary window moves to a fork,
      if one is free and windows can be brought up;
        at a fork the agent has a token, the one it had or a new one, and the
      fork is brought up, or given back if that cannot be done and the seat is new. */
  lemma ReadyMeans(c: Config, s: State, op: nat, minted: string, f: int)
    requires op < |s.ops| && s.ops[op].AwaitingReady? && s.ops[op].seat.Some? && IsLeastFree(c, s, f)
    ensures
      var AwaitingReady(a, isNew, seat) := s.ops[op];
      var s' := ReadySettles(c, s, op, true, minted);
      var now := if a in s.windows then s.windows[a] else seat.value;
      var index := if seat.value >= 2 || !c.hasEnsureWindow then seat.value else if now >= 2 then now else f;
      && s' == s.(windows := s'.windows, tokens := s'.tokens, ops := s'.ops)
      && if index < 2 then s'.ops == s.ops[op := Finished] && s'.windows == s.windows && s'.tokens == s.tokens
         else if c.hasEnsureWindow then
           && s'.ops == s.ops[op := AwaitingWindow(a, isNew, index != seat.value, index)]
           && s'.windows == (if seat.value < 2 && now < 2 then s.windows[a := f] else s.windows)
           && s'.tokens == (if a in s.tokens then s.tokens else s.tokens[a := minted])
         else
           && s'.ops == s.ops[op := Finished]
           && s'.windows == (if isNew then s.windows - {a} else s.windows)
           && s'.tokens == (if isNew then s.tokens - {a} else if a in s.tokens then s.tokens else s.tokens[a := minted])
  {
    FreeForkIsLeast(c, s, 2);
    var a := s.ops[op].agent;
    assert s.tokens[a := minted] - {a} == s.tokens - {a};
  }

  /** With no fork free, a seat at the primary window stays. A desktop that is not ready, or no seat, ends the call. */
  lemma ReadyWithoutFork(c: Config, s: State, op: nat, ok: bool, minted: string)
    requires op < |s.ops| && s.ops[op].AwaitingReady?
    requires
      || !ok || s.ops[op].seat.None?
      || (s.ops[op].seat.value < 2 && Get(s.windows, s.ops[op].agent) in {None, Some(1)} &&
        forall i :: !IsLeastFree(c, s, i))
    ensures ReadySettles(c, s, op, ok, minted) == s.(ops := s.ops[op := Finished])
  {
    FreeForkIsLeast(c, s, 2);
    var found := FreeFork(c, s, 2);
    assert found.Some? ==> IsLeastFree(c, s, found.value);
  }

  /** A window that has come up makes its agent established, and changes no seat. One that fails is taken back: a
      migration of an agent that is not established goes back to the primary window, if the agent is still at the fork,
      and its token is gone; else a new seat is forgotten. The fork of an agent that is not established is released
      first. */
  lemma WindowMeans(s: State, op: nat)
    requires op < |s.ops| && s.ops[op].AwaitingWindow?
    ensures
      var AwaitingWindow(a, isNew, isMigration, index) := s.ops[op];
      var failed := WindowSettles(s, op, false);
      var ended := s.ops[op := Finished];
      var restores := isMigration && a !in s.established;
      var releases := a in s.windows && s.windows[a] >= 2 && a !in s.established;
      && WindowSettles(s, op, true) == s.(established := s.established + {a}, ops := ended)
      && (restores || releases ==>
            && failed == s.(ops := s.ops[op :=
              RollingBack(a, isNew && !restores, if restores then Some(index) else None)])
            && RollbackSettles(failed, op) ==
               if restores then
                 if Get(s.windows, a) == Some(index) then
                   s.(windows := s.windows[a := 1], tokens := s.tokens - {a}, ops := ended)
                 else s.(ops := ended)
               else if isNew then s.(windows := s.windows - {a}, tokens := s.tokens - {a}, ops := ended)
               else s.(ops := ended))
      && (!restores && !releases ==>
            failed == if isNew then s.(windows := s.windows - {a}, tokens := s.tokens - {a}, ops := ended)
              else s.(ops := ended))
  {
    var AwaitingWindow(a, isNew, isMigration, index) := s.ops[op];
    assert s.ops[op := RollingBack(a, isNew, None)][op := Finished] == s.ops[op := Finished];
    assert s.ops[op := RollingBack(a, false, Some(index))][op := Finished] == s.ops[op := Finished];
  }

  // One call by itself -----------------------------------------------------------------------------------------------

  /** A call that nothing comes between: if its window comes up, the agent has a fork and a token; if it does not, the
      seats are as they were before, unless the agent's windows have come up before. */
  lemma UndisturbedCall(c: Config, s: State, op: nat, minted: string)
    requires Inv(c, s) && op < |s.ops| && s.ops[op].Loaded? && |minted| > 0
    ensures
      var a, s2 := s.ops[op].agent, ReadySettles(c, Assigns(c, s, op), op, true, minted);
      if !s2.ops[op].AwaitingWindow? then s2.ops[op].Finished? && s2.windows == s.windows
      else
        && a in s2.windows && s2.windows[a] == s2.ops[op].index >= FIRST_FORK && a in s2.tokens
        && (a in s.windows && s.windows[a] >= FIRST_FORK ==> s2.windows == s.windows)
        && WindowSettles(s2, op, true).windows == s2.windows && a in WindowSettles(s2, op, true).established
        && var failed := WindowSettles(s2, op, false);
           var undone := if failed.ops[op].RollingBack? then RollbackSettles(failed, op) else failed;
           undone.ops[op].Finished? && (a !in s.established ==> undone.windows == s.windows)
  {
    hide FreeFork, Seats;
    var a := s.ops[op].agent;
    SeatInRange(c, s, a);
    TakeFreeKeeps(c, s, a);
    AssignKeepsInv(c, s, op);
    var s1 := Assigns(c, s, op);
    TakeFreeKeeps(c, s1, a);
  }

  // Whole runs -------------------------------------------------------------------------------------------------------

  predicate Possible(c: Config, s: State, steps: seq<Step>)
    decreases steps
  {
    steps != [] ==> Enabled(s, steps[0]) && Possible(c, Apply(c, s, steps[0]), steps[1..])
  }

  function Final(c: Config, s: State, steps: seq<Step>): State
    requires Possible(c, s, steps)
    decreases steps
  {
    if steps == [] then s else Final(c, Apply(c, s, steps[0]), steps[1..])
  }

  predicate NeverStale(c: Config, s: State, steps: seq<Step>)
    requires Possible(c, s, steps)
    decreases steps
  {
    steps != [] ==> NotStale(s, steps[0]) && NeverStale(c, Apply(c, s, steps[0]), steps[1..])
  }

  /** In every interleaving, windows are in range and no fork has two agents. */
  lemma {:induction false} ForksNeverShared(c: Config, s: State, steps: seq<Step>)
    requires Inv(c, s) && Possible(c, s, steps)
    ensures Inv(c, Final(c, s, steps))
    decreases steps
  {
    hide Inv, Apply, Enabled;
    if steps != [] {
      StepKeepsInv(c, s, steps[0]);
      ForksNeverShared(c, Apply(c, s, steps[0]), steps[1..]);
    }
  }

  lemma {:induction false} SoundRun(c: Config, s: State, steps: seq<Step>, owner: Option<Agent>)
    requires Sound(c, s, owner) && Possible(c, s, steps) && NeverStale(c, s, steps)
    ensures Exclusive(Final(c, s, steps))
    decreases steps
  {
    hide Sound, Apply, Enabled, NotStale, Exclusive;
    if steps == [] {
      SoundIsExclusive(c, s, owner);
    } else {
      var owner' := StepKeepsSound(c, s, steps[0], owner);
      SoundRun(c, Apply(c, s, steps[0]), steps[1..], owner');
    }
  }

  /** Seats are exclusive in every run in which no call forgets a load it did not wait for. */
  lemma SeatsAreExclusive(c: Config, steps: seq<Step>)
    requires c.maxWindowCount >= 1 && Possible(c, Initial(), steps) && NeverStale(c, Initial(), steps)
    ensures Exclusive(Final(c, Initial(), steps))
  {
    hide Possible, NeverStale, Final, Exclusive;
    SoundRun(c, Initial(), steps, None);
  }

  // The guard the code lacks -----------------------------------------------------------------------------------------

  /** With no fork to hand out, or nothing to load, no run can go wrong. */
  ghost predicate Single(c: Config, s: State) {
    && Inv(c, s) && s.tearing == {} && AtMostOne(s.windows)
    && forall i :: 0 <= i < |s.ops| ==> !s.ops[i].AwaitingWindow? && !s.ops[i].RollingBack? && !s.ops[i].Releasing?
  }

  ghost predicate AtMostOne(windows: map<Agent, int>) { forall a, b :: a in windows && b in windows ==> a == b }

  lemma {:induction false} AdoptsAtMostOne(s: State, persisted: seq<(Agent, int)>, tokens: map<Agent, string>)
    requires InRange(s.windows, 1) && AtMostOne(s.windows) && forall e :: e in persisted ==> 1 <= e.1 <= 1
    ensures InRange(Adopt(s, persisted, tokens).windows, 1) && AtMostOne(Adopt(s, persisted, tokens).windows)
  {
    if persisted != [] {
      AdoptsAtMostOne(s, persisted[..|persisted| - 1], tokens);
      var before := Adopt(s, persisted[..|persisted| - 1], tokens);
      forall a | a in before.windows
        ensures 1 in before.windows.Values
      {
        assert before.windows[a] in before.windows.Values;
      }
    }
  }

  lemma StepKeepsSingle(c: Config, s: State, step: Step)
    requires c.maxWindowCount == 1 && Single(c, s) && Enabled(s, step)
    ensures Single(c, Apply(c, s, step))
  {
    hide Adopt, Assignments, Tokens, Inv, AtMostOne;
    StepKeepsInv(c, s, step);
    InvInRange(c, s);
    match step
    case DoLoadSettles(load, outcome) =>
      if outcome.Some? {
        DocumentInRange(outcome.value, 1);
        AdoptFrame(s, Assignments(outcome.value, 1), Tokens(outcome.value, 1));
        AdoptsAtMostOne(s, Assignments(outcome.value, 1), Tokens(outcome.value, 1));
      }
    case DoReadySettles(op, ok, _) => assert OpInRange(c, s.ops[op]);
    case DoRelease(a) => FewerAreAtMostOne(s.windows, a);
    case _ =>
  }

  lemma InvInRange(c: Config, s: State)
    requires Inv(c, s)
    ensures InRange(s.windows, c.maxWindowCount) && forall i :: 0 <= i < |s.ops| ==> OpInRange(c, s.ops[i])
  {
  }

  lemma FewerAreAtMostOne(windows: map<Agent, int>, a: Agent)
    requires AtMostOne(windows)
    ensures AtMostOne(windows - {a})
  {
  }

  lemma {:induction false} SingleRun(c: Config, s: State, steps: seq<Step>)
    requires c.maxWindowCount == 1 && Single(c, s) && Possible(c, s, steps)
    ensures Exclusive(Final(c, s, steps))
    decreases steps
  {
    hide Apply, Enabled, Inv;
    if steps != [] {
      StepKeepsSingle(c, s, steps[0]);
      SingleRun(c, Apply(c, s, steps[0]), steps[1..]);
    }
  }

  lemma {:induction false} NothingToForget(c: Config, s: State, steps: seq<Step>, owner: Option<Agent>)
    requires !c.persistAssignments && Sound(c, s, owner) && Possible(c, s, steps)
    ensures NeverStale(c, s, steps)
    decreases steps
  {
    assert s.loads == [];
    hide Sound, Apply;
    if steps != [] {
      var owner' := StepKeepsSound(c, s, steps[0], owner);
      NothingToForget(c, Apply(c, s, steps[0]), steps[1..], owner');
    }
  }

  lemma Prepend(c: Config, s: State, step: Step, rest: seq<Step>)
    requires Enabled(s, step) && Possible(c, Apply(c, s, step), rest)
    ensures Possible(c, s, [step] + rest) && Final(c, s, [step] + rest) == Final(c, Apply(c, s, step), rest)
  {
    hide Apply, Enabled;
    assert ([step] + rest)[1..] == rest;
  }

  ghost predicate CanEndUp(c: Config, s: State, end: State) {
    exists steps :: Possible(c, s, steps) && Final(c, s, steps) == end
  }

  lemma Steps(c: Config, s: State, step: Step, end: State)
    requires Enabled(s, step) && CanEndUp(c, Apply(c, s, step), end)
    ensures CanEndUp(c, s, end)
  {
    hide Apply, Enabled;
    var rest :| Possible(c, Apply(c, s, step), rest) && Final(c, Apply(c, s, step), rest) == end;
    Prepend(c, s, step, rest);
  }

  /** A call's load has failed and is still remembered when a second call comes and awaits it. The first forgets it and
      another call starts a load, which the second then forgets, so that a third is started: two are under way. */
  function TwoLoads(): State {
    State(map[], map[], {}, {}, Some(2), [Failed, Pending, Pending],
          [Finished, Finished, AwaitingLoad("a", 1), AwaitingLoad("b", 2)])
  }

  lemma TwoLoadsHappen(c: Config, end: State)
    requires c.persistAssignments && CanEndUp(c, TwoLoads(), end)
    ensures CanEndUp(c, Initial(), end)
  {
    hide CanEndUp;
    var s0 := Initial();
    var s1 := Apply(c, s0, DoCall("a"));
    var s2 := Apply(c, s1, DoLoadSettles(0, None));
    var s3 := Apply(c, s2, DoCall("b"));
    var s4 := Apply(c, s3, DoLoadResumes(0));
    var s5 := Apply(c, s4, DoCall("a"));
    var s6 := Apply(c, s5, DoLoadResumes(1));
    var s7 := Apply(c, s6, DoCall("b"));
    assert s7 == TwoLoads();
    Steps(c, s6, DoCall("b"), end);
    Steps(c, s5, DoLoadResumes(1), end);
    Steps(c, s4, DoCall("a"), end);
    Steps(c, s3, DoLoadResumes(0), end);
    Steps(c, s2, DoCall("b"), end);
    Steps(c, s1, DoLoadSettles(0, None), end);
    Steps(c, s0, DoCall("a"), end);
  }

  lemma NoStepsLeft(c: Config, s: State)
    ensures CanEndUp(c, s, s)
  {
    assert Possible(c, s, []) && Final(c, s, []) == s;
  }

  lemma ReadsOne(a: Agent, index: int, maxWindowCount: int)
    requires 1 <= index <= maxWindowCount
    ensures Assignments(Root(Some([(a, Number(index))]), None), maxWindowCount) == [(a, index)]
    ensures Tokens(Root(Some([(a, Number(index))]), None), maxWindowCount) == map[]
  {
    var raw := [(a, Number(index))];
    assert Takes(raw, maxWindowCount, 0);
    assert Taken(raw, maxWindowCount, 0) == [];
    assert TakenTokens(raw, None, maxWindowCount, 0) == map[];
  }

  /** The later load puts the agent back at the window it has just left. */
  lemma WindowInTeardownIsMapped(c: Config) returns (end: State)
    requires c.persistAssignments && c.maxWindowCount >= FIRST_FORK
    ensures CanEndUp(c, Initial(), end) && Get(end.windows, "c") == Some(2) && 2 in end.tearing
  {
    hide CanEndUp, Assignments, Tokens;
    var doc := Root(Some([("c", Number(2))]), None);
    ReadsOne("c", 2, c.maxWindowCount);
    var s0 := TwoLoads();
    var s1 := Apply(c, s0, DoLoadSettles(1, Some(doc)));
    AdoptsOne(s0, "c", 2);
    var s2 := Apply(c, s1, DoRelease("c"));
    AdoptsOne(s2, "c", 2);
    assert s1.windows == map["c" := 2] && s2.windows == map[] && s2.tearing == {2};
    assert AdoptOne(s2, "c", 2, map[]).windows == map["c" := 2];
    end := Apply(c, s2, DoLoadSettles(2, Some(doc)));
    assert end.windows["c"] == 2;
    assert 2 in end.tearing;
    NoStepsLeft(c, end);
    Steps(c, s2, DoLoadSettles(2, Some(doc)), end);
    Steps(c, s1, DoRelease("c"), end);
    Steps(c, s0, DoLoadSettles(1, Some(doc)), end);
    TwoLoadsHappen(c, end);
  }

  lemma AdoptsOne(s: State, a: Agent, index: int)
    ensures Adopt(s, [(a, index)], map[]) == AdoptOne(s, a, index, map[])
  {
    assert Adopt(s, [], map[]) == s;
    assert [(a, index)][..0] == [];
  }

  lemma NotExclusive(s: State, a: Agent)
    requires a in s.windows && s.windows[a] in s.tearing
    ensures !Exclusive(s)
  {
  }

  /** The seats are exclusive in every interleaving exactly when there is nothing to load or no fork to hand out. */
  lemma ExclusiveWhateverTheInterleaving(c: Config)
    requires c.maxWindowCount >= 1
    ensures (forall end :: CanEndUp(c, Initial(), end) ==> Exclusive(end)) <==>
      !c.persistAssignments || c.maxWindowCount == 1
  {
    hide Possible, Final, NeverStale, Exclusive;
    if c.persistAssignments && c.maxWindowCount >= FIRST_FORK {
      var end := WindowInTeardownIsMapped(c);
      NotExclusive(end, "c");
    } else {
      forall end | CanEndUp(c, Initial(), end)
        ensures Exclusive(end)
      {
        var steps :| Possible(c, Initial(), steps) && Final(c, Initial(), steps) == end;
        if c.persistAssignments {
          SingleRun(c, Initial(), steps);
        } else {
          NothingToForget(c, Initial(), steps, None);
          SeatsAreExclusive(c, steps);
        }
      }
    }
  }

  // Whose window comes up --------------------------------------------------------------------------------------------

  /** A window comes up only for the agent that is seated there. */
  ghost predicate OwnWindows(s: State) {
    forall i :: 0 <= i < |s.ops| && s.ops[i].AwaitingWindow? ==> Get(s.windows, s.ops[i].agent) == Some(s.ops[i].index)
  }

  /** A call from the assignment of its agent's window until that is up. */
  predicate IsUnderWay(op: Op, a: Agent) {
    match op
    case AwaitingReady(b, _, seat) => b == a && seat.Some?
    case AwaitingWindow(b, _, _, _) => b == a
    case _ => false
  }

  /** Its agent still has the seat, or has moved from the primary one to a fork. */
  ghost predicate SeatedOp(windows: map<Agent, int>, op: Op) {
    match op
    case AwaitingReady(a, _, seat) =>
      seat.Some? ==> a in windows && (windows[a] == seat.value || (IsPrimary(seat.value) && windows[a] >= FIRST_FORK))
    case AwaitingWindow(a, _, _, index) => index >= FIRST_FORK && Get(windows, a) == Some(index)
    case _ => true
  }

  ghost predicate Seated(s: State) { forall i :: 0 <= i < |s.ops| ==> SeatedOp(s.windows, s.ops[i]) }

  /** The agent that a release, a call that is undone, or a rollback may take the seat from. */
  function Unseats(c: Config, s: State, step: Step): Option<Agent>
    requires Enabled(s, step)
  {
    match step
    case DoRelease(a) => Some(a)
    case DoReadySettles(op, _, _) => if c.hasEnsureWindow then None else Some(s.ops[op].agent)
    case DoWindowSettles(op, ok) => if ok then None else Some(s.ops[op].agent)
    case DoRollbackSettles(op) => Some(s.ops[op].agent)
    case _ => None
  }

  predicate IsOwnOp(step: Step, i: int) {
    (step.DoReadySettles? || step.DoWindowSettles? || step.DoRollbackSettles?) && step.op == i
  }

  /** No agent is unseated while another call of it is under way. */
  predicate Undisturbing(c: Config, s: State, step: Step)
    requires Enabled(s, step)
  {
    var a := Unseats(c, s, step);
    a.Some? ==> forall i :: 0 <= i < |s.ops| && !IsOwnOp(step, i) ==> !IsUnderWay(s.ops[i], a.value)
  }

  predicate NeverDisturbed(c: Config, s: State, steps: seq<Step>)
    requires Possible(c, s, steps)
    decreases steps
  {
    steps != [] ==> Undisturbing(c, s, steps[0]) && NeverDisturbed(c, Apply(c, s, steps[0]), steps[1..])
  }

  /** Other agents' calls are not concerned by what happens to one agent's seat. */
  lemma OtherSeats(windows: map<Agent, int>, after: map<Agent, int>, a: Agent, op: Op)
    requires SeatedOp(windows, op) && !IsUnderWay(op, a)
    requires forall b :: b != a ==> Get(after, b) == Get(windows, b)
    ensures SeatedOp(after, op)
  {
    if op.AwaitingReady? && op.agent != a {
      assert Get(after, op.agent) == Get(windows, op.agent);
    } else if op.AwaitingWindow? {
      assert Get(after, op.agent) == Get(windows, op.agent);
    }
  }

  /** What an agent has already, its window and its token, it keeps when persisted seats are adopted. */
  lemma {:induction false} AdoptKeepsSeats(s: State, persisted: seq<(Agent, int)>, tokens: map<Agent, string>)
    ensures forall a :: a in s.windows ==> Get(Adopt(s, persisted, tokens).windows, a) == Get(s.windows, a)
    ensures forall a :: a in s.tokens ==> Get(Adopt(s, persisted, tokens).tokens, a) == Get(s.tokens, a)
  {
    if persisted != [] {
      AdoptKeepsSeats(s, persisted[..|persisted| - 1], tokens);
    }
  }

  lemma SeatsOnlyAdded(windows: map<Agent, int>, after: map<Agent, int>, op: Op)
    requires SeatedOp(windows, op) && forall a :: a in windows ==> Get(after, a) == Get(windows, a)
    ensures SeatedOp(after, op)
  {
  }

  lemma MigrationSeats(windows: map<Agent, int>, a: Agent, fork: int, op: Op)
    requires SeatedOp(windows, op) && a in windows && IsPrimary(windows[a]) && fork >= FIRST_FORK
    requires op.AwaitingReady? && op.seat.Some? ==> op.seat.value >= 1
    ensures SeatedOp(windows[a := fork], op)
  {
  }

  lemma StepKeepsSeated(c: Config, s: State, step: Step)
    requires Inv(c, s) && Seated(s) && Enabled(s, step) && Undisturbing(c, s, step)
    ensures Seated(Apply(c, s, step))
  {
    var s' := Apply(c, s, step);
    forall i | 0 <= i < |s'.ops|
      ensures SeatedOp(s'.windows, s'.ops[i])
    {
      if i < |s.ops| {
        assert SeatedOp(s.windows, s.ops[i]);
      }
      StepSeats(c, s, step, i);
    }
  }

  lemma StepSeats(c: Config, s: State, step: Step, i: int)
    requires Inv(c, s) && Seated(s) && Enabled(s, step) && Undisturbing(c, s, step) && 0 <= i < |Apply(c, s, step).ops|
    ensures SeatedOp(Apply(c, s, step).windows, Apply(c, s, step).ops[i])
  {
    hide Inv, SeatedOp, FreeFork, TakeFree, Adopt, Assignments, Tokens, Migrate, IsUnderWay;
    match step
    case DoCall(a) => FreshOp(s.windows, Call(c, s, a).ops[i]);
    case DoLoadSettles(load, outcome) =>
      if outcome.Some? {
        var persisted, tokens := Assignments(outcome.value, c.maxWindowCount), Tokens(outcome.value, c.maxWindowCount);
        AdoptFrame(s, persisted, tokens);
        AdoptKeepsSeats(s, persisted, tokens);
        SeatsOnlyAdded(s.windows, Adopt(s, persisted, tokens).windows, s.ops[i]);
      }
    case DoLoadResumes(op) => FreshOp(s.windows, LoadResumes(s, op).ops[i]);
    case DoAssigns(op) => AssignSeats(c, s, op, i);
    case DoReadySettles(op, ok, minted) => ReadySeats(c, s, op, ok, minted, i);
    case DoWindowSettles(op, ok) => WindowSeats(c, s, op, ok, i);
    case DoRollbackSettles(op) => RollbackSeats(c, s, op, i);
    case DoRelease(a) => ReleaseSeats(s, a, i);
    case DoReleaseSettles(op) => FreshOp(s.windows, ReleaseSettles(s, op).ops[i]);
  }

  /** An op that is not under way claims no seat. */
  lemma FreshOp(windows: map<Agent, int>, op: Op)
    ensures op.AwaitingLoad? || op.Loaded? || op.RollingBack? || op.Releasing? || op.Finished? ==> SeatedOp(windows, op)
  {
  }

  lemma AssignSeats(c: Config, s: State, op: nat, i: int)
    requires Inv(c, s) && Seated(s) && op < |s.ops| && s.ops[op].Loaded? && 0 <= i < |s.ops|
    ensures SeatedOp(Assigns(c, s, op).windows, Assigns(c, s, op).ops[i])
  {
    hide FreeFork, Seats, TakeFree;
    TakeFreeKeeps(c, s, s.ops[op].agent);
    assert SeatedOp(s.windows, s.ops[i]);
  }

  lemma ReadySeats(c: Config, s: State, op: nat, ok: bool, minted: string, i: int)
    requires Inv(c, s) && Seated(s) && op < |s.ops| && s.ops[op].AwaitingReady? && |minted| > 0 && 0 <= i < |s.ops|
    requires Undisturbing(c, s, DoReadySettles(op, ok, minted))
    ensures SeatedOp(ReadySettles(c, s, op, ok, minted).windows, ReadySettles(c, s, op, ok, minted).ops[i])
  {
    hide FreeFork, Seats, TakeFree, IsUnderWay;
    var a := s.ops[op].agent;
    assert SeatedOp(s.windows, s.ops[op]) && SeatedOp(s.windows, s.ops[i]) && OpInRange(c, s.ops[i]) &&
      OpInRange(c, s.ops[op]);
    TakeFreeKeeps(c, s, a);
    if c.hasEnsureWindow {
      if a in s.windows && IsPrimary(s.windows[a]) && FreeFork(c, s, FIRST_FORK).Some? {
        MigrationSeats(s.windows, a, FreeFork(c, s, FIRST_FORK).value, s.ops[i]);
      }
    } else if i != op {
      OtherSeats(s.windows, s.windows - {a}, a, s.ops[i]);
    }
  }

  lemma WindowSeats(c: Config, s: State, op: nat, ok: bool, i: int)
    requires Seated(s) && op < |s.ops| && s.ops[op].AwaitingWindow? && 0 <= i < |s.ops|
    requires Undisturbing(c, s, DoWindowSettles(op, ok))
    ensures SeatedOp(WindowSettles(s, op, ok).windows, WindowSettles(s, op, ok).ops[i])
  {
    hide IsUnderWay;
    var a := s.ops[op].agent;
    assert SeatedOp(s.windows, s.ops[i]);
    if i != op && !ok {
      OtherSeats(s.windows, s.windows - {a}, a, s.ops[i]);
    }
  }

  lemma RollbackSeats(c: Config, s: State, op: nat, i: int)
    requires Seated(s) && op < |s.ops| && s.ops[op].RollingBack? && 0 <= i < |s.ops|
    requires Undisturbing(c, s, DoRollbackSettles(op))
    ensures SeatedOp(RollbackSettles(s, op).windows, RollbackSettles(s, op).ops[i])
  {
    hide IsUnderWay;
    var a := s.ops[op].agent;
    assert SeatedOp(s.windows, s.ops[i]);
    if i != op {
      OtherSeats(s.windows, s.windows - {a}, a, s.ops[i]);
      OtherSeats(s.windows, s.windows[a := PRIMARY], a, s.ops[i]);
    }
  }

  lemma ReleaseSeats(s: State, a: Agent, i: int)
    requires Seated(s) && 0 <= i < |Release(s, a).ops|
    requires forall j :: 0 <= j < |s.ops| ==> !IsUnderWay(s.ops[j], a)
    ensures SeatedOp(Release(s, a).windows, Release(s, a).ops[i])
  {
    hide IsUnderWay;
    if i < |s.ops| {
      assert SeatedOp(s.windows, s.ops[i]);
      OtherSeats(s.windows, s.windows - {a}, a, s.ops[i]);
    }
  }

  lemma {:induction false} SeatedRun(c: Config, s: State, steps: seq<Step>)
    requires Inv(c, s) && Seated(s) && Possible(c, s, steps) && NeverDisturbed(c, s, steps)
    ensures OwnWindows(Final(c, s, steps))
    decreases steps
  {
    hide Apply, Enabled, Undisturbing, Inv, Seated;
    if steps == [] {
      SeatedMeansOwn(s);
    } else {
      StepKeepsInv(c, s, steps[0]);
      StepKeepsSeated(c, s, steps[0]);
      SeatedRun(c, Apply(c, s, steps[0]), steps[1..]);
    }
  }

  lemma SeatedMeansOwn(s: State)
    requires Seated(s)
    ensures OwnWindows(s)
  {
    forall i | 0 <= i < |s.ops| && s.ops[i].AwaitingWindow?
      ensures Get(s.windows, s.ops[i].agent) == Some(s.ops[i].index)
    {
      assert SeatedOp(s.windows, s.ops[i]);
    }
  }

  /** In every run in which no agent is released or rolled back during another call of its own, a window comes up only
      for the agent that is seated there. */
  lemma WindowsComeUpForTheirAgents(c: Config, steps: seq<Step>)
    requires c.maxWindowCount >= 1 && Possible(c, Initial(), steps) && NeverDisturbed(c, Initial(), steps)
    ensures OwnWindows(Final(c, Initial(), steps))
  {
    hide Possible, NeverDisturbed, Final, OwnWindows;
    SeatedRun(c, Initial(), steps);
  }

  /** Two calls whose seats are loaded. */
  function TwoCalls(c: Config): State {
    if c.persistAssignments then State(map[], map[], {}, {}, Some(0), [Succeeded], [Loaded("a"), Loaded("b")])
    else State(map[], map[], {}, {}, None, [], [Loaded("a"), Loaded("b")])
  }

  lemma TwoCallsHappen(c: Config, end: State)
    requires CanEndUp(c, TwoCalls(c), end)
    ensures CanEndUp(c, Initial(), end)
  {
    hide CanEndUp;
    var s0 := Initial();
    var s1 := Apply(c, s0, DoCall("a"));
    var s2 := Apply(c, s1, DoCall("b"));
    if c.persistAssignments {
      var s3 := Apply(c, s2, DoLoadSettles(0, Some(NotJson)));
      assert Adopt(s2, [], map[]) == s2;
      var s4 := Apply(c, s3, DoLoadResumes(0));
      assert Apply(c, s4, DoLoadResumes(1)) == TwoCalls(c);
      Steps(c, s4, DoLoadResumes(1), end);
      Steps(c, s3, DoLoadResumes(0), end);
      Steps(c, s2, DoLoadSettles(0, Some(NotJson)), end);
    } else {
      assert s2 == TwoCalls(c);
    }
    Steps(c, s1, DoCall("b"), end);
    Steps(c, s0, DoCall("a"), end);
  }

  lemma TakesTheFirstFork(c: Config, s: State, a: Agent)
    requires c.maxWindowCount >= FIRST_FORK && s.windows == map[] && s.tearing == {}
    ensures TakeFree(c, s, a) == s.(windows := map[a := FIRST_FORK])
  {
    assert IsFree(s, FIRST_FORK);
  }

  /** An agent is released between its assignment and its window, and another gets the same fork: the window comes up
      for the first, while the second sits there. */
  lemma WindowComesUpForAnother(c: Config) returns (end: State)
    requires c.hasEnsureWindow && c.maxWindowCount >= FIRST_FORK
    ensures CanEndUp(c, Initial(), end) && end.windows == map["b" := 2]
    ensures |end.ops| > 0 && end.ops[0] == AwaitingWindow("a", true, false, 2)
  {
    hide CanEndUp, TakeFree, FreeFork;
    var s0 := TwoCalls(c);
    TakesTheFirstFork(c, s0, "a");
    var s1 := Apply(c, s0, DoAssigns(0));
    assert s1.windows == map["a" := 2] && s1.ops == [AwaitingReady("a", true, Some(2)), Loaded("b")];
    var s2 := Apply(c, s1, DoRelease("a"));
    assert s2.windows == map[] && s2.tearing == {2} && s2.ops == s1.ops + [Releasing(2)];
    var s3 := Apply(c, s2, DoReleaseSettles(2));
    assert s3.tearing == {};
    TakesTheFirstFork(c, s3, "b");
    var s4 := Apply(c, s3, DoAssigns(1));
    assert s4.windows == map["b" := 2] && s4.ops[0] == AwaitingReady("a", true, Some(2));
    end := Apply(c, s4, DoReadySettles(0, true, "token"));
    NoStepsLeft(c, end);
    Steps(c, s4, DoReadySettles(0, true, "token"), end);
    Steps(c, s3, DoAssigns(1), end);
    Steps(c, s2, DoReleaseSettles(2), end);
    Steps(c, s1, DoRelease("a"), end);
    Steps(c, s0, DoAssigns(0), end);
    TwoCallsHappen(c, end);
  }

  /** So it is in every interleaving exactly when windows are not brought up, or there is no fork to bring up. */
  lemma OwnWindowsWhateverTheInterleaving(c: Config)
    requires c.maxWindowCount >= 1
    ensures (forall end :: CanEndUp(c, Initial(), end) ==> OwnWindows(end)) <==>
      !c.hasEnsureWindow || c.maxWindowCount == 1
  {
    hide Possible, Final;
    if c.hasEnsureWindow && c.maxWindowCount >= FIRST_FORK {
      var end := WindowComesUpForAnother(c);
      assert end.ops[0].AwaitingWindow?;
    } else {
      forall end | CanEndUp(c, Initial(), end)
        ensures OwnWindows(end)
      {
        var steps :| Possible(c, Initial(), steps) && Final(c, Initial(), steps) == end;
        NothingComesUp(c, Initial(), steps);
      }
    }
  }

  ghost predicate NoneComesUp(s: State) { forall i :: 0 <= i < |s.ops| ==> !s.ops[i].AwaitingWindow? }

  lemma {:induction false} NothingComesUp(c: Config, s: State, steps: seq<Step>)
    requires Inv(c, s) && NoneComesUp(s) && Possible(c, s, steps) && (!c.hasEnsureWindow || c.maxWindowCount == 1)
    ensures OwnWindows(Final(c, s, steps))
    decreases steps
  {
    hide Apply, Enabled, Inv;
    if steps != [] {
      StepKeepsInv(c, s, steps[0]);
      StepBringsNoneUp(c, s, steps[0]);
      NothingComesUp(c, Apply(c, s, steps[0]), steps[1..]);
    }
  }

  lemma StepBringsNoneUp(c: Config, s: State, step: Step)
    requires Inv(c, s) && NoneComesUp(s) && Enabled(s, step) && (!c.hasEnsureWindow || c.maxWindowCount == 1)
    ensures NoneComesUp(Apply(c, s, step))
  {
    hide FreeFork, TakeFree, Adopt, Assignments, Tokens, Seats;
    match step
    case DoLoadSettles(load, outcome) =>
      if outcome.Some? {
        AdoptFrame(s, Assignments(outcome.value, c.maxWindowCount), Tokens(outcome.value, c.maxWindowCount));
      }
    case DoReadySettles(op, _, _) =>
      var a := s.ops[op].agent;
      TakeFreeKeeps(c, s, a);
      SeatInRange(c, s, a);
      assert OpInRange(c, s.ops[op]);
    case _ =>
  }

  // Persisting -------------------------------------------------------------------------------------------------------

  ghost predicate ListsOnce(agents: seq<Agent>, windows: map<Agent, int>) {
    && (forall i, j :: 0 <= i < j < |agents| ==> agents[i] != agents[j])
    && (forall a :: a in agents <==> a in windows)
  }

  function Entries(agents: seq<Agent>, windows: map<Agent, int>): (r: seq<(Agent, int)>)
    requires forall a :: a in agents ==> a in windows
  {
    seq(|agents|, i requires 0 <= i < |agents| => (agents[i], windows[agents[i]]))
  }

  /** What is written: the seats of all agents, and the tokens of those that have one. */
  function Snapshot(agents: seq<Agent>, s: State): Document
    requires ListsOnce(agents, s.windows)
  {
    Root(Some(seq(|agents|, i requires 0 <= i < |agents| => (agents[i], Number(s.windows[agents[i]])))),
         Some(map a | a in s.windows && a in s.tokens :: Text(s.tokens[a])))
  }

  lemma SnapshotIsTaken(c: Config, agents: seq<Agent>, s: State, i: nat)
    requires Inv(c, s) && ListsOnce(agents, s.windows) && i < |agents|
    ensures
      var doc := Snapshot(agents, s);
      && Takes(doc.assignments.value, c.maxWindowCount, i)
      && HasToken(doc.tokens, agents[i]) == (agents[i] in s.tokens)
      && (agents[i] in s.tokens ==> doc.tokens.value[agents[i]].text == s.tokens[agents[i]])
  {
    assert forall j :: 0 <= j <= i ==> agents[j] in s.windows;
  }

  lemma {:induction false} TakesTheSnapshot(c: Config, agents: seq<Agent>, s: State, n: nat)
    requires Inv(c, s) && ListsOnce(agents, s.windows) && n <= |agents|
    ensures
      var doc := Snapshot(agents, s);
      && Taken(doc.assignments.value, c.maxWindowCount, n) == Entries(agents, s.windows)[..n]
      && TakenTokens(doc.assignments.value, doc.tokens, c.maxWindowCount, n) == Restricted(agents, n, s.tokens)
  {
    hide Takes, HasToken, Inv, Restricted;
    RestrictedToNone(agents, s.tokens);
    if n > 0 {
      TakesTheSnapshot(c, agents, s, n - 1);
      SnapshotIsTaken(c, agents, s, n - 1);
      RestrictedGrows(agents, n, s.tokens);
      assert agents[n - 1] in s.windows;
    }
  }

  /** The part of a map that the first `n` of these agents have. */
  function Restricted<V>(agents: seq<Agent>, n: nat, m: map<Agent, V>): map<Agent, V>
    requires n <= |agents|
  {
    map a | a in agents[..n] && a in m :: m[a]
  }

  lemma RestrictedToNone<V>(agents: seq<Agent>, m: map<Agent, V>)
    ensures Restricted(agents, 0, m) == map[]
  {
  }

  lemma RestrictedGrows<V>(agents: seq<Agent>, n: nat, m: map<Agent, V>)
    requires 0 < n <= |agents|
    ensures
      var (before, a) := (Restricted(agents, n - 1, m), agents[n - 1]);
      Restricted(agents, n, m) == if a in m then before[a := m[a]] else before
  {
    assert agents[..n] == agents[..n - 1] + [agents[n - 1]];
  }

  lemma RestrictedToAll<V>(agents: seq<Agent>, windows: map<Agent, int>, m: map<Agent, V>)
    requires ListsOnce(agents, windows)
    ensures Restricted(agents, |agents|, m) == map a | a in windows && a in m :: m[a]
  {
    assert agents[..|agents|] == agents;
  }

  lemma NotSeatedYet(agents: seq<Agent>, s: State, n: nat)
    requires ListsOnce(agents, s.windows) && Exclusive(s) && 0 < n <= |agents|
    ensures agents[n - 1] in s.windows && agents[n - 1] !in Restricted(agents, n - 1, s.windows)
    ensures s.windows[agents[n - 1]] !in Restricted(agents, n - 1, s.windows).Values
  {
    assert agents[n - 1] in s.windows;
  }

  lemma {:induction false} AdoptsEntries(agents: seq<Agent>, s: State, tokens: map<Agent, string>, n: nat)
    requires ListsOnce(agents, s.windows) && Exclusive(s) && n <= |agents|
    ensures
      var s' := Adopt(Initial(), Entries(agents, s.windows)[..n], tokens);
      s'.windows == Restricted(agents, n, s.windows) && s'.tokens == Restricted(agents, n, tokens)
  {
    hide Restricted, Exclusive;
    RestrictedToNone(agents, s.windows);
    RestrictedToNone(agents, tokens);
    if n > 0 {
      AdoptsEntries(agents, s, tokens, n - 1);
      var entries := Entries(agents, s.windows)[..n];
      assert entries[..n - 1] == Entries(agents, s.windows)[..n - 1];
      NotSeatedYet(agents, s, n);
      RestrictedGrows(agents, n, s.windows);
      RestrictedGrows(agents, n, tokens);
      RestrictedWithin(agents, n, tokens);
    }
  }

  lemma RestrictedWithin<V>(agents: seq<Agent>, n: nat, m: map<Agent, V>)
    requires 0 < n <= |agents|
    requires forall i, j :: 0 <= i < j < |agents| ==> agents[i] != agents[j]
    ensures agents[n - 1] !in Restricted(agents, n - 1, m)
  {
  }

  /** Reading a snapshot back gives the seats and tokens that were written, and a fresh allocator adopts all of them,
      provided the seats were exclusive. */
  lemma SnapshotRoundTrip(c: Config, agents: seq<Agent>, s: State)
    requires Inv(c, s) && ListsOnce(agents, s.windows)
    ensures
      var doc := Snapshot(agents, s);
      var persisted, tokens := Assignments(doc, c.maxWindowCount), Tokens(doc, c.maxWindowCount);
      && persisted == Entries(agents, s.windows)
      && tokens == (map a | a in s.windows && a in s.tokens :: s.tokens[a])
      && (Exclusive(s) ==> Adopt(Initial(), persisted, tokens).windows == s.windows)
      && (Exclusive(s) ==> Adopt(Initial(), persisted, tokens).tokens == tokens)
  {
    hide Taken, TakenTokens, Adopt, Exclusive, Inv, Restricted;
    var tokens := Tokens(Snapshot(agents, s), c.maxWindowCount);
    TakesTheSnapshot(c, agents, s, |agents|);
    RestrictedToAll(agents, s.windows, s.tokens);
    RestrictedToAll(agents, s.windows, s.windows);
    RestrictedToAll(agents, s.windows, tokens);
    var entries := Entries(agents, s.windows);
    assert entries[..|agents|] == entries;
    if Exclusive(s) {
      AdoptsEntries(agents, s, tokens, |agents|);
    }
  }

  // The object -------------------------------------------------------------------------------------------------------

  class SharedDesktopSandBox {
    const config: Config
    var agentWindows: map<Agent, int>
    var agentWindowTokens: map<Agent, string>
    var establishedForks: set<Agent>
    var windowsTearingDown: set<int>
    var assignmentsLoad: Option<nat>
    /** The promises: the loads started so far, and the calls with the await each stands at. */
    var loads: seq<Load>
    var ops: seq<Op>

    ghost function Abs(): State
      reads this
    {
      State(agentWindows, agentWindowTokens, establishedForks, windowsTearingDown, assignmentsLoad, loads, ops)
    }

    constructor (config: Config)
      ensures this.config == config && Abs() == Initial()
    {
      this.config := config;
      agentWindows, agentWindowTokens, establishedForks, windowsTearingDown := map[], map[], {}, {};
      assignmentsLoad, loads, ops := None, [], [];
    }

    method TakeFreeForkIndex(agentId: Agent) returns (index: Option<int>)
      modifies this
      ensures index == old(FreeFork(config, Abs(), FIRST_FORK))
      ensures Abs() == old(TakeFree(config, Abs(), agentId))
    {
      var used := agentWindows.Values;
      var i := FIRST_FORK;
      while i <= config.maxWindowCount
        invariant FIRST_FORK <= i && Abs() == old(Abs())
        invariant FreeFork(config, Abs(), FIRST_FORK) == FreeFork(config, Abs(), i)
        decreases config.maxWindowCount - i
      {
        if i !in used && i !in windowsTearingDown {
          agentWindows := agentWindows[agentId := i];
          return Some(i);
        }
        i := i + 1;
      }
      return None;
    }

    method AssignWindow(agentId: Agent) returns (index: Option<int>)
      modifies this
      ensures Abs() == old(if agentId in agentWindows then Abs() else TakeFree(config, Abs(), agentId))
      ensures index == Get(agentWindows, agentId)
    {
      if agentId in agentWindows {
        return Some(agentWindows[agentId]);
      }
      index := TakeFreeForkIndex(agentId);
    }

    method MigrateLegacyPrimarySeat(agentId: Agent, seat: int) returns (index: int)
      modifies this
      ensures (Abs(), index) == old(Migrate(config, Abs(), agentId, seat))
    {
      if !IsPrimary(seat) || !config.hasEnsureWindow {
        return seat;
      }
      var current := if agentId in agentWindows then agentWindows[agentId] else seat;
      if !IsPrimary(current) {
        return current;
      }
      var fork := TakeFreeForkIndex(agentId);
      return if fork.Some? then fork.value else current;
    }

    /** ensureReady up to the first await: a load is started unless one is remembered. */
    method EnsureReady(agentId: Agent)
      modifies this
      ensures Abs() == old(Call(config, Abs(), agentId))
    {
      if !config.persistAssignments {
        ops := ops + [Loaded(agentId)];
        return;
      }
      if assignmentsLoad.None? {
        assignmentsLoad := Some(|loads|);
        loads := loads + [Pending];
      }
      ops := ops + [AwaitingLoad(agentId, assignmentsLoad.value)];
    }

    method AdoptPersisted(load: nat, doc: Document)
      requires load < |loads|
      modifies this
      ensures Abs() == old(LoadSettles(config, Abs(), load, Some(doc)))
    {
      var persisted, persistedTokens, _ := ParseAssignments(doc, config.maxWindowCount);
      var used := agentWindows.Values;
      for i := 0 to |persisted|
        invariant Abs() == Adopt(old(Abs()), persisted[..i], persistedTokens)
        invariant used == agentWindows.Values && loads == old(loads)
      {
        var (agentId, index) := persisted[i];
        assert persisted[..i + 1][..i] == persisted[..i];
        if agentId in agentWindows || index in used {
          continue;
        }
        ghost var was := agentWindows;
        agentWindows := agentWindows[agentId := index];
        used := used + {index};
        AddsValue(was, agentId, index);
        if agentId in persistedTokens && agentId !in agentWindowTokens {
          agentWindowTokens := agentWindowTokens[agentId := persistedTokens[agentId]];
        }
      }
      assert persisted[..|persisted|] == persisted;
      loads := loads[load := Succeeded];
    }

    method FailLoad(load: nat)
      requires load < |loads|
      modifies this
      ensures Abs() == old(LoadSettles(config, Abs(), load, None))
    {
      loads := loads[load := Failed];
    }

    method AfterLoad(op: nat)
      requires op < |ops| && ops[op].AwaitingLoad? && ops[op].load < |loads|
      modifies this
      ensures Abs() == old(LoadResumes(Abs(), op))
    {
      if loads[ops[op].load].Failed? {
        assignmentsLoad := None;
        ops := ops[op := Finished];
      } else {
        ops := ops[op := Loaded(ops[op].agent)];
      }
    }

    method AfterAssignmentsLoaded(op: nat)
      requires op < |ops| && ops[op].Loaded?
      modifies this
      ensures Abs() == old(Assigns(config, Abs(), op))
    {
      var agentId := ops[op].agent;
      var isNewAssignment := agentId !in agentWindows;
      var seat := AssignWindow(agentId);
      ops := ops[op := AwaitingReady(agentId, isNewAssignment, seat)];
    }

    method DeleteSeat(agentId: Agent)
      modifies this
      ensures Abs() == old(Forget(Abs(), agentId))
    {
      agentWindows := agentWindows - {agentId};
      agentWindowTokens := agentWindowTokens - {agentId};
    }

    method AfterInnerReady(op: nat, ok: bool, minted: string)
      requires op < |ops| && ops[op].AwaitingReady?
      modifies this
      ensures Abs() == old(ReadySettles(config, Abs(), op, ok, minted))
    {
      hide TakeFree, FreeFork, Migrate;
      var AwaitingReady(agentId, isNewAssignment, seat) := ops[op];
      if !ok || seat.None? {
        ops := ops[op := Finished];
        return;
      }
      label migrating:
      var index := MigrateLegacyPrimarySeat(agentId, seat.value);
      MigrateFrame(config, old@migrating(Abs()), agentId, seat.value);
      var isMigration := index != seat.value;
      if IsPrimary(index) {
        ops := ops[op := Finished];
        return;
      }
      if agentId !in agentWindowTokens {
        agentWindowTokens := agentWindowTokens[agentId := minted];
      }
      if !config.hasEnsureWindow {
        if isNewAssignment {
          DeleteSeat(agentId);
        }
        ops := ops[op := Finished];
        return;
      }
      ops := ops[op := AwaitingWindow(agentId, isNewAssignment, isMigration, index)];
    }

    method AfterEnsureWindow(op: nat, ok: bool)
      requires op < |ops| && ops[op].AwaitingWindow?
      modifies this
      ensures Abs() == old(WindowSettles(Abs(), op, ok))
    {
      var AwaitingWindow(agentId, isNewAssignment, isMigration, index) := ops[op];
      if ok {
        establishedForks := establishedForks + {agentId};
        ops := ops[op := Finished];
      } else if isMigration && agentId !in establishedForks {
        ops := ops[op := RollingBack(agentId, false, Some(index))];
      } else {
        var isFork := agentId in agentWindows && agentWindows[agentId] >= FIRST_FORK;
        if isFork && agentId !in establishedForks {
          ops := ops[op := RollingBack(agentId, isNewAssignment, None)];
        } else {
          ops := ops[op := Finished];
          if isNewAssignment {
            DeleteSeat(agentId);
          }
        }
      }
    }

    method AfterRollback(op: nat)
      requires op < |ops| && ops[op].RollingBack?
      modifies this
      ensures Abs() == old(RollbackSettles(Abs(), op))
    {
      var RollingBack(agentId, isNewAssignment, restoreFrom) := ops[op];
      ops := ops[op := Finished];
      if restoreFrom.None? {
        if isNewAssignment {
          DeleteSeat(agentId);
        }
      } else if agentId in agentWindows && agentWindows[agentId] == restoreFrom.value {
        agentWindows := agentWindows[agentId := PRIMARY];
        agentWindowTokens := agentWindowTokens - {agentId};
      }
    }

    method ReleaseWindow(agentId: Agent)
      modifies this
      ensures Abs() == old(Release(Abs(), agentId))
    {
      var index := Get(agentWindows, agentId);
      DeleteSeat(agentId);
      establishedForks := establishedForks - {agentId};
      if index.Some? && index.value >= FIRST_FORK {
        windowsTearingDown := windowsTearingDown + {index.value};
        ops := ops + [Releasing(index.value)];
      }
    }

    method AfterRelease(op: nat)
      requires op < |ops| && ops[op].Releasing?
      modifies this
      ensures Abs() == old(ReleaseSettles(Abs(), op))
    {
      windowsTearingDown := windowsTearingDown - {ops[op].index};
      ops := ops[op := Finished];
    }
  }

  lemma AddsValue(windows: map<Agent, int>, a: Agent, index: int)
    requires a !in windows
    ensures windows[a := index].Values == windows.Values + {index}
  {
    var after := windows[a := index];
    forall v | v in windows.Values + {index}
      ensures v in after.Values
    {
      if v == index {
        assert after[a] == v;
      } else {
        var b :| b in windows && windows[b] == v;
        assert after[b] == v;
      }
    }
  }

  lemma MigrateFrame(c: Config, s: State, a: Agent, seat: int)
    ensures var s' := Migrate(c, s, a, seat).0; s' == s.(windows := s'.windows)
  {
  }
}
