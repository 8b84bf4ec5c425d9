/** forEachWavePipelined: a few workers process what successive waves of items turn into, and the next wave is prepared
    while they work. The segments between two awaits are the steps; any order of them is a run. */
module WavePipeline {
  import opened Options

  datatype Worker<W> = Ready | Processing(work: W) | Waiting | Done

  /** A wave being prepared, or one whose works are queued while its `finally` is still to run. */
  datatype Preparation = Idle | InFlight | Settled

  /** waveSize and the number of workers are at least 1, as the code clamps them. */
  datatype Config<T> = Config(items: seq<T>, waveSize: nat, concurrency: nat)

  ghost predicate ValidConfig<T>(c: Config<T>) { c.waveSize >= 1 && c.concurrency >= 1 }

  /** What a run fails with. */
  datatype Cause<W> = NotPrepared | NotProcessed(work: W)

  /** The variables of the run, and its history: the waves handed out, the works each of them yielded, those started and
      those finished. */
  datatype State<T, W> = State(
    next: nat, queue: seq<W>, preparing: Preparation, failure: Option<Cause<W>>, workers: seq<Worker<W>>,
    waves: seq<seq<T>>, batches: seq<seq<W>>, started: seq<W>, finished: multiset<W>)
  {
    predicate Failed() { failure.Some? }

    /** All works so far, in the order of the waves. */
    ghost function Prepared(): seq<W> { Flatten(batches) }

    /** The first failure stays. */
    function Fail(cause: Cause<W>): State<T, W> { if Failed() then this else this.(failure := Some(cause)) }
  }

  function Min(a: nat, b: nat): nat { if a < b then a else b }

  // The segments -------------------------------------------------------------------------------------------------

  function Exhausted<T, W>(c: Config<T>, s: State<T, W>): bool { s.next >= |c.items| }

  /** Starts preparing the next wave, unless there is a reason not to. */
  function Begin<T, W>(c: Config<T>, s: State<T, W>): State<T, W> {
    if s.Failed() || !s.preparing.Idle? || Exhausted(c, s) || |s.queue| >= c.waveSize then s
    else
      s.(preparing := InFlight, next := s.next + c.waveSize,
         waves := s.waves + [c.items[s.next..Min(s.next + c.waveSize, |c.items|)]])
  }

  function Woken<W>(workers: seq<Worker<W>>): (r: seq<Worker<W>>)
    ensures |r| == |workers|
    ensures forall i :: 0 <= i < |r| ==> r[i] == if workers[i].Waiting? then Ready else workers[i]
  {
    seq(|workers|, i requires 0 <= i < |workers| => if workers[i].Waiting? then Ready else workers[i])
  }

  function Wake<T, W>(s: State<T, W>): State<T, W> { s.(workers := Woken(s.workers)) }

  /** A worker takes the next work, or leaves, or parks. */
  function WorkerRuns<T, W>(c: Config<T>, s: State<T, W>, i: nat): State<T, W>
    requires i < |s.workers|
  {
    if s.Failed() then s.(workers := s.workers[i := Done])
    else if s.queue != [] then
      Begin(c, s.(queue := s.queue[1..], started := s.started + [s.queue[0]],
                  workers := s.workers[i := Processing(s.queue[0])]))
    else if s.preparing.Idle? && Exhausted(c, s) then s.(workers := s.workers[i := Done])
    else Begin(c, s.(workers := s.workers[i := Waiting]))
  }

  function ProcessSettles<T, W>(s: State<T, W>, i: nat, ok: bool): State<T, W>
    requires i < |s.workers| && s.workers[i].Processing?
  {
    var s' := s.(finished := s.finished + multiset{s.workers[i].work});
    if ok then s'.(workers := s.workers[i := Ready])
    else Wake(s'.Fail(NotProcessed(s.workers[i].work)).(workers := s.workers[i := Done]))
  }

  function PreparationResolves<T, W>(s: State<T, W>, works: seq<W>): State<T, W> {
    s.(preparing := Settled, queue := s.queue + works, batches := s.batches + [works])
  }

  function PreparationRejects<T, W>(s: State<T, W>): State<T, W> { s.Fail(NotPrepared).(preparing := Settled) }

  function PreparationFinally<T, W>(c: Config<T>, s: State<T, W>): State<T, W> {
    Wake(Begin(c, s.(preparing := Idle)))
  }

  function Initial<T, W>(c: Config<T>): State<T, W> {
    Begin(c, State(0, [], Idle, None, seq(c.concurrency, i => Ready), [], [], [], multiset{}))
  }

  // One step of any kind -----------------------------------------------------------------------------------------

  datatype Step<W> =
    | Run(i: nat)
    | Settle(i: nat, ok: bool)
    | Resolve(works: seq<W>)
    | Reject
    | Finally

  predicate Enabled<T, W>(s: State<T, W>, step: Step<W>) {
    match step
    case Run(i) => i < |s.workers| && s.workers[i].Ready?
    case Settle(i, _) => i < |s.workers| && s.workers[i].Processing?
    case Resolve(_) => s.preparing.InFlight?
    case Reject => s.preparing.InFlight?
    case Finally => s.preparing.Settled?
  }

  function Apply<T, W>(c: Config<T>, s: State<T, W>, step: Step<W>): State<T, W>
    requires Enabled(s, step)
  {
    match step
    case Run(i) => WorkerRuns(c, s, i)
    case Settle(i, ok) => ProcessSettles(s, i, ok)
    case Resolve(works) => PreparationResolves(s, works)
    case Reject => PreparationRejects(s)
    case Finally => PreparationFinally(c, s)
  }

  // The invariant ------------------------------------------------------------------------------------------------

  function Flatten<T>(waves: seq<seq<T>>): seq<T> {
    if waves == [] then [] else Flatten(waves[..|waves| - 1]) + waves[|waves| - 1]
  }

  ghost function InProcess<W>(workers: seq<Worker<W>>): multiset<W> {
    if workers == [] then multiset{}
    else
      InProcess(workers[..|workers| - 1]) + InProcessOf(workers[|workers| - 1])
  }

  ghost function InProcessOf<W>(w: Worker<W>): multiset<W> {
    match w
    case Processing(work) => multiset{work}
    case _ => multiset{}
  }

  /** The largest number of works that a wave has yielded. */
  ghost function Largest<W>(batches: seq<seq<W>>): (n: nat)
    ensures forall i :: 0 <= i < |batches| ==> |batches[i]| <= n
  {
    if batches == [] then 0
    else
      var n := Largest(batches[..|batches| - 1]);
      if |batches[|batches| - 1]| > n then |batches[|batches| - 1]| else n
  }

  lemma LargestSnoc<W>(batches: seq<seq<W>>, works: seq<W>)
    ensures Largest(batches) <= Largest(batches + [works]) && |works| <= Largest(batches + [works])
  {
    assert (batches + [works])[..|batches|] == batches;
  }

  lemma {:induction false} LargestWithin<W>(batches: seq<seq<W>>, limit: nat)
    requires forall i :: 0 <= i < |batches| ==> |batches[i]| <= limit
    ensures Largest(batches) <= limit
  {
    if batches != [] {
      LargestWithin(batches[..|batches| - 1], limit);
    }
  }

  /** Every wave has waveSize items, but the last, which may have fewer when nothing is left. */
  ghost predicate FullWaves<T, W>(c: Config<T>, s: State<T, W>) {
    forall i :: 0 <= i < |s.waves| ==>
      && 0 < |s.waves[i]| <= c.waveSize
      && (i < |s.waves| - 1 || s.next <= |c.items| ==> |s.waves[i]| == c.waveSize)
  }

  ghost predicate Inv<T, W>(c: Config<T>, s: State<T, W>) {
    && |s.workers| == c.concurrency
    // Waves cover the items in order, each once.
    && Flatten(s.waves) == c.items[..Min(s.next, |c.items|)] && FullWaves(c, s)
    // Each wave has yielded its works, but one that is being prepared.
    && (!s.Failed() ==> |s.waves| == |s.batches| + if s.preparing.InFlight? then 1 else 0)
    // Works are started in the order they were prepared, and none is lost on the way.
    && s.started + s.queue == s.Prepared()
    // A started work is in process or finished, once.
    && multiset(s.started) == s.finished + InProcess(s.workers)
    // A parked worker has a wave to wait for.
    && (forall i :: 0 <= i < |s.workers| && s.workers[i].Waiting? ==> !s.preparing.Idle?)
    // A worker leaves only when nothing is left for it.
    && (!s.Failed() ==> forall i :: 0 <= i < |s.workers| && s.workers[i].Done? ==>
      s.queue == [] && s.preparing.Idle? && Exhausted(c, s))
    // The next wave is being prepared as soon as the queue is short.
    && (!s.Failed() && s.preparing.Idle? ==> Exhausted(c, s) || |s.queue| >= c.waveSize)
    && (s.preparing.InFlight? ==> |s.queue| < c.waveSize)
    && |s.queue| < c.waveSize + Largest(s.batches)
  }

  lemma FlattenSnoc<T>(waves: seq<seq<T>>, wave: seq<T>)
    ensures Flatten(waves + [wave]) == Flatten(waves) + wave
  {
    assert (waves + [wave])[..|waves|] == waves;
  }

  lemma {:induction false} InProcessUpdate<W>(workers: seq<Worker<W>>, i: nat, w: Worker<W>)
    requires i < |workers|
    ensures InProcess(workers[i := w]) + InProcessOf(workers[i]) == InProcess(workers) + InProcessOf(w)
  {
    hide InProcessOf;
    var front, last := workers[..|workers| - 1], workers[|workers| - 1];
    var workers' := workers[i := w];
    if i == |workers| - 1 {
      assert workers'[..|workers'| - 1] == front;
      assert (InProcess(front) + InProcessOf(w)) + InProcessOf(last) ==
        (InProcess(front) + InProcessOf(last)) + InProcessOf(w);
    } else {
      assert workers'[..|workers'| - 1] == front[i := w] && workers'[|workers'| - 1] == last;
      InProcessUpdate(front, i, w);
      assert (InProcess(front[i := w]) + InProcessOf(last)) + InProcessOf(front[i]) ==
             (InProcess(front[i := w]) + InProcessOf(front[i])) + InProcessOf(last);
      assert (InProcess(front) + InProcessOf(w)) + InProcessOf(last) ==
        (InProcess(front) + InProcessOf(last)) + InProcessOf(w);
    }
  }

  lemma {:induction false} InProcessWoken<W>(workers: seq<Worker<W>>)
    ensures InProcess(Woken(workers)) == InProcess(workers)
  {
    if workers != [] {
      assert Woken(workers)[..|workers| - 1] == Woken(workers[..|workers| - 1]);
      InProcessWoken(workers[..|workers| - 1]);
    }
  }

  lemma BeginKeepsInv<T, W>(c: Config<T>, s: State<T, W>)
    requires ValidConfig(c)
    requires |s.workers| == c.concurrency && Flatten(s.waves) == c.items[..Min(s.next, |c.items|)] && FullWaves(c, s)
    ensures
      var s' := Begin(c, s);
      Flatten(s'.waves) == c.items[..Min(s'.next, |c.items|)] && FullWaves(c, s')
  {
    if !(s.Failed() || !s.preparing.Idle? || Exhausted(c, s) || |s.queue| >= c.waveSize) {
      var wave := c.items[s.next..Min(s.next + c.waveSize, |c.items|)];
      FlattenSnoc(s.waves, wave);
      assert c.items[..s.next] + wave == c.items[..Min(s.next + c.waveSize, |c.items|)];
    }
  }

  lemma InitialInv<T, W>(c: Config<T>)
    requires ValidConfig(c)
    ensures Inv(c, Initial<T, W>(c))
  {
    var s: State<T, W> := State(0, [], Idle, None, seq(c.concurrency, i => Ready), [], [], [], multiset{});
    BeginKeepsInv(c, s);
    NoneInProcess(s.workers);
  }

  lemma {:induction false} NoneInProcess<W>(workers: seq<Worker<W>>)
    requires forall i :: 0 <= i < |workers| ==> workers[i].Ready?
    ensures InProcess(workers) == multiset{}
  {
    if workers != [] {
      NoneInProcess(workers[..|workers| - 1]);
    }
  }

  lemma StepKeepsInv<T, W>(c: Config<T>, s: State<T, W>, step: Step<W>)
    requires ValidConfig(c) && Inv(c, s) && Enabled(s, step)
    ensures Inv(c, Apply(c, s, step))
  {
    hide Flatten, InProcess;
    match step
    case Run(i) => RunKeepsInv(c, s, i);
    case Settle(i, ok) => SettleKeepsInv(c, s, i, ok);
    case Resolve(works) =>
      FlattenSnoc(s.batches, works);
      LargestSnoc(s.batches, works);
    case Reject =>
    case Finally =>
      BeginKeepsInv(c, s.(preparing := Idle));
      InProcessWoken(s.workers);
  }

  /** A worker that was idle keeps the works in process; one that takes a work adds it. */
  lemma TakesWork<W>(workers: seq<Worker<W>>, i: nat, w: Worker<W>, started: seq<W>, finished: multiset<W>)
    requires i < |workers| && !workers[i].Processing?
    requires multiset(started) == finished + InProcess(workers)
    ensures w.Processing? ==> multiset(started + [w.work]) == finished + InProcess(workers[i := w])
    ensures !w.Processing? ==> multiset(started) == finished + InProcess(workers[i := w])
  {
    hide InProcess;
    InProcessUpdate(workers, i, w);
    assert InProcess(workers[i := w]) == InProcess(workers) + InProcessOf(w);
    if w.Processing? {
      assert multiset(started + [w.work]) == multiset(started) + multiset{w.work};
    }
  }

  lemma GivesWorkBack<W>(workers: seq<Worker<W>>, i: nat, w: Worker<W>, started: seq<W>, finished: multiset<W>)
    requires i < |workers| && workers[i].Processing? && !w.Processing?
    requires multiset(started) == finished + InProcess(workers)
    ensures multiset(started) == (finished + multiset{workers[i].work}) + InProcess(workers[i := w])
  {
    hide InProcess;
    InProcessUpdate(workers, i, w);
    assert InProcess(workers[i := w]) + multiset{workers[i].work} == InProcess(workers);
  }

  lemma RunKeepsInv<T, W>(c: Config<T>, s: State<T, W>, i: nat)
    requires ValidConfig(c) && Inv(c, s) && Enabled(s, Run(i))
    ensures Inv(c, WorkerRuns(c, s, i))
  {
    hide Flatten, InProcess;
    var s' := WorkerRuns(c, s, i);
    TakesWork(s.workers, i, s'.workers[i], s.started, s.finished);
    if !s.Failed() {
      if s.queue != [] {
        var first := s.queue[0];
        var s1 := s.(queue := s.queue[1..], started := s.started + [first],
          workers := s.workers[i := Processing(first)]);
        BeginKeepsInv(c, s1);
        assert s1.started + s1.queue == s.started + ([first] + s.queue[1..]);
      } else {
        BeginKeepsInv(c, s.(workers := s.workers[i := Waiting]));
      }
    }
  }

  lemma SettleKeepsInv<T, W>(c: Config<T>, s: State<T, W>, i: nat, ok: bool)
    requires ValidConfig(c) && Inv(c, s) && Enabled<T, W>(s, Settle(i, ok))
    ensures Inv(c, ProcessSettles(s, i, ok))
  {
    hide Flatten, InProcess;
    GivesWorkBack(s.workers, i, if ok then Ready else Done, s.started, s.finished);
    InProcessWoken(s.workers[i := Done]);
  }

  // No deadlock, and an end to every run ---------------------------------------------------------------------------

  ghost predicate AllDone<T, W>(s: State<T, W>) { forall i :: 0 <= i < |s.workers| ==> s.workers[i].Done? }

  /** As long as a worker has not left, something can happen. */
  lemma NeverStuck<T, W>(c: Config<T>, s: State<T, W>) returns (step: Step<W>)
    requires Inv(c, s) && !AllDone(s)
    ensures Enabled(s, step)
  {
    var i :| 0 <= i < |s.workers| && !s.workers[i].Done?;
    match s.workers[i]
    case Ready => step := Run(i);
    case Processing(_) => step := Settle(i, true);
    case Waiting => step := if s.preparing.InFlight? then Reject else Finally;
  }

  function ReadyWorkers<W>(workers: seq<Worker<W>>): set<int> {
    set i | 0 <= i < |workers| && workers[i].Ready?
  }

  function BusyWorkers<W>(workers: seq<Worker<W>>): set<int> {
    set i | 0 <= i < |workers| && workers[i].Processing?
  }

  /** What is still to come, most significant first. */
  datatype Rank = Rank(itemsLeft: int, preparing: int, queued: int, busy: int, ready: int)

  function RankOf<T, W>(c: Config<T>, s: State<T, W>): Rank {
    Rank(|c.items| - Min(s.next, |c.items|),
         match s.preparing { case InFlight => 2 case Settled => 1 case Idle => 0 },
         |s.queue|, |BusyWorkers(s.workers)|, |ReadyWorkers(s.workers)|)
  }

  predicate Lower(a: Rank, b: Rank) {
    || a.itemsLeft < b.itemsLeft
    || (a.itemsLeft == b.itemsLeft && a.preparing < b.preparing)
    || (a.itemsLeft == b.itemsLeft && a.preparing == b.preparing && a.queued < b.queued)
    || (a.itemsLeft == b.itemsLeft && a.preparing == b.preparing && a.queued == b.queued && a.busy < b.busy)
    || (a.itemsLeft == b.itemsLeft && a.preparing == b.preparing && a.queued == b.queued && a.busy == b.busy &&
      a.ready < b.ready)
  }

  lemma BeginLowersRank<T, W>(c: Config<T>, s: State<T, W>)
    requires ValidConfig(c)
    ensures Begin(c, s) == s || RankOf(c, Begin(c, s)).itemsLeft < RankOf(c, s).itemsLeft
  {
  }

  lemma RunLowersRank<T, W>(c: Config<T>, s: State<T, W>, i: nat)
    requires ValidConfig(c) && Enabled(s, Run(i))
    ensures Lower(RankOf(c, WorkerRuns(c, s, i)), RankOf(c, s))
  {
    var s' := WorkerRuns(c, s, i);
    assert ReadyWorkers(s'.workers) == ReadyWorkers(s.workers) - {i as int};
    if !s.Failed() && s.queue != [] {
      BeginLowersRank(c, s.(queue := s.queue[1..], started := s.started + [s.queue[0]],
        workers := s.workers[i := Processing(s.queue[0])]));
    } else {
      assert BusyWorkers(s'.workers) == BusyWorkers(s.workers);
      BeginLowersRank(c, s.(workers := s.workers[i := Waiting]));
    }
  }

  lemma StepLowersRank<T, W>(c: Config<T>, s: State<T, W>, step: Step<W>)
    requires ValidConfig(c) && Enabled(s, step)
    ensures Lower(RankOf(c, Apply(c, s, step)), RankOf(c, s))
  {
    hide WorkerRuns;
    match step
    case Run(i) => RunLowersRank(c, s, i);
    case Settle(i, ok) =>
      assert BusyWorkers(ProcessSettles(s, i, ok).workers) == BusyWorkers(s.workers) - {i as int};
    case Resolve(works) =>
    case Reject =>
    case Finally =>
      BeginLowersRank(c, s.(preparing := Idle));
  }

  // Whole runs -----------------------------------------------------------------------------------------------------

  predicate Possible<T, W>(c: Config<T>, s: State<T, W>, steps: seq<Step<W>>)
    decreases steps
  {
    steps != [] ==> Enabled(s, steps[0]) && Possible(c, Apply(c, s, steps[0]), steps[1..])
  }

  function Final<T, W>(c: Config<T>, s: State<T, W>, steps: seq<Step<W>>): State<T, W>
    requires Possible(c, s, steps)
    decreases steps
  {
    if steps == [] then s else Final(c, Apply(c, s, steps[0]), steps[1..])
  }

  predicate Fails<W>(step: Step<W>) { step.Reject? || (step.Settle? && !step.ok) }

  /** What the waves have yielded, one after the other. */
  function Yielded<W>(steps: seq<Step<W>>): seq<seq<W>> {
    if steps == [] then []
    else (if steps[0].Resolve? then [steps[0].works] else []) + Yielded(steps[1..])
  }

  /** A rejected wave and a work that fails each fail the run; nothing else does. */
  lemma StepFailsIff<T, W>(c: Config<T>, s: State<T, W>, step: Step<W>)
    requires Enabled(s, step)
    ensures
      var s' := Apply(c, s, step);
      && (s'.Failed() <==> s.Failed() || Fails(step))
      && (s.Failed() ==> s'.failure == s.failure && s'.waves == s.waves && s'.started == s.started)
      && (!s.Failed() && step.Reject? ==> s'.failure == Some(NotPrepared))
      && (!s.Failed() && Fails(step) && step.Settle? ==> s'.failure == Some(NotProcessed(s.workers[step.i].work)))
      && s'.batches == s.batches + Yielded([step])
  {
    assert [step][1..] == [];
  }

  /** Over any run: it has failed exactly if a wave or a work did; and each wave's works are as they were yielded. */
  lemma {:induction false} FailsIff<T, W>(c: Config<T>, s: State<T, W>, steps: seq<Step<W>>)
    requires Possible(c, s, steps)
    ensures Final(c, s, steps).Failed() <==> s.Failed() || exists i :: 0 <= i < |steps| && Fails(steps[i])
    ensures Final(c, s, steps).batches == s.batches + Yielded(steps)
    decreases steps
  {
    hide Apply, Enabled, Fails;
    if steps != [] {
      var s1 := Apply(c, s, steps[0]);
      StepFailsIff(c, s, steps[0]);
      FailsIff(c, s1, steps[1..]);
      YieldedCons(steps);
      if i :| 0 <= i < |steps| && Fails(steps[i]) {
        assert i > 0 ==> Fails(steps[1..][i - 1]);
      }
      if i :| 0 <= i < |steps[1..]| && Fails(steps[1..][i]) {
        assert Fails(steps[i + 1]);
      }
    }
  }

  lemma YieldedCons<W>(steps: seq<Step<W>>)
    requires steps != []
    ensures Yielded(steps) == Yielded([steps[0]]) + Yielded(steps[1..])
  {
    assert [steps[0]][1..] == [];
  }

  /** Once it has failed, it stays failed with what it failed with first, hands out no wave and starts no work. */
  lemma {:induction false} FailureIsFinal<T, W>(c: Config<T>, s: State<T, W>, steps: seq<Step<W>>)
    requires Possible(c, s, steps) && s.Failed()
    ensures
      var end := Final(c, s, steps);
      end.failure == s.failure && end.waves == s.waves && end.started == s.started
    decreases steps
  {
    hide Apply, Enabled;
    if steps != [] {
      StepFailsIff(c, s, steps[0]);
      FailureIsFinal(c, Apply(c, s, steps[0]), steps[1..]);
    }
  }

  /** And every run from the start keeps the invariant. */
  lemma {:induction false} EveryRunKeepsInv<T, W>(c: Config<T>, s: State<T, W>, steps: seq<Step<W>>)
    requires ValidConfig(c) && Inv(c, s) && Possible(c, s, steps)
    ensures Inv(c, Final(c, s, steps))
    decreases steps
  {
    hide Inv, Apply, Enabled;
    if steps != [] {
      StepKeepsInv(c, s, steps[0]);
      EveryRunKeepsInv(c, Apply(c, s, steps[0]), steps[1..]);
    }
  }

  /** Whoever is parked is woken by a preparation that ends and by a work that fails. */
  lemma NoneStaysParked<T, W>(c: Config<T>, s: State<T, W>, step: Step<W>)
    requires Enabled(s, step) && (step.Finally? || (step.Settle? && !step.ok))
    ensures forall i :: 0 <= i < |s.workers| ==> !Apply(c, s, step).workers[i].Waiting?
  {
  }

  /** What happens next may depend on everything so far: the scheduler names an enabled step while there is one. */
  ghost predicate Schedules<T(!new), W(!new)>(c: Config<T>, scheduler: (State<T, W>, nat) -> Step<W>) {
    forall s, time :: Inv(c, s) && !AllDone(s) ==> Enabled(s, scheduler(s, time))
  }

  /** Under every scheduler the run ends, with every worker gone. */
  ghost function Execute<T(!new), W(!new)>(
      c: Config<T>, s: State<T, W>, scheduler: (State<T, W>, nat) -> Step<W>, time: nat): (end: State<T, W>)
    requires ValidConfig(c) && Inv(c, s) && Schedules(c, scheduler)
    ensures Inv(c, end) && AllDone(end)
    decreases RankOf(c, s).itemsLeft, RankOf(c, s).preparing, RankOf(c, s).queued, RankOf(c, s).busy, RankOf(c, s).ready
  {
    if AllDone(s) then s
    else
      var step := scheduler(s, time);
      StepKeepsInv(c, s, step);
      StepLowersRank(c, s, step);
      Execute(c, Apply(c, s, step), scheduler, time + 1)
  }

  /** A run that ends without failure has covered every item and processed every prepared work exactly once, having
      started them first come, first served. */
  lemma NothingIsLost<T, W>(c: Config<T>, s: State<T, W>)
    requires ValidConfig(c) && Inv(c, s) && AllDone(s) && !s.Failed()
    ensures Flatten(s.waves) == c.items
    ensures forall i :: 0 <= i < |s.waves| ==> 1 <= |s.waves[i]| <= c.waveSize
    ensures forall i :: 0 <= i < |s.waves| - 1 ==> |s.waves[i]| == c.waveSize
    ensures |s.batches| == |s.waves| && s.started == s.Prepared() && s.finished == multiset(s.Prepared())
  {
    hide Flatten;
    assert s.workers[0].Done?;
    NoneLeftInProcess(s.workers);
    assert c.items[..|c.items|] == c.items;
    assert s.started + [] == s.started;
  }

  lemma {:induction false} NoneLeftInProcess<W>(workers: seq<Worker<W>>)
    requires forall i :: 0 <= i < |workers| ==> workers[i].Done?
    ensures InProcess(workers) == multiset{}
  {
    if workers != [] {
      NoneLeftInProcess(workers[..|workers| - 1]);
    }
  }

  /** At most `concurrency` works are in process, and the queue stays below twice the wave size when no wave yields
      more than that. */
  lemma Bounds<T, W>(c: Config<T>, s: State<T, W>)
    requires ValidConfig(c) && Inv(c, s)
    ensures |InProcess(s.workers)| <= c.concurrency
    ensures (forall i :: 0 <= i < |s.batches| ==> |s.batches[i]| <= c.waveSize) ==> |s.queue| < 2 * c.waveSize
  {
    InProcessSize(s.workers);
    if forall i :: 0 <= i < |s.batches| ==> |s.batches[i]| <= c.waveSize {
      LargestWithin(s.batches, c.waveSize);
    }
  }

  lemma {:induction false} InProcessSize<W>(workers: seq<Worker<W>>)
    ensures |InProcess(workers)| <= |workers|
  {
    if workers != [] {
      InProcessSize(workers[..|workers| - 1]);
    }
  }

  // The code's own form --------------------------------------------------------------------------------------------

  class Pipeline<T, W> {
    const c: Config<T>
    var next: nat
    var queue: seq<W>
    var preparing: Preparation
    var failure: Option<Cause<W>>
    var workers: seq<Worker<W>>
    ghost var waves: seq<seq<T>>
    ghost var batches: seq<seq<W>>
    ghost var started: seq<W>
    ghost var finished: multiset<W>

    ghost function Abs(): State<T, W> reads this {
      State(next, queue, preparing, failure, workers, waves, batches, started, finished)
    }

    constructor (c: Config<T>)
      requires ValidConfig(c)
      ensures this.c == c && Abs() == Initial(c) && Inv(c, Abs())
    {
      this.c := c;
      next, queue, preparing, failure := 0, [], Idle, None;
      workers := seq(c.concurrency, i => Ready);
      waves, batches, started, finished := [], [], [], multiset{};
      new;
      BeginWave();
      InitialInv<T, W>(c);
    }

    method BeginWave()
      modifies this
      ensures Abs() == Begin(c, old(Abs()))
    {
      if failure.Some? || !preparing.Idle? || next >= |c.items| || |queue| >= c.waveSize {
        return;
      }
      ghost var wave := c.items[next..Min(next + c.waveSize, |c.items|)];
      next := next + c.waveSize;
      preparing := InFlight;
      waves := waves + [wave];
    }

    method WakeWaiters()
      modifies this`workers
      ensures Abs() == Wake(old(Abs()))
    {
      workers := Woken(workers);
    }

    method Fail(cause: Cause<W>)
      modifies this`failure
      ensures Abs() == old(Abs()).Fail(cause)
    {
      if failure.None? {
        failure := Some(cause);
      }
    }

    /** The segment of a worker from its wake-up to its next await. With an empty queue and something still to come it
        parks without going round again: `begin` fills no queue, and it leaves a preparation running. */
    method WorkerSegment(i: nat)
      requires ValidConfig(c) && Inv(c, Abs()) && i < |workers| && workers[i].Ready?
      modifies this
      ensures Abs() == WorkerRuns(c, old(Abs()), i) && Inv(c, Abs())
    {
      hide Flatten, InProcess, Inv;
      RunKeepsInv(c, Abs(), i);
      if failure.Some? {
        workers := workers[i := Done];
        return;
      }
      if queue != [] {
        var work := queue[0];
        queue := queue[1..];
        started := started + [work];
        BeginWave();
        workers := workers[i := Processing(work)];
        return;
      }
      if preparing.Idle? && next >= |c.items| {
        workers := workers[i := Done];
        return;
      }
      BeginWave();
      assert queue == [] && !(preparing.Idle? && next >= |c.items|);
      workers := workers[i := Waiting];
    }

    method ProcessSettled(i: nat, ok: bool)
      requires ValidConfig(c) && Inv(c, Abs()) && i < |workers| && workers[i].Processing?
      modifies this
      ensures Abs() == ProcessSettles(old(Abs()), i, ok) && Inv(c, Abs())
    {
      SettleKeepsInv(c, Abs(), i, ok);
      var work := workers[i].work;
      finished := finished + multiset{work};
      if ok {
        workers := workers[i := Ready];
      } else {
        Fail(NotProcessed(work));
        workers := workers[i := Done];
        WakeWaiters();
      }
    }

    method PreparationResolved(works: seq<W>)
      requires ValidConfig(c) && Inv(c, Abs()) && preparing.InFlight?
      modifies this
      ensures Abs() == PreparationResolves(old(Abs()), works) && Inv(c, Abs())
    {
      StepKeepsInv(c, Abs(), Resolve(works));
      queue := queue + works;
      batches := batches + [works];
      preparing := Settled;
    }

    method PreparationRejected()
      requires ValidConfig(c) && Inv(c, Abs()) && preparing.InFlight?
      modifies this
      ensures Abs() == PreparationRejects(old(Abs())) && Inv(c, Abs())
    {
      StepKeepsInv(c, Abs(), Reject);
      Fail(NotPrepared);
      preparing := Settled;
    }

    method PreparationEnds()
      requires ValidConfig(c) && Inv(c, Abs()) && preparing.Settled?
      modifies this
      ensures Abs() == PreparationFinally(c, old(Abs())) && Inv(c, Abs())
    {
      StepKeepsInv<T, W>(c, Abs(), Finally);
      preparing := Idle;
      BeginWave();
      WakeWaiters();
    }
  }
}
