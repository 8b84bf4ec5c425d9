/** Timer policies: expiry by key, polling, debouncing and retries, over a clock whose timers fire at most once. */
module Timers {
  import opened Options

  // The clock --------------------------------------------------------------------------------------------------------

  /** A timer fires once, unless it is disposed of before. */
  datatype Timer<T> = Timer(what: T, live: bool)

  function Schedule<T>(timers: seq<Timer<T>>, what: T): seq<Timer<T>> { timers + [Timer(what, true)] }

  /** Disposing of a timer, and its firing, both end it. */
  function End<T>(timers: seq<Timer<T>>, handle: nat): seq<Timer<T>> {
    if handle < |timers| then timers[handle := timers[handle].(live := false)] else timers
  }

  predicate IsLive<T>(timers: seq<Timer<T>>, handle: nat) { handle < |timers| && timers[handle].live }

  // Expiry by key ----------------------------------------------------------------------------------------------------

  datatype Expiry = Expiry(timers: seq<Timer<string>>, pending: map<string, nat>, expired: seq<nat>) {

    /** A timer is live exactly if it is the pending one of its key, and none that has expired is. */
    ghost predicate Valid() {
      && (forall key :: key in pending ==> pending[key] < |timers| && timers[pending[key]].what == key)
      && (forall h :: 0 <= h < |timers| ==>
        (timers[h].live <==> timers[h].what in pending && pending[timers[h].what] == h))
      && (forall i :: 0 <= i < |expired| ==> expired[i] < |timers| && !timers[expired[i]].live)
      && (forall i, j :: 0 <= i < j < |expired| ==> expired[i] != expired[j])
    }

    function Arm(key: string): Expiry {
      var disposed := if key in pending then End(timers, pending[key]) else timers;
      this.(timers := Schedule(disposed, key), pending := pending[key := |timers|])
    }

    function Fire(handle: nat): Expiry
      requires IsLive(timers, handle)
    {
      this.(timers := End(timers, handle), pending := pending - {timers[handle].what}, expired := expired + [handle])
    }

    /** The handle that arming returned is disposed of: a stale one changes nothing. */
    function Dispose(handle: nat): Expiry
      requires handle < |timers|
    {
      var key := timers[handle].what;
      if key !in pending || pending[key] != handle then this
      else this.(pending := pending - {key}, timers := End(timers, handle))
    }
  }

  lemma ArmStaysValid(e: Expiry, key: string)
    requires e.Valid()
    ensures e.Arm(key).Valid()
  {
  }

  lemma FireStaysValid(e: Expiry, handle: nat)
    requires e.Valid() && IsLive(e.timers, handle)
    ensures e.Fire(handle).Valid()
  {
  }

  lemma DisposeStaysValid(e: Expiry, handle: nat)
    requires e.Valid() && handle < |e.timers|
    ensures e.Dispose(handle).Valid()
  {
  }

  /** A key has at most one live timer. */
  lemma OneLiveTimerPerKey(e: Expiry, g: nat, h: nat)
    requires e.Valid() && IsLive(e.timers, g) && IsLive(e.timers, h) && e.timers[g].what == e.timers[h].what
    ensures g == h
  {
  }

  /** Arming a key ends its earlier timer and no other; disposing of a handle whose timer is not live ends none. */
  lemma StaleHandlesAreHarmless(e: Expiry, key: string, handle: nat)
    requires e.Valid() && handle < |e.timers|
    ensures !e.timers[handle].live ==> e.Dispose(handle) == e
    ensures forall h :: 0 <= h < |e.timers| && h != handle ==>
      IsLive(e.Dispose(handle).timers, h) == IsLive(e.timers, h)
    ensures !IsLive(e.Dispose(handle).timers, handle)
    ensures forall h :: 0 <= h < |e.timers| ==>
      (IsLive(e.Arm(key).timers, h) <==> e.timers[h].live && e.timers[h].what != key)
    ensures IsLive(e.Arm(key).timers, |e.timers|)
  {
  }

  datatype ExpiryStep = DoArm(key: string) | DoFire(handle: nat) | DoDispose(handle: nat)

  predicate ExpiryEnabled(e: Expiry, step: ExpiryStep) {
    match step
    case DoArm(_) => true
    case DoFire(handle) => IsLive(e.timers, handle)
    case DoDispose(handle) => handle < |e.timers|
  }

  function ExpiryApply(e: Expiry, step: ExpiryStep): Expiry
    requires ExpiryEnabled(e, step)
  {
    match step
    case DoArm(key) => e.Arm(key)
    case DoFire(handle) => e.Fire(handle)
    case DoDispose(handle) => e.Dispose(handle)
  }

  /** Which timers are live after a step: a new one, and those from before that the step does not end. And a timer
      expires exactly when it fires. */
  lemma LiveAfter(e: Expiry, step: ExpiryStep, handle: nat)
    requires e.Valid() && ExpiryEnabled(e, step)
    ensures
      var next := ExpiryApply(e, step);
      && |next.timers| == |e.timers| + (if step.DoArm? then 1 else 0)
      && (handle < |e.timers| ==> next.timers[handle].what == e.timers[handle].what)
      && (step.DoArm? ==> next.timers[|e.timers|] == Timer(step.key, true))
      && next.expired == e.expired + (if step.DoFire? then [step.handle] else [])
      && (handle < |e.timers| ==>
            (IsLive(next.timers, handle) <==>
             IsLive(e.timers, handle) &&
             match step
             case DoArm(key) => e.timers[handle].what != key
             case DoFire(fired) => handle != fired
             case DoDispose(disposed) => handle != disposed))
  {
  }

  predicate ExpiryPossible(e: Expiry, steps: seq<ExpiryStep>)
    decreases |steps|
  {
    steps != [] ==> ExpiryEnabled(e, steps[0]) && ExpiryPossible(ExpiryApply(e, steps[0]), steps[1..])
  }

  function ExpiryFinal(e: Expiry, steps: seq<ExpiryStep>): Expiry
    requires ExpiryPossible(e, steps)
    decreases |steps|
  {
    if steps == [] then e else ExpiryFinal(ExpiryApply(e, steps[0]), steps[1..])
  }

  /** Once a timer has ended, by expiring or not, no run brings it back: it expires at most once, and not if ended
      before. */
  lemma {:induction false} EndedStaysEnded(e: Expiry, steps: seq<ExpiryStep>, handle: nat)
    requires e.Valid() && ExpiryPossible(e, steps) && handle < |e.timers| && !e.timers[handle].live
    ensures
      var last := ExpiryFinal(e, steps);
      && last.Valid() && handle < |last.timers| && !last.timers[handle].live
      && (handle in last.expired <==> handle in e.expired)
    decreases |steps|
  {
    if steps != [] {
      var step, next := steps[0], ExpiryApply(e, steps[0]);
      match step {
        case DoArm(key) => ArmStaysValid(e, key);
        case DoFire(fired) => FireStaysValid(e, fired);
        case DoDispose(disposed) => DisposeStaysValid(e, disposed);
      }
      EndedStaysEnded(next, steps[1..], handle);
    }
  }

  class ExpiryPolicy {
    var timers: seq<Timer<string>>
    var pending: map<string, nat>
    ghost var expired: seq<nat>

    ghost function Abs(): Expiry
      reads this
    {
      Expiry(timers, pending, expired)
    }

    constructor ()
      ensures Abs() == Expiry([], map[], []) && Abs().Valid()
    {
      timers, pending, expired := [], map[], [];
    }

    method Arm(key: string) returns (handle: nat)
      requires Abs().Valid()
      modifies this
      ensures Abs().Valid() && Abs() == old(Abs().Arm(key)) && handle == |old(timers)|
    {
      ArmStaysValid(Abs(), key);
      if key in pending {
        timers := End(timers, pending[key]);
      }
      handle := |timers|;
      timers := Schedule(timers, key);
      pending := pending[key := handle];
    }

    method OnTimer(handle: nat)
      requires Abs().Valid() && IsLive(timers, handle)
      modifies this
      ensures Abs().Valid() && Abs() == old(Abs().Fire(handle))
    {
      FireStaysValid(Abs(), handle);
      pending := pending - {timers[handle].what};
      timers := End(timers, handle);
      expired := expired + [handle];
    }

    method Dispose(handle: nat)
      requires Abs().Valid() && handle < |timers|
      modifies this
      ensures Abs().Valid() && Abs() == old(Abs().Dispose(handle))
    {
      DisposeStaysValid(Abs(), handle);
      var key := timers[handle].what;
      if key !in pending || pending[key] != handle {
        return;
      }
      pending := pending - {key};
      timers := End(timers, handle);
    }
  }

  // Polling ----------------------------------------------------------------------------------------------------------

  /** The tick under way: its call has not returned yet, or its promise has not settled. */
  datatype Tick = NoTick | Calling | Settling

  datatype Polling = Polling(timers: seq<Timer<()>>, active: bool, scheduled: Option<nat>, tick: Tick, started: nat) {

    /** The next tick is either under way or scheduled, never both, and after disposal it is not scheduled. */
    ghost predicate Valid() {
      && (forall h :: 0 <= h < |timers| ==> (timers[h].live <==> scheduled == Some(h)))
      && (scheduled.Some? ==> scheduled.value < |timers| && active && tick.NoTick?)
      && (active ==> scheduled.Some? || !tick.NoTick?)
    }

    function Dispose(): Polling {
      if !active then this
      else this.(active := false, scheduled := None, timers := if scheduled.Some? then End(timers, scheduled.value)
        else timers)
    }

    function Run(): Polling {
      if active then this.(scheduled := None, tick := Calling, started := started + 1) else this.(scheduled := None)
    }

    function Fire(handle: nat): Polling { this.(timers := End(timers, handle)).Run() }

    function CallReturns(throws: bool): Polling {
      if throws then this.(tick := NoTick).Dispose() else this.(tick := Settling)
    }

    function TickSettles(ok: bool): Polling {
      var s := this.(tick := NoTick);
      if !ok then s.Dispose()
      else if active then s.(timers := Schedule(timers, ()), scheduled := Some(|timers|))
      else s
    }
  }

  /** Polling starts with a tick, unless the signal has been aborted before. */
  function Started(aborted: bool): Polling {
    var begun := Polling([], true, None, NoTick, 0);
    if aborted then begun.Dispose() else begun.Run()
  }

  lemma PollingStaysValid(p: Polling, handle: nat, flag: bool)
    requires p.Valid()
    ensures Started(flag).Valid()
    ensures p.Dispose().Valid()
    ensures IsLive(p.timers, handle) ==> p.Fire(handle).Valid()
    ensures p.tick.Calling? ==> p.CallReturns(flag).Valid()
    ensures p.tick.Settling? ==> p.TickSettles(flag).Valid()
  {
  }

  datatype PollingStep = DoDisposePolling | DoFirePolling(handle: nat) | DoCallReturns(throws: bool)
      | DoTickSettles(ok: bool)

  predicate PollingEnabled(p: Polling, step: PollingStep) {
    match step
    case DoDisposePolling => true
    case DoFirePolling(handle) => IsLive(p.timers, handle)
    case DoCallReturns(_) => p.tick.Calling?
    case DoTickSettles(_) => p.tick.Settling?
  }

  function PollingApply(p: Polling, step: PollingStep): Polling
    requires PollingEnabled(p, step)
  {
    match step
    case DoDisposePolling => p.Dispose()
    case DoFirePolling(handle) => p.Fire(handle)
    case DoCallReturns(throws) => p.CallReturns(throws)
    case DoTickSettles(ok) => p.TickSettles(ok)
  }

  /** A tick starts only while polling is active and no tick is under way; polling that is active goes on. */
  lemma TicksDoNotOverlap(p: Polling, step: PollingStep)
    requires p.Valid() && PollingEnabled(p, step)
    ensures
      var next := PollingApply(p, step);
      && next.Valid()
      && (next.started != p.started ==>
        next.started == p.started + 1 && p.active && p.tick.NoTick? && next.tick.Calling?)
      && (!p.active ==> !next.active)
      && (next.active && next.tick.NoTick? ==> next.scheduled.Some? && IsLive(next.timers, next.scheduled.value))
  {
    PollingStaysValid(p, if step.DoFirePolling? then step.handle else 0,
      if step.DoCallReturns? then step.throws else if step.DoTickSettles? then step.ok else false);
  }

  /** What ends polling: being disposed of, a tick that throws, a tick that is rejected. */
  predicate EndsPolling(step: PollingStep) {
    step.DoDisposePolling? || (step.DoCallReturns? && step.throws) || (step.DoTickSettles? && !step.ok)
  }

  /** Polling goes on until something ends it. A timer that fires starts the tick; a tick that settles well schedules
      the next; and no timer is left when polling has ended. */
  lemma PollingGoesOn(p: Polling, step: PollingStep, handle: nat)
    requires p.Valid() && PollingEnabled(p, step)
    ensures
      var next := PollingApply(p, step);
      && (next.active <==> p.active && !EndsPolling(step))
      && next.started == p.started + (if step.DoFirePolling? then 1 else 0)
      && next.tick == (match step
                       case DoDisposePolling => p.tick
                       case DoFirePolling(_) => Calling
                       case DoCallReturns(throws) => if throws then NoTick else Settling
                       case DoTickSettles(_) => NoTick)
      && (IsLive(next.timers, handle) <==>
            next.active &&
            ((IsLive(p.timers, handle) && !(step.DoFirePolling? && step.handle == handle)) ||
             (step.DoTickSettles? && handle == |p.timers|)))
  {
  }

  lemma PollingStarts(aborted: bool)
    ensures
      var p := Started(aborted);
      && p.active == !aborted && p.timers == [] && p.started == (if aborted then 0 else 1)
      && p.tick == if aborted then NoTick else Calling
  {
  }

  predicate PollingPossible(p: Polling, steps: seq<PollingStep>)
    decreases |steps|
  {
    steps != [] ==> PollingEnabled(p, steps[0]) && PollingPossible(PollingApply(p, steps[0]), steps[1..])
  }

  function PollingFinal(p: Polling, steps: seq<PollingStep>): Polling
    requires PollingPossible(p, steps)
    decreases |steps|
  {
    if steps == [] then p else PollingFinal(PollingApply(p, steps[0]), steps[1..])
  }

  /** After disposal no run starts a tick. */
  lemma {:induction false} NoTickAfterDispose(p: Polling, steps: seq<PollingStep>)
    requires p.Valid() && !p.active && PollingPossible(p, steps)
    ensures PollingFinal(p, steps).started == p.started
    decreases |steps|
  {
    hide PollingApply, PollingEnabled;
    if steps != [] {
      TicksDoNotOverlap(p, steps[0]);
      NoTickAfterDispose(PollingApply(p, steps[0]), steps[1..]);
    }
  }

  class PollingPolicy {
    var timers: seq<Timer<()>>
    var active: bool
    var scheduled: Option<nat>
    ghost var tick: Tick
    ghost var started: nat

    ghost function Abs(): Polling
      reads this
    {
      Polling(timers, active, scheduled, tick, started)
    }

    constructor (aborted: bool)
      ensures Abs() == Started(aborted) && Abs().Valid()
    {
      timers, active, scheduled, tick, started := [], true, None, NoTick, 0;
      new;
      if aborted {
        Dispose();
      } else {
        Run();
      }
    }

    method Dispose()
      modifies this
      ensures Abs() == old(Abs().Dispose())
    {
      if !active {
        return;
      }
      active := false;
      if scheduled.Some? {
        timers := End(timers, scheduled.value);
      }
      scheduled := None;
    }

    method Run()
      modifies this
      ensures Abs() == old(Abs().Run())
    {
      scheduled := None;
      if !active {
        return;
      }
      tick, started := Calling, started + 1;
    }

    method OnTimer(handle: nat)
      requires Abs().Valid() && IsLive(timers, handle)
      modifies this
      ensures Abs().Valid() && Abs() == old(Abs().Fire(handle))
    {
      PollingStaysValid(Abs(), handle, true);
      timers := End(timers, handle);
      Run();
    }

    method AfterCall(throws: bool)
      requires Abs().Valid() && tick.Calling?
      modifies this
      ensures Abs().Valid() && Abs() == old(Abs().CallReturns(throws))
    {
      PollingStaysValid(Abs(), 0, throws);
      if throws {
        tick := NoTick;
        Dispose();
      } else {
        tick := Settling;
      }
    }

    method AfterTick(ok: bool)
      requires Abs().Valid() && tick.Settling?
      modifies this
      ensures Abs().Valid() && Abs() == old(Abs().TickSettles(ok))
    {
      PollingStaysValid(Abs(), 0, ok);
      tick := NoTick;
      if !ok {
        Dispose();
      } else if active {
        scheduled := Some(|timers|);
        timers := Schedule(timers, ());
      }
    }
  }

  // Debouncing -------------------------------------------------------------------------------------------------------

  /** A debounced function: the timer of its last call, and the calls made and run, by the order they were made. */
  datatype Debounced<A> = Debounced(timers: seq<Timer<nat>>, active: bool, scheduled: Option<nat>, calls: seq<A>,
      ran: seq<nat>) {

    /** Only the last call can still run, and no call runs twice. */
    ghost predicate Valid() {
      && (forall h :: 0 <= h < |timers| ==> (timers[h].live <==> scheduled == Some(h)))
      && (scheduled.Some? ==>
            scheduled.value < |timers| && active && calls != [] && timers[scheduled.value].what == |calls| - 1)
      && (forall i :: 0 <= i < |ran| ==> ran[i] < |calls|)
      && (forall i, j :: 0 <= i < j < |ran| ==> ran[i] < ran[j])
      && (scheduled.Some? && ran != [] ==> ran[|ran| - 1] < |calls| - 1)
    }

    function Disposed(): seq<Timer<nat>> { if scheduled.Some? then End(timers, scheduled.value) else timers }

    function Call(args: A): Debounced<A> {
      if !active then this
      else this.(timers := Schedule(Disposed(), |calls|), scheduled := Some(|timers|), calls := calls + [args])
    }

    function Fire(handle: nat): Debounced<A>
      requires IsLive(timers, handle)
    {
      this.(timers := End(timers, handle), scheduled := None, ran := ran + [timers[handle].what])
    }

    function Dispose(): Debounced<A> {
      if !active then this else this.(active := false, timers := Disposed(), scheduled := None)
    }
  }

  /** A call ends the wait of the one before: from then on, only its own timer is live. */
  lemma CallsSupersede<A>(d: Debounced<A>, args: A)
    requires d.Valid()
    ensures d.Call(args).Valid()
    ensures d.active ==> forall h :: IsLive(d.Call(args).timers, h) <==> h == |d.timers|
    ensures d.active ==> d.Call(args).calls == d.calls + [args] && d.Call(args).ran == d.ran && d.Call(args).active
    ensures !d.active ==> d.Call(args) == d && forall h :: !IsLive(d.timers, h)
  {
  }

  /** What runs is the last call made, with its arguments, and it has not run before. */
  lemma OnlyTheLastCallRuns<A>(d: Debounced<A>, handle: nat)
    requires d.Valid() && IsLive(d.timers, handle)
    ensures d.Fire(handle).Valid() && d.Fire(handle).ran == d.ran + [|d.calls| - 1] && |d.calls| - 1 !in d.ran
    ensures d.Fire(handle).calls == d.calls && d.Fire(handle).active && forall h :: !IsLive(d.Fire(handle).timers, h)
  {
    assert d.scheduled == Some(handle);
  }

  /** After disposal nothing can run. */
  lemma NothingRunsAfterDispose<A>(d: Debounced<A>)
    requires d.Valid()
    ensures d.Dispose().Valid() && !d.Dispose().active && forall h :: !IsLive(d.Dispose().timers, h)
    ensures d.Dispose().calls == d.calls && d.Dispose().ran == d.ran
  {
  }

  class DebouncePolicy<A> {
    var timers: seq<Timer<nat>>
    var active: bool
    var scheduled: Option<nat>
    var calls: seq<A>
    ghost var ran: seq<nat>

    ghost function Abs(): Debounced<A>
      reads this
    {
      Debounced(timers, active, scheduled, calls, ran)
    }

    constructor ()
      ensures Abs() == Debounced([], true, None, [], []) && Abs().Valid()
    {
      timers, active, scheduled, calls, ran := [], true, None, [], [];
    }

    method Call(args: A)
      requires Abs().Valid()
      modifies this
      ensures Abs().Valid() && Abs() == old(Abs().Call(args))
    {
      CallsSupersede(Abs(), args);
      if !active {
        return;
      }
      var handle := |timers|;
      if scheduled.Some? {
        timers := End(timers, scheduled.value);
      }
      timers := Schedule(timers, |calls|);
      scheduled := Some(handle);
      calls := calls + [args];
    }

    method OnTimer(handle: nat) returns (args: A)
      requires Abs().Valid() && IsLive(timers, handle)
      modifies this
      ensures Abs().Valid() && Abs() == old(Abs().Fire(handle)) && args == calls[|calls| - 1]
    {
      OnlyTheLastCallRuns(Abs(), handle);
      args := calls[timers[handle].what];
      scheduled := None;
      ran := ran + [timers[handle].what];
      timers := End(timers, handle);
    }

    method Dispose()
      requires Abs().Valid()
      modifies this
      ensures Abs().Valid() && Abs() == old(Abs().Dispose())
    {
      if !active {
        return;
      }
      active := false;
      if scheduled.Some? {
        timers := End(timers, scheduled.value);
      }
      scheduled := None;
    }
  }

  // Retries ----------------------------------------------------------------------------------------------------------

  /** Delays as real numbers; `largest` is the greatest number the growth is kept to. */
  datatype RetryOptions = RetryOptions(maxAttempts: nat, initialDelayMs: real, maxDelayMs: real, backoffFactor: real,
      largest: real)

  ghost predicate ValidOptions(o: RetryOptions) {
    o.maxAttempts >= 1 && 0.0 <= o.initialDelayMs <= o.maxDelayMs && o.backoffFactor >= 1.0 && o.largest >= 1.0
  }

  function Min(a: real, b: real): real { if a < b then a else b }

  function Power(base: real, n: nat): real { if n == 0 then 1.0 else base * Power(base, n - 1) }

  function Grown(o: RetryOptions, attempt: nat): real
    requires attempt >= 1
  {
    o.initialDelayMs * Min(Power(o.backoffFactor, attempt - 1), o.largest)
  }

  function Delay(o: RetryOptions, attempt: nat): real
    requires attempt >= 1
  {
    Min(o.maxDelayMs, Grown(o, attempt))
  }

  lemma {:induction false} PowerGrows(base: real, n: nat)
    requires base >= 1.0
    ensures 1.0 <= Power(base, n) <= Power(base, n + 1)
  {
    if n > 0 {
      PowerGrows(base, n - 1);
      Scales(1.0, base, Power(base, n));
    } else {
      assert Power(base, 1) == base * Power(base, 0);
    }
  }

  lemma Scales(a: real, b: real, c: real)
    requires a <= b && c >= 0.0
    ensures c * a <= c * b
  {
  }

  lemma GrowthStarts(o: RetryOptions)
    requires ValidOptions(o)
    ensures Grown(o, 1) == o.initialDelayMs
  {
    assert Power(o.backoffFactor, 0) == 1.0;
    assert o.initialDelayMs * 1.0 == o.initialDelayMs;
  }

  lemma GrowthGrows(o: RetryOptions, attempt: nat)
    requires ValidOptions(o) && attempt >= 1
    ensures Grown(o, attempt) <= Grown(o, attempt + 1)
  {
    PowerGrows(o.backoffFactor, attempt - 1);
    hide Power;
    Scales(Min(Power(o.backoffFactor, attempt - 1), o.largest), Min(Power(o.backoffFactor, attempt), o.largest),
      o.initialDelayMs);
  }

  /** The first delay is the initial one, and later ones do not get shorter, nor longer than the limit. */
  lemma {:induction false} DelaysGrowToTheLimit(o: RetryOptions, attempt: nat)
    requires ValidOptions(o) && attempt >= 1
    ensures Delay(o, 1) == o.initialDelayMs
    ensures o.initialDelayMs <= Delay(o, attempt) <= Delay(o, attempt + 1) <= o.maxDelayMs
  {
    hide Grown;
    GrowthStarts(o);
    GrowthGrows(o, attempt);
    if attempt > 1 {
      DelaysGrowToTheLimit(o, attempt - 1);
    }
  }

  /** Each delay is the one before times the factor, or the limit, as long as the growth is not kept down. */
  lemma DelaysMultiply(o: RetryOptions, attempt: nat)
    requires ValidOptions(o) && attempt >= 1 && Power(o.backoffFactor, attempt) <= o.largest
    ensures Delay(o, attempt + 1) == Min(o.maxDelayMs, Delay(o, attempt) * o.backoffFactor)
  {
    var before, factor := Power(o.backoffFactor, attempt - 1), o.backoffFactor;
    PowerGrows(factor, attempt - 1);
    assert Power(factor, attempt) == factor * before;
    hide Power;
    var grown := o.initialDelayMs * before;
    assert Grown(o, attempt) == grown && Grown(o, attempt + 1) == o.initialDelayMs * (factor * before);
    Reorder(o.initialDelayMs, before, factor);
    Limits(o.maxDelayMs, grown, factor);
  }

  lemma Reorder(a: real, b: real, c: real)
    ensures a * (c * b) == (a * b) * c
  {
  }

  lemma Limits(limit: real, x: real, factor: real)
    requires limit >= 0.0 && factor >= 1.0
    ensures Min(limit, x * factor) == Min(limit, Min(limit, x) * factor)
  {
    if limit <= x {
      Scales(1.0, factor, limit);
      ScalesRight(limit, x, factor);
    }
  }

  lemma ScalesRight(a: real, b: real, c: real)
    requires a <= b && c >= 0.0
    ensures a * c <= b * c
  {
  }

  /** What happens around one attempt: whether the signal is aborted before it, how its work ends, whether the failure
      may be retried, and whether the signal is aborted while waiting for the next. */
  datatype Attempt = Attempt(abortedBefore: bool, work: Work, retryable: bool, abortedInDelay: bool)

  datatype Work = Succeeds | Fails | IsAborted

  datatype Outcome = Returned | Threw | Aborted

  /** An attempt after which another is made. */
  predicate LeadsOn(o: RetryOptions, plan: nat -> Attempt, attempt: nat) {
    && !plan(attempt).abortedBefore && plan(attempt).work.Fails? && attempt < o.maxAttempts && plan(attempt).retryable
    && !plan(attempt).abortedInDelay
  }

  /** The attempts are 1, 2, and so on, at most as many as allowed, each after the delay of the one before; the last one
      decides. */
  method RunWithRetry(o: RetryOptions, plan: nat -> Attempt)
      returns (outcome: Outcome, attempts: seq<nat>, delays: seq<real>)
    requires ValidOptions(o)
    ensures |attempts| <= o.maxAttempts && forall i :: 0 <= i < |attempts| ==> attempts[i] == i + 1
    ensures forall i :: 0 <= i < |delays| ==> delays[i] == Delay(o, i + 1)
    ensures forall n: nat :: 1 <= n < |attempts| ==> LeadsOn(o, plan, n)
    ensures outcome.Returned? ==> attempts != [] && plan(|attempts|).work.Succeeds? && |delays| == |attempts| - 1
    ensures outcome.Threw? ==>
      && attempts != [] && plan(|attempts|).work.Fails? && |delays| == |attempts| - 1
      && (|attempts| == o.maxAttempts || !plan(|attempts|).retryable)
    ensures outcome.Aborted? ==>
      || (|delays| == |attempts| && plan(|attempts| + 1).abortedBefore)
      || (attempts != [] && plan(|attempts|).work.IsAborted? && |delays| == |attempts| - 1)
      || (attempts != [] && plan(|attempts|).abortedInDelay && |delays| == |attempts|)
  {
    attempts, delays := [], [];
    var attempt := 1;
    while true
      invariant 1 <= attempt <= o.maxAttempts && |attempts| == |delays| == attempt - 1
      invariant forall i :: 0 <= i < |attempts| ==> attempts[i] == i + 1
      invariant forall n: nat :: 1 <= n < attempt ==> LeadsOn(o, plan, n)
      invariant forall i :: 0 <= i < |delays| ==> delays[i] == Delay(o, i + 1)
      decreases o.maxAttempts - attempt
    {
      if plan(attempt).abortedBefore {
        return Aborted, attempts, delays;
      }
      attempts := attempts + [attempt];
      if plan(attempt).work.Succeeds? {
        return Returned, attempts, delays;
      }
      if plan(attempt).work.IsAborted? {
        return Aborted, attempts, delays;
      }
      if attempt >= o.maxAttempts || !plan(attempt).retryable {
        return Threw, attempts, delays;
      }
      delays := delays + [Delay(o, attempt)];
      if plan(attempt).abortedInDelay {
        return Aborted, attempts, delays;
      }
      attempt := attempt + 1;
    }
  }
}
