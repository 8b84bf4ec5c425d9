/** The transcript mirror's write lanes: one job at a time per conversation, with newer checkpoints coalescing into one
    queued job while it runs. Writes are numbered in the order they are made; a write's own number is its job's. */
module WriteLanes {
  import opened Options
  import opened Sets

  type Conversation = string

  datatype Result = Written(ok: bool) | Rejected

  /** A job with the writes whose promises it is to settle. */
  datatype Entry = Entry(job: nat, resolvers: seq<nat>)

  datatype Lane = Lane(isRunning: bool, queued: Option<Entry>)

  /** How a promise was settled, and by which job. */
  datatype Settlement = Settlement(job: nat, result: Result)

  /** The pool, the jobs that wait for their worker, and the record of every write so far: its conversation, its
      settlement, and the results of the jobs. */
  datatype State = State(
    isClosed: bool, lanes: map<Conversation, Lane>, inFlight: map<Conversation, Entry>,
    writes: seq<Conversation>, settled: map<nat, Settlement>, results: map<nat, Result>)

  // The steps ----------------------------------------------------------------------------------------------------

  /** Every waiter of the job gets its result. */
  function Settle(s: State, e: Entry, result: Result): State {
    s.(settled := s.settled + (map w | w in e.resolvers :: Settlement(e.job, result)),
       results := s.results[e.job := result])
  }

  /** runJob up to its first await: the job is on its way, unless no worker can take it. No other job of the
      conversation may be. */
  function StartJob(s: State, c: Conversation, e: Entry, spawns: bool): State
    requires c in s.lanes && c !in s.inFlight
    decreases s.lanes[c].queued.Some?, 1
  {
    if s.isClosed || !spawns then EndJob(s, c, e, Rejected, spawns)
    else s.(inFlight := s.inFlight[c := e])
  }

  /** The rest of runJob: every waiter is settled; then the queued job runs, or the lane is gone. */
  function EndJob(s: State, c: Conversation, e: Entry, result: Result, spawns: bool): State
    requires c in s.lanes && c !in s.inFlight
    decreases s.lanes[c].queued.Some?, 0
  {
    var s' := Settle(s, e, result);
    match s.lanes[c].queued
    case Some(next) => StartJob(s'.(lanes := s.lanes[c := s.lanes[c].(queued := None)]), c, next, spawns)
    case None => s'.(lanes := s.lanes - {c})
  }

  /** The job in flight for a conversation comes back. */
  function JobSettles(s: State, c: Conversation, result: Result, spawns: bool): State
    requires c in s.inFlight && c in s.lanes
  {
    EndJob(s.(inFlight := s.inFlight - {c}), c, s.inFlight[c], result, spawns)
  }

  function Coalesce(queued: Option<Entry>, w: nat): Entry {
    match queued
    case None => Entry(w, [w])
    case Some(e) => Entry(w, e.resolvers + [w])
  }

  function SubmitWrite(s: State, c: Conversation, spawns: bool): State
    requires s.lanes.Keys == s.inFlight.Keys && (c in s.lanes ==> s.lanes[c].isRunning)
  {
    var w := |s.writes|;
    var s' := s.(writes := s.writes + [c]);
    if s.isClosed then Settle(s', Entry(w, [w]), Rejected)
    else
      var lane := if c in s.lanes then s.lanes[c] else Lane(false, None);
      if lane.isRunning then s'.(lanes := s.lanes[c := lane.(queued := Some(Coalesce(lane.queued, w)))])
      else StartJob(s'.(lanes := s.lanes[c := lane.(isRunning := true)]), c, Entry(w, [w]), spawns)
  }

  function Close(s: State): State { s.(isClosed := true) }

  // The invariant ------------------------------------------------------------------------------------------------

  /** The waiters of a job are unsettled writes to its conversation, none newer than the job, each once; the job's own
      write is one of them. */
  ghost predicate GoodEntry(s: State, c: Conversation, e: Entry) {
    && e.job < |s.writes| && s.writes[e.job] == c && e.job in e.resolvers && e.job !in s.results
    && (forall w :: w in e.resolvers ==> w <= e.job && s.writes[w] == c && w !in s.settled)
    && (forall i, j :: 0 <= i < j < |e.resolvers| ==> e.resolvers[i] != e.resolvers[j])
  }

  /** The queued entry, if any, is good, newer than the job that runs, and shares no waiter with it. */
  ghost predicate GoodQueue(s: State, c: Conversation, running: Entry)
    requires c in s.lanes
  {
    s.lanes[c].queued.Some? ==>
      && GoodEntry(s, c, s.lanes[c].queued.value)
      && running.job < s.lanes[c].queued.value.job
      && forall w :: w in s.lanes[c].queued.value.resolvers ==> w !in running.resolvers
  }

  ghost predicate GoodLane(s: State, c: Conversation, running: Entry) {
    c in s.lanes && s.lanes[c].isRunning && GoodEntry(s, c, running) && GoodQueue(s, c, running)
  }

  ghost predicate GoodSettlement(s: State, w: nat)
    requires w in s.settled
  {
    var job := s.settled[w].job;
    && w <= job < |s.writes| && s.writes[job] == s.writes[w]
    && job in s.results && s.results[job] == s.settled[w].result
  }

  ghost predicate WaitsFor(s: State, w: int, e: Entry)
    requires 0 <= w < |s.writes| && s.writes[w] in s.lanes
  {
    var queued := s.lanes[s.writes[w]].queued;
    w in e.resolvers || (queued.Some? && w in queued.value.resolvers)
  }

  ghost predicate GoodRecord(s: State) {
    && (forall w :: w in s.settled ==> w < |s.writes| && GoodSettlement(s, w))
    && (forall job :: job in s.results ==> job < |s.writes|)
  }

  /** A conversation has a lane exactly while a job of it is in flight; every write is settled, by a job that is no
      older than itself, or waits for the job that runs or the one that is queued. */
  ghost predicate Inv(s: State) {
    && s.lanes.Keys == s.inFlight.Keys
    && (forall c :: c in s.inFlight ==> GoodLane(s, c, s.inFlight[c]))
    && GoodRecord(s)
    && (forall w :: 0 <= w < |s.writes| && w !in s.settled ==>
          s.writes[w] in s.lanes && WaitsFor(s, w, s.inFlight[s.writes[w]]))
  }

  /** Inside runJob, with the entry in hand: as the invariant says, with the entry in the place of a job in flight. */
  ghost predicate InHand(s: State, c: Conversation, e: Entry) {
    c !in s.inFlight && Inv(s.(inFlight := s.inFlight[c := e]))
  }

  const Empty := State(false, map[], map[], [], map[], map[])

  lemma EmptyInv()
    ensures Inv(Empty) && !Empty.isClosed
  {
  }

  lemma CloseKeepsInv(s: State)
    requires Inv(s)
    ensures Inv(Close(s))
  {
    hide GoodLane, GoodSettlement, WaitsFor;
    forall c | c in s.inFlight
      ensures GoodLane(Close(s), c, s.inFlight[c])
    {
      CloseKeepsLane(s, c, s.inFlight[c]);
    }
    forall w | w in s.settled
      ensures GoodSettlement(Close(s), w)
    {
      CloseKeepsSettlement(s, w);
    }
    forall w | 0 <= w < |s.writes| && w !in s.settled
      ensures WaitsFor(Close(s), w, s.inFlight[s.writes[w]])
    {
      CloseKeepsWaiting(s, w, s.inFlight[s.writes[w]]);
    }
  }

  lemma CloseKeepsLane(s: State, c: Conversation, e: Entry)
    requires GoodLane(s, c, e)
    ensures GoodLane(Close(s), c, e)
  {
    assert GoodEntry(Close(s), c, e);
    if s.lanes[c].queued.Some? {
      assert GoodEntry(Close(s), c, s.lanes[c].queued.value);
    }
  }

  lemma CloseKeepsSettlement(s: State, w: nat)
    requires w in s.settled && GoodSettlement(s, w)
    ensures GoodSettlement(Close(s), w)
  {
  }

  lemma CloseKeepsWaiting(s: State, w: int, e: Entry)
    requires 0 <= w < |s.writes| && s.writes[w] in s.lanes && WaitsFor(s, w, e)
    ensures WaitsFor(Close(s), w, e)
  {
  }

  /** Settling one conversation's entry leaves another conversation's lane as it was. */
  lemma SettleOtherLane(s: State, c: Conversation, e: Entry, result: Result, c': Conversation, running: Entry)
    requires GoodEntry(s, c, e) && c' != c && GoodLane(s, c', running)
    ensures GoodLane(Settle(s, e, result), c', running)
  {
  }

  /** Settling the entry in hand leaves the queue behind it good. */
  lemma SettleKeepsQueue(s: State, c: Conversation, e: Entry, result: Result)
    requires c in s.lanes && GoodEntry(s, c, e) && GoodQueue(s, c, e)
    ensures GoodQueue(Settle(s, e, result), c, e)
  {
  }

  lemma SettleKeepsRecord(s: State, c: Conversation, e: Entry, result: Result)
    requires GoodRecord(s) && GoodEntry(s, c, e)
    ensures GoodRecord(Settle(s, e, result))
  {
    var s' := Settle(s, e, result);
    forall w | w in s'.settled ensures w < |s'.writes| && GoodSettlement(s', w) {
      if w !in e.resolvers {
        assert GoodSettlement(s, w);
      }
    }
  }

  /** After settling, the lane goes when nothing is queued; else the queued entry is in hand. */
  lemma AfterSettle(s: State, c: Conversation, e: Entry, result: Result)
    requires InHand(s, c, e)
    ensures c in s.lanes
    ensures s.lanes[c].queued.None? ==> Inv(Settle(s, e, result).(lanes := s.lanes - {c}))
    ensures s.lanes[c].queued.Some? ==>
      InHand(Settle(s, e, result).(lanes := s.lanes[c := s.lanes[c].(queued := None)]), c, s.lanes[c].queued.value)
  {
    hide GoodEntry, GoodSettlement, Settle;
    var s0 := s.(inFlight := s.inFlight[c := e]);
    assert GoodLane(s0, c, e);
    if s.lanes[c].queued.None? {
      AfterLast(s, c, e, result);
    } else {
      AfterOneOfMore(s, c, e, result);
    }
  }

  lemma AfterLast(s: State, c: Conversation, e: Entry, result: Result)
    requires InHand(s, c, e) && c in s.lanes && s.lanes[c].queued.None?
    ensures Inv(Settle(s, e, result).(lanes := s.lanes - {c}))
  {
    hide GoodEntry, GoodSettlement, GoodRecord;
    var s0 := s.(inFlight := s.inFlight[c := e]);
    assert GoodLane(s0, c, e);
    SettleKeepsRecord(s0, c, e, result);
    var s' := Settle(s, e, result).(lanes := s.lanes - {c});
    forall c' | c' in s'.inFlight ensures GoodLane(s', c', s'.inFlight[c']) {
      assert GoodLane(s0, c', s0.inFlight[c']);
      OtherLaneSurvives(s0, c, e, result, c', s');
    }
    forall w | 0 <= w < |s'.writes| && w !in s'.settled
      ensures s'.writes[w] in s'.lanes && WaitsFor(s', w, s'.inFlight[s'.writes[w]])
    {
      assert WaitsFor(s0, w, s0.inFlight[s0.writes[w]]);
    }
    SameRecord(Settle(s0, e, result), s');
  }

  lemma AfterOneOfMore(s: State, c: Conversation, e: Entry, result: Result)
    requires InHand(s, c, e) && c in s.lanes && s.lanes[c].queued.Some?
    ensures InHand(Settle(s, e, result).(lanes := s.lanes[c := s.lanes[c].(queued := None)]), c,
      s.lanes[c].queued.value)
  {
    hide GoodEntry, GoodSettlement, GoodRecord;
    var s0 := s.(inFlight := s.inFlight[c := e]);
    assert GoodLane(s0, c, e);
    SameLane(s0, s, c, e);
    SettleKeepsRecord(s0, c, e, result);
    SettleKeepsQueue(s, c, e, result);
    var s1 := Settle(s, e, result);
    var next := s.lanes[c].queued.value;
    var s' := s1.(lanes := s.lanes[c := s.lanes[c].(queued := None)], inFlight := s.inFlight[c := next]);
    forall c' | c' in s'.inFlight ensures GoodLane(s', c', s'.inFlight[c']) {
      if c' == c {
        assert GoodEntry(s1, c, next);
        SameEntry(s1, s', c, next);
      } else {
        assert GoodLane(s0, c', s0.inFlight[c']);
        OtherLaneSurvives(s0, c, e, result, c', s');
      }
    }
    forall w | 0 <= w < |s'.writes| && w !in s'.settled
      ensures s'.writes[w] in s'.lanes && WaitsFor(s', w, s'.inFlight[s'.writes[w]])
    {
      assert WaitsFor(s0, w, s0.inFlight[s0.writes[w]]);
    }
    SameRecord(Settle(s0, e, result), s');
  }

  lemma OtherLaneSurvives(s0: State, c: Conversation, e: Entry, result: Result, c': Conversation, s': State)
    requires GoodEntry(s0, c, e) && c' != c && c' in s0.inFlight && GoodLane(s0, c', s0.inFlight[c'])
    requires c' in s'.lanes && s'.lanes[c'] == s0.lanes[c'] && s'.writes == s0.writes
    requires s'.settled == Settle(s0, e, result).settled && s'.results == Settle(s0, e, result).results
    ensures GoodLane(s', c', s0.inFlight[c'])
  {
    SettleOtherLane(s0, c, e, result, c', s0.inFlight[c']);
  }

  lemma SameEntry(s: State, s': State, c: Conversation, e: Entry)
    requires GoodEntry(s, c, e) && s'.writes == s.writes && s'.settled == s.settled && s'.results == s.results
    ensures GoodEntry(s', c, e)
  {
  }

  lemma SameLane(s: State, s': State, c: Conversation, e: Entry)
    requires GoodLane(s, c, e) && s'.writes == s.writes && s'.settled == s.settled && s'.results == s.results
    requires c in s'.lanes && s'.lanes[c] == s.lanes[c]
    ensures GoodLane(s', c, e)
  {
  }

  lemma SameRecord(s: State, s': State)
    requires GoodRecord(s) && s'.writes == s.writes && s'.settled == s.settled && s'.results == s.results
    ensures GoodRecord(s')
  {
    forall w | w in s'.settled ensures GoodSettlement(s', w) {
      assert GoodSettlement(s, w);
    }
  }

  lemma {:induction false} EndJobKeepsInv(s: State, c: Conversation, e: Entry, result: Result, spawns: bool)
    requires InHand(s, c, e)
    ensures c in s.lanes && Inv(EndJob(s, c, e, result, spawns))
    decreases c in s.lanes && s.lanes[c].queued.Some?, 0
  {
    hide Inv, GoodEntry, GoodRecord, Settle;
    AfterSettle(s, c, e, result);
    match s.lanes[c].queued
    case Some(next) =>
      StartJobKeepsInv(Settle(s, e, result).(lanes := s.lanes[c := s.lanes[c].(queued := None)]), c, next, spawns);
    case None =>
  }

  lemma {:induction false} StartJobKeepsInv(s: State, c: Conversation, e: Entry, spawns: bool)
    requires c in s.lanes && InHand(s, c, e)
    ensures Inv(StartJob(s, c, e, spawns))
    decreases c in s.lanes && s.lanes[c].queued.Some?, 1
  {
    hide Inv;
    if s.isClosed || !spawns {
      EndJobKeepsInv(s, c, e, Rejected, spawns);
    }
  }

  // The steps keep the invariant -------------------------------------------------------------------------------------

  lemma JobSettlesKeepsInv(s: State, c: Conversation, result: Result, spawns: bool)
    requires Inv(s) && c in s.inFlight && c in s.lanes
    ensures Inv(JobSettles(s, c, result, spawns))
  {
    hide Inv;
    var s' := s.(inFlight := s.inFlight - {c});
    assert s'.(inFlight := s'.inFlight[c := s.inFlight[c]]) == s;
    EndJobKeepsInv(s', c, s.inFlight[c], result, spawns);
  }

  /** Appending a write changes nothing about the earlier ones. */
  lemma AppendKeepsLane(s: State, s': State, c: Conversation, running: Entry)
    requires GoodRecord(s) && GoodLane(s, c, running)
    requires |s'.writes| > |s.writes| && s'.writes[..|s.writes|] == s.writes && s'.settled == s.settled &&
      s'.results == s.results
    requires c in s'.lanes && s'.lanes[c] == s.lanes[c]
    ensures GoodLane(s', c, running)
  {
    assert forall w :: 0 <= w < |s.writes| ==> s'.writes[..|s.writes|][w] == s'.writes[w];
  }

  lemma AppendKeepsRecord(s: State, s': State)
    requires GoodRecord(s)
    requires |s'.writes| > |s.writes| && s'.writes[..|s.writes|] == s.writes && s'.settled == s.settled &&
      s'.results == s.results
    ensures GoodRecord(s')
  {
    assert forall w :: 0 <= w < |s.writes| ==> s'.writes[..|s.writes|][w] == s'.writes[w];
    forall w | w in s'.settled ensures w < |s'.writes| && GoodSettlement(s', w) {
      assert GoodSettlement(s, w);
    }
  }

  /** The newest write is unsettled and without a result, so it makes a good entry of its own. */
  lemma NewEntry(s: State, s': State, c: Conversation)
    requires GoodRecord(s) && s'.writes == s.writes + [c] && s'.settled == s.settled && s'.results == s.results
    ensures GoodEntry(s', c, Entry(|s.writes|, [|s.writes|]))
  {
  }

  lemma CoalescedEntry(s: State, s': State, c: Conversation, running: Entry)
    requires GoodRecord(s) && s'.writes == s.writes + [c] && s'.settled == s.settled && s'.results == s.results
    requires GoodLane(s, c, running)
    requires s'.lanes == s.lanes[c := s.lanes[c].(queued := Some(Coalesce(s.lanes[c].queued, |s.writes|)))]
    ensures GoodLane(s', c, running)
  {
    assert forall w :: 0 <= w < |s.writes| ==> s'.writes[w] == s.writes[w];
  }

  lemma SubmitKeepsInv(s: State, c: Conversation, spawns: bool)
    requires Inv(s)
    ensures s.lanes.Keys == s.inFlight.Keys && (c in s.lanes ==> s.lanes[c].isRunning)
    ensures Inv(SubmitWrite(s, c, spawns))
  {
    hide GoodEntry, GoodSettlement;
    assert c in s.lanes ==> GoodLane(s, c, s.inFlight[c]);
    var w := |s.writes|;
    var s' := s.(writes := s.writes + [c]);
    if s.isClosed {
      SubmitToClosed(s, c);
    } else if c in s.lanes {
      SubmitToRunning(s, c);
    } else {
      var s1 := s'.(lanes := s.lanes[c := Lane(true, None)]);
      SubmitToIdle(s, c);
      StartJobKeepsInv(s1, c, Entry(w, [w]), spawns);
    }
  }

  lemma UnsettledWaits(s: State, w: int)
    requires Inv(s) && 0 <= w < |s.writes| && w !in s.settled
    ensures s.writes[w] in s.lanes && WaitsFor(s, w, s.inFlight[s.writes[w]])
  {
  }

  lemma SubmitToClosed(s: State, c: Conversation)
    requires Inv(s)
    ensures Inv(Settle(s.(writes := s.writes + [c]), Entry(|s.writes|, [|s.writes|]), Rejected))
  {
    hide GoodEntry, GoodSettlement, GoodQueue;
    var w := |s.writes|;
    var s1 := s.(writes := s.writes + [c]);
    var s' := Settle(s1, Entry(w, [w]), Rejected);
    AppendKeepsRecord(s, s1);
    NewEntry(s, s1, c);
    SettleKeepsRecord(s1, c, Entry(w, [w]), Rejected);
    forall c' | c' in s'.inFlight ensures GoodLane(s', c', s'.inFlight[c']) {
      assert GoodLane(s, c', s.inFlight[c']);
      LaneHoldsOldWrites(s, c', s.inFlight[c']);
      AppendKeepsLane(s, s1, c', s.inFlight[c']);
      SettleNewest(s1, c, c', s.inFlight[c']);
    }
    forall x | 0 <= x < |s'.writes| && x !in s'.settled
      ensures s'.writes[x] in s'.lanes && WaitsFor(s', x, s'.inFlight[s'.writes[x]])
    {
      assert x < |s.writes|;
      UnsettledWaits(s, x);
    }
  }

  lemma LaneHoldsOldWrites(s: State, c: Conversation, running: Entry)
    requires GoodLane(s, c, running)
    ensures forall w :: w in running.resolvers ==> w < |s.writes|
    ensures s.lanes[c].queued.Some? ==> forall w :: w in s.lanes[c].queued.value.resolvers ==> w < |s.writes|
  {
  }

  /** Settling a write that no lane holds disturbs no lane. */
  lemma SettleNewest(s: State, c: Conversation, c': Conversation, running: Entry)
    requires |s.writes| > 0 && GoodLane(s, c', running)
    requires var w := |s.writes| - 1;
      w !in running.resolvers && (s.lanes[c'].queued.Some? ==> w !in s.lanes[c'].queued.value.resolvers)
    ensures GoodLane(Settle(s, Entry(|s.writes| - 1, [|s.writes| - 1]), Rejected), c', running)
  {
  }

  lemma SubmitToRunning(s: State, c: Conversation)
    requires Inv(s) && c in s.lanes
    ensures Inv(s.(writes := s.writes + [c],
      lanes := s.lanes[c := s.lanes[c].(queued := Some(Coalesce(s.lanes[c].queued, |s.writes|)))]))
  {
    hide GoodEntry, GoodSettlement, GoodQueue;
    var s' := s.(writes := s.writes + [c],
      lanes := s.lanes[c := s.lanes[c].(queued := Some(Coalesce(s.lanes[c].queued, |s.writes|)))]);
    AppendKeepsRecord(s, s');
    assert GoodLane(s, c, s.inFlight[c]);
    CoalescedEntry(s, s', c, s.inFlight[c]);
    forall c' | c' in s'.inFlight ensures GoodLane(s', c', s'.inFlight[c']) {
      assert GoodLane(s, c', s.inFlight[c']);
      if c' != c {
        AppendKeepsLane(s, s', c', s.inFlight[c']);
      }
    }
    forall x | 0 <= x < |s'.writes| && x !in s'.settled
      ensures s'.writes[x] in s'.lanes && WaitsFor(s', x, s'.inFlight[s'.writes[x]])
    {
      if x < |s.writes| {
        UnsettledWaits(s, x);
      }
    }
  }

  lemma SubmitToIdle(s: State, c: Conversation)
    requires Inv(s) && c !in s.lanes
    ensures InHand(s.(writes := s.writes + [c], lanes := s.lanes[c := Lane(true, None)]), c,
      Entry(|s.writes|, [|s.writes|]))
  {
    hide GoodEntry, GoodSettlement;
    var w := |s.writes|;
    var s' := s.(writes := s.writes + [c], lanes := s.lanes[c := Lane(true, None)],
      inFlight := s.inFlight[c := Entry(w, [w])]);
    AppendKeepsRecord(s, s');
    NewEntry(s, s', c);
    forall c' | c' in s'.inFlight ensures GoodLane(s', c', s'.inFlight[c']) {
      if c' != c {
        assert GoodLane(s, c', s.inFlight[c']);
        AppendKeepsLane(s, s', c', s.inFlight[c']);
      }
    }
    forall x | 0 <= x < |s'.writes| && x !in s'.settled
      ensures s'.writes[x] in s'.lanes && WaitsFor(s', x, s'.inFlight[s'.writes[x]])
    {
      if x < |s.writes| {
        UnsettledWaits(s, x);
      }
    }
  }

  // What it all amounts to -------------------------------------------------------------------------------------------

  /** No promise is left behind: with no job in flight every write is settled, by a job of its conversation that was
      submitted no earlier, and with that job's result. */
  lemma EveryWriteSettles(s: State)
    requires Inv(s) && s.inFlight == map[]
    ensures s.lanes == map[]
    ensures forall w: nat :: w < |s.writes| ==> w in s.settled
    ensures forall w :: w in s.settled ==>
      var job := s.settled[w].job;
      w <= job < |s.writes| && s.writes[job] == s.writes[w] && job in s.results && s.results[job] == s.settled[w].result
  {
    assert s.lanes.Keys == {};
    forall w | w in s.settled ensures GoodSettlement(s, w) {}
  }

  lemma SettleMeans(s: State, e: Entry, result: Result)
    ensures
      var s' := Settle(s, e, result);
      && (forall w :: w in s.settled ==> w in s'.settled && (w !in e.resolvers ==> s'.settled[w] == s.settled[w]))
      && (forall w :: w in e.resolvers ==> w in s'.settled && s'.settled[w] == Settlement(e.job, result))
      && s' == s.(settled := s'.settled, results := s'.results)
  {
  }

  lemma QueueInHand(s: State, c: Conversation, e: Entry)
    requires InHand(s, c, e) && c in s.lanes
    ensures forall w :: w in e.resolvers ==> w !in s.settled
    ensures s.lanes[c].queued.Some? ==>
      forall w :: w in s.lanes[c].queued.value.resolvers ==> w !in s.settled && w !in e.resolvers
  {
    assert GoodLane(s.(inFlight := s.inFlight[c := e]), c, e);
  }

  /** A settled promise is never settled again, and a job that comes back settles its waiters with its result. */
  lemma {:induction false} EndJobSettlesOnce(s: State, c: Conversation, e: Entry, result: Result, spawns: bool)
    requires InHand(s, c, e) && c in s.lanes
    ensures
      var s' := EndJob(s, c, e, result, spawns);
      && (forall w :: w in s.settled ==> w in s'.settled && s'.settled[w] == s.settled[w])
      && (forall w :: w in e.resolvers ==>
        w !in s.settled && w in s'.settled && s'.settled[w] == Settlement(e.job, result))
    decreases s.lanes[c].queued.Some?
  {
    QueueInHand(s, c, e);
    AfterSettle(s, c, e, result);
    SettleMeans(s, e, result);
    hide InHand, Inv, GoodEntry, Settle;
    var s1 := Settle(s, e, result);
    match s.lanes[c].queued
    case None =>
    case Some(next) =>
      var s2 := s1.(lanes := s.lanes[c := s.lanes[c].(queued := None)]);
      if s2.isClosed || !spawns {
        EndJobSettlesOnce(s2, c, next, Rejected, spawns);
      }
  }

  lemma JobSettlesOnce(s: State, c: Conversation, result: Result, spawns: bool)
    requires Inv(s) && c in s.inFlight && c in s.lanes
    ensures
      var s' := JobSettles(s, c, result, spawns);
      var e := s.inFlight[c];
      && (forall w :: w in s.settled ==> w in s'.settled && s'.settled[w] == s.settled[w])
      && (forall w :: w in e.resolvers ==>
        w !in s.settled && w in s'.settled && s'.settled[w] == Settlement(e.job, result))
  {
    hide Inv, EndJob;
    var s' := s.(inFlight := s.inFlight - {c});
    assert s'.(inFlight := s'.inFlight[c := s.inFlight[c]]) == s;
    EndJobSettlesOnce(s', c, s.inFlight[c], result, spawns);
  }

  /** A submitted write settles no earlier one; once the pool is closed it is rejected on the spot. */
  lemma SubmitSettlesOnce(s: State, c: Conversation, spawns: bool)
    requires Inv(s) && s.lanes.Keys == s.inFlight.Keys && (c in s.lanes ==> s.lanes[c].isRunning)
    ensures
      var s' := SubmitWrite(s, c, spawns);
      && s'.writes == s.writes + [c]
      && (forall w :: w in s.settled ==> w in s'.settled && s'.settled[w] == s.settled[w])
      && (s.isClosed ==>
            |s.writes| in s'.settled && s'.settled[|s.writes|].result == Rejected && s'.inFlight == s.inFlight)
  {
    hide GoodLane;
    var w := |s.writes|;
    assert w !in s.settled;
    if !s.isClosed && c !in s.lanes {
      SubmitToIdle(s, c);
      EndJobSettlesOnceIfItEnds(s.(writes := s.writes + [c], lanes := s.lanes[c := Lane(true, None)]), c, Entry(w, [w]),
        spawns);
    }
  }

  lemma EndJobSettlesOnceIfItEnds(s: State, c: Conversation, e: Entry, spawns: bool)
    requires InHand(s, c, e) && c in s.lanes
    ensures forall w :: w in s.settled ==>
      w in StartJob(s, c, e, spawns).settled && StartJob(s, c, e, spawns).settled[w] == s.settled[w]
    ensures StartJob(s, c, e, spawns).writes == s.writes
  {
    if s.isClosed || !spawns {
      EndJobSettlesOnce(s, c, e, Rejected, spawns);
      EndJobKeepsWrites(s, c, e, Rejected, spawns);
    }
  }

  lemma {:induction false} EndJobKeepsWrites(s: State, c: Conversation, e: Entry, result: Result, spawns: bool)
    requires c in s.lanes && c !in s.inFlight
    ensures EndJob(s, c, e, result, spawns).writes == s.writes
    decreases s.lanes[c].queued.Some?
  {
    match s.lanes[c].queued
    case None =>
    case Some(next) =>
      var s2 := Settle(s, e, result).(lanes := s.lanes[c := s.lanes[c].(queued := None)]);
      if s2.isClosed || !spawns {
        EndJobKeepsWrites(s2, c, next, Rejected, spawns);
      }
  }

  /** After closeAll every job that comes back takes its lane with it, so the pool runs dry. */
  lemma ClosedPoolRunsDry(s: State, c: Conversation, result: Result, spawns: bool)
    requires Inv(s) && s.isClosed && c in s.inFlight && c in s.lanes
    ensures JobSettles(s, c, result, spawns).inFlight == s.inFlight - {c}
  {
    var s1 := s.(inFlight := s.inFlight - {c});
    var e := s.inFlight[c];
    match s.lanes[c].queued
    case None =>
    case Some(next) =>
      var s2 := Settle(s1, e, result).(lanes := s.lanes[c := s.lanes[c].(queued := None)]);
      assert StartJob(s2, c, next, spawns) == EndJob(s2, c, next, Rejected, spawns);
  }

  // Whole runs -------------------------------------------------------------------------------------------------------

  /** A write is made, the job in flight for a conversation comes back, or the pool is closed; `spawns` says whether a
      worker can be had. */
  datatype Event = Writes(c: Conversation, spawns: bool) | Returns(c: Conversation, result: Result, spawns: bool)
      | Closes

  ghost predicate Enabled(s: State, event: Event) { event.Returns? ==> event.c in s.inFlight }

  function Apply(s: State, event: Event): State
    requires s.lanes.Keys == s.inFlight.Keys && Enabled(s, event)
    requires event.Writes? && event.c in s.lanes ==> s.lanes[event.c].isRunning
  {
    match event
    case Writes(c, spawns) => SubmitWrite(s, c, spawns)
    case Returns(c, result, spawns) => JobSettles(s, c, result, spawns)
    case Closes => Close(s)
  }

  /** An event finds what it needs in every state that keeps the invariant. */
  lemma EventKeepsInv(s: State, event: Event)
    requires Inv(s) && Enabled(s, event)
    ensures s.lanes.Keys == s.inFlight.Keys
    ensures event.Writes? && event.c in s.lanes ==> s.lanes[event.c].isRunning
    ensures Inv(Apply(s, event))
  {
    match event
    case Writes(c, spawns) => SubmitKeepsInv(s, c, spawns);
    case Returns(c, result, spawns) => JobSettlesKeepsInv(s, c, result, spawns);
    case Closes => CloseKeepsInv(s);
  }

  /** The events can happen one after the other and lead from one state to another. */
  ghost predicate Leads(s: State, events: seq<Event>, s': State)
    requires Inv(s)
    decreases events
  {
    if events == [] then s' == s
    else
      && Enabled(s, events[0])
      && (EventKeepsInv(s, events[0]);
          Leads(Apply(s, events[0]), events[1..], s'))
  }

  function Count(events: seq<Event>, kind: Event -> bool): nat {
    if events == [] then 0 else (if kind(events[0]) then 1 else 0) + Count(events[1..], kind)
  }

  function Returned(events: seq<Event>): nat { Count(events, (event: Event) => event.Returns?) }

  function Written(events: seq<Event>): nat { Count(events, (event: Event) => event.Writes?) }

  function Unsettled(s: State): set<nat> { set w: nat | w < |s.writes| && w !in s.settled }

  ghost predicate KeepsSettled(s: State, s': State) {
    && |s.writes| <= |s'.writes| && s'.writes[..|s.writes|] == s.writes
    && forall w :: w in s.settled ==> w in s'.settled && s'.settled[w] == s.settled[w]
  }

  /** No event settles a promise again; a write leaves at most itself unsettled, and a job that comes back leaves at
      least one promise fewer. */
  lemma EventSettles(s: State, event: Event)
    requires Inv(s) && Enabled(s, event) && s.lanes.Keys == s.inFlight.Keys
    requires event.Writes? && event.c in s.lanes ==> s.lanes[event.c].isRunning
    ensures
      var s' := Apply(s, event);
      && KeepsSettled(s, s')
      && |Unsettled(s')| + (if event.Returns? then 1 else 0) <= |Unsettled(s)| + (if event.Writes? then 1 else 0)
  {
    hide Inv, SubmitWrite, JobSettles;
    var s' := Apply(s, event);
    match event
    case Writes(c, spawns) =>
      SubmitSettlesOnce(s, c, spawns);
      Subset(Unsettled(s'), Unsettled(s) + {|s.writes|});
    case Returns(c, result, spawns) =>
      JobSettlesOnce(s, c, result, spawns);
      JobSettlesKeepsWrites(s, c, result, spawns);
      JobHasWaiter(s, c);
      var w := s.inFlight[c].job;
      Subset(Unsettled(s') + {w}, Unsettled(s));
    case Closes =>
      assert Unsettled(s') == Unsettled(s);
  }

  lemma JobSettlesKeepsWrites(s: State, c: Conversation, result: Result, spawns: bool)
    requires c in s.inFlight && c in s.lanes
    ensures JobSettles(s, c, result, spawns).writes == s.writes
  {
    EndJobKeepsWrites(s.(inFlight := s.inFlight - {c}), c, s.inFlight[c], result, spawns);
  }

  lemma JobHasWaiter(s: State, c: Conversation)
    requires Inv(s) && c in s.inFlight
    ensures var e := s.inFlight[c]; e.job in e.resolvers && e.job in Unsettled(s)
  {
    assert GoodLane(s, c, s.inFlight[c]);
  }

  /** Every run keeps the invariant and what is settled, and each job that comes back pays for one write. */
  lemma {:induction false} RunSettles(s: State, events: seq<Event>, s': State)
    requires Inv(s) && Leads(s, events, s')
    ensures Inv(s') && KeepsSettled(s, s')
    ensures |Unsettled(s')| + Returned(events) <= |Unsettled(s)| + Written(events)
    decreases events
  {
    hide Inv, Apply, Unsettled;
    if events != [] {
      EventKeepsInv(s, events[0]);
      var s1 := Apply(s, events[0]);
      EventSettles(s, events[0]);
      RunSettles(s1, events[1..], s');
    }
  }

  /** The pool is closed exactly from the closing on. */
  lemma {:induction false} ClosedIff(s: State, events: seq<Event>, s': State)
    requires Inv(s) && Leads(s, events, s')
    ensures s'.isClosed <==> s.isClosed || exists i :: 0 <= i < |events| && events[i].Closes?
    decreases events
  {
    hide Inv, Apply;
    if events != [] {
      EventKeepsInv(s, events[0]);
      ClosesIff(s, events[0]);
      ClosedIff(Apply(s, events[0]), events[1..], s');
      if i :| 0 <= i < |events| && events[i].Closes? {
        assert i > 0 ==> events[1..][i - 1].Closes?;
      }
      if i :| 0 <= i < |events[1..]| && events[1..][i].Closes? {
        assert events[i + 1].Closes?;
      }
    }
  }

  lemma ClosesIff(s: State, event: Event)
    requires Enabled(s, event) && s.lanes.Keys == s.inFlight.Keys
    requires event.Writes? && event.c in s.lanes ==> s.lanes[event.c].isRunning
    ensures Apply(s, event).isClosed <==> s.isClosed || event.Closes?
  {
    match event
    case Writes(c, spawns) =>
      if !s.isClosed && c !in s.lanes {
        var w := |s.writes|;
        StartJobKeepsClosed(s.(writes := s.writes + [c], lanes := s.lanes[c := Lane(true, None)]), c, Entry(w, [w]),
          spawns);
      }
    case Returns(c, result, spawns) => EndJobKeepsClosed(s.(inFlight := s.inFlight - {c}), c, s.inFlight[c], result,
      spawns);
    case Closes =>
  }

  lemma {:induction false} EndJobKeepsClosed(s: State, c: Conversation, e: Entry, result: Result, spawns: bool)
    requires c in s.lanes && c !in s.inFlight
    ensures EndJob(s, c, e, result, spawns).isClosed == s.isClosed
    decreases s.lanes[c].queued.Some?, 0
  {
    match s.lanes[c].queued
    case None =>
    case Some(next) =>
      StartJobKeepsClosed(Settle(s, e, result).(lanes := s.lanes[c := s.lanes[c].(queued := None)]), c, next, spawns);
  }

  lemma {:induction false} StartJobKeepsClosed(s: State, c: Conversation, e: Entry, spawns: bool)
    requires c in s.lanes && c !in s.inFlight
    ensures StartJob(s, c, e, spawns).isClosed == s.isClosed
    decreases s.lanes[c].queued.Some?, 1
  {
    if s.isClosed || !spawns {
      EndJobKeepsClosed(s, c, e, Rejected, spawns);
    }
  }

  /** Every promise settles. Without further writes at most as many jobs come back as there are unsettled promises;
      until the last has settled some job is on its way; and once none is, every promise has the result of a job that
      was submitted no earlier. */
  lemma PoolRunsDry(s: State, events: seq<Event>, s': State)
    requires Inv(s) && Leads(s, events, s') && Written(events) == 0
    ensures Returned(events) <= |Unsettled(s)|
    ensures Returned(events) == |Unsettled(s)| ==> s'.inFlight == map[]
    ensures s'.inFlight == map[] <==> Unsettled(s') == {}
    ensures s'.inFlight == map[] ==> s'.lanes == map[] && forall w: nat :: w < |s.writes| ==>
      w in s'.settled && GoodSettlement(s', w)
  {
    hide Inv;
    RunSettles(s, events, s');
    if s'.inFlight == map[] {
      EveryWriteSettles(s');
    } else {
      var c :| c in s'.inFlight;
      JobHasWaiter(s', c);
    }
  }

  // Whose results they are -------------------------------------------------------------------------------------------

  /** In an open pool with a worker, the job behind the one that comes back is the next on its way, its waiters still
      unsettled; and the lane goes if nothing is behind it. */
  lemma NextJobStarts(s: State, c: Conversation, result: Result)
    requires Inv(s) && c in s.inFlight && c in s.lanes && !s.isClosed
    ensures
      var (s', e) := (JobSettles(s, c, result, true), s.inFlight[c]);
      && s'.writes == s.writes && s'.results == s.results[e.job := result]
      && s'.settled == s.settled + (map w | w in e.resolvers :: Settlement(e.job, result))
      && match s.lanes[c].queued
         case None => s'.inFlight == s.inFlight - {c} && s'.lanes == s.lanes - {c}
         case Some(next) =>
           && s'.inFlight == s.inFlight[c := next] && s'.lanes == s.lanes[c := Lane(true, None)]
           && forall w :: w in next.resolvers ==> w !in s'.settled
  {
    hide Inv, GoodEntry;
    var e, s1 := s.inFlight[c], s.(inFlight := s.inFlight - {c});
    NextIsApart(s, c);
    match s.lanes[c].queued
    case None =>
    case Some(next) =>
      var s2 := Settle(s1, e, result).(lanes := s.lanes[c := s.lanes[c].(queued := None)]);
      assert JobSettles(s, c, result, true) == StartJob(s2, c, next, true);
      assert s1.inFlight[c := next] == s.inFlight[c := next];
  }

  lemma NextIsApart(s: State, c: Conversation)
    requires Inv(s) && c in s.inFlight && c in s.lanes
    ensures s.lanes[c].isRunning
    ensures s.lanes[c].queued.Some? ==>
      forall w :: w in s.lanes[c].queued.value.resolvers ==> w !in s.settled && w !in s.inFlight[c].resolvers
  {
    assert GoodLane(s, c, s.inFlight[c]);
  }

  /** Where no worker can be had, or the pool is closed, the job behind it is rejected instead, and the lane goes. */
  lemma NextJobIsRejected(s: State, c: Conversation, result: Result, spawns: bool)
    requires Inv(s) && c in s.inFlight && c in s.lanes && (s.isClosed || !spawns)
    ensures
      var (s', e) := (JobSettles(s, c, result, spawns), s.inFlight[c]);
      && s'.writes == s.writes && s'.inFlight == s.inFlight - {c} && s'.lanes == s.lanes - {c}
      && match s.lanes[c].queued
         case None => s'.results == s.results[e.job := result]
         case Some(next) =>
           && s'.results == s.results[e.job := result][next.job := Rejected]
           && forall w :: w in next.resolvers ==> w in s'.settled && s'.settled[w] == Settlement(next.job, Rejected)
  {
    hide Inv;
    var e, s1 := s.inFlight[c], s.(inFlight := s.inFlight - {c});
    match s.lanes[c].queued
    case None =>
    case Some(next) =>
      var s2 := Settle(s1, e, result).(lanes := s.lanes[c := s.lanes[c].(queued := None)]);
      assert EndJob(s1, c, e, result, spawns) == StartJob(s2, c, next, spawns) == EndJob(s2, c, next, Rejected, spawns);
      assert s2.lanes - {c} == s.lanes - {c};
  }

  /** A write to an idle conversation of an open pool with a worker is on its way as its own job. */
  lemma WriteStarts(s: State, c: Conversation)
    requires Inv(s) && !s.isClosed && c !in s.lanes
    ensures s.lanes.Keys == s.inFlight.Keys
    ensures var w := |s.writes|;
      SubmitWrite(s, c, true) ==
      s.(writes := s.writes + [c], lanes := s.lanes[c := Lane(true, None)], inFlight := s.inFlight[c := Entry(w, [w])])
  {
  }

  /** A write to a busy one joins what is queued there, and becomes the job of that. */
  lemma WriteJoins(s: State, c: Conversation, spawns: bool)
    requires Inv(s) && !s.isClosed && c in s.lanes
    ensures s.lanes.Keys == s.inFlight.Keys && s.lanes[c].isRunning
    ensures var (w, queued) := (|s.writes|, s.lanes[c].queued);
      SubmitWrite(s, c, spawns) ==
      s.(writes := s.writes + [c],
         lanes := s.lanes[c := Lane(true, Some(Entry(w, (if queued.Some? then queued.value.resolvers else []) + [w])))])
  {
    var w := |s.writes|;
    assert [] + [w] == [w];
    assert GoodLane(s, c, s.inFlight[c]);
  }

  /** Where no worker can be had, or the pool is closed, it is rejected at once and leaves no lane. */
  lemma WriteIsRejected(s: State, c: Conversation, spawns: bool)
    requires Inv(s) && (s.isClosed || (c !in s.lanes && !spawns))
    ensures s.lanes.Keys == s.inFlight.Keys && (c in s.lanes ==> s.lanes[c].isRunning)
    ensures var w := |s.writes|;
      SubmitWrite(s, c, spawns) ==
      s.(writes := s.writes + [c], settled := s.settled[w := Settlement(w, Rejected)],
         results := s.results[w := Rejected])
  {
    assert c in s.inFlight ==> GoodLane(s, c, s.inFlight[c]);
    hide Settle;
    var w, s1 := |s.writes|, s.(writes := s.writes + [c]);
    if s.isClosed {
      SettleOne(s1, w);
    } else {
      var s2 := s1.(lanes := s.lanes[c := Lane(true, None)]);
      SettleOne(s2, w);
      assert SubmitWrite(s, c, spawns) == EndJob(s2, c, Entry(w, [w]), Rejected, spawns);
      assert s.lanes[c := Lane(true, None)] - {c} == s.lanes;
    }
  }

  lemma SettleOne(s: State, w: nat)
    ensures Settle(s, Entry(w, [w]), Rejected) ==
      s.(settled := s.settled[w := Settlement(w, Rejected)], results := s.results[w := Rejected])
  {
    var e := Entry(w, [w]);
    assert (map x | x in e.resolvers :: Settlement(e.job, Rejected)) == map[w := Settlement(w, Rejected)];
  }

  /** A step brings at most the result of the job that comes back, and rejections. */
  ghost predicate Brings(s: State, event: Event, job: nat, result: Result) {
    || result == Rejected
    || (event.Returns? && event.c in s.inFlight && s.inFlight[event.c].job == job && event.result == result)
  }

  lemma {:induction false} EndJobResults(s: State, c: Conversation, e: Entry, result: Result, spawns: bool)
    requires c in s.lanes && c !in s.inFlight
    ensures
      var after := EndJob(s, c, e, result, spawns).results;
      forall job :: job in after ==>
        (job in s.results && after[job] == s.results[job]) || (job == e.job && after[job] == result) ||
          after[job] == Rejected
    decreases s.lanes[c].queued.Some?
  {
    match s.lanes[c].queued
    case None =>
    case Some(next) =>
      var s2 := Settle(s, e, result).(lanes := s.lanes[c := s.lanes[c].(queued := None)]);
      if s2.isClosed || !spawns {
        EndJobResults(s2, c, next, Rejected, spawns);
      }
  }

  lemma EventBrings(s: State, event: Event, job: nat)
    requires Inv(s) && Enabled(s, event) && s.lanes.Keys == s.inFlight.Keys
    requires event.Writes? && event.c in s.lanes ==> s.lanes[event.c].isRunning
    requires job in Apply(s, event).results && job !in s.results
    ensures Brings(s, event, job, Apply(s, event).results[job])
  {
    hide Inv, EndJob;
    match event
    case Writes(c, spawns) =>
      var w := |s.writes|;
      if !s.isClosed && c !in s.lanes && !spawns {
        EndJobResults(s.(writes := s.writes + [c], lanes := s.lanes[c := Lane(true, None)]), c, Entry(w, [w]), Rejected,
          spawns);
      }
    case Returns(c, result, spawns) =>
      EndJobResults(s.(inFlight := s.inFlight - {c}), c, s.inFlight[c], result, spawns);
    case Closes =>
  }

  /** Every result but a rejection was brought by a worker: at that event exactly this job was on its way for its
      conversation. */
  lemma {:induction false} ResultsAreBrought(s: State, events: seq<Event>, s': State, job: nat)
      returns (i: nat, at: State)
    requires Inv(s) && Leads(s, events, s') && job !in s.results && job in s'.results && s'.results[job] != Rejected
    ensures i < |events| && Leads(s, events[..i], at) && Inv(at)
    ensures events[i].Returns? && events[i].c in at.inFlight
    ensures at.inFlight[events[i].c].job == job && events[i].result == s'.results[job]
    decreases events
  {
    hide Inv, Apply;
    EventKeepsInv(s, events[0]);
    var s1 := Apply(s, events[0]);
    if job in s1.results {
      i, at := 0, s;
      EventBrings(s, events[0], job);
      RunKeepsResults(s1, events[1..], s', job);
    } else {
      var j;
      j, at := ResultsAreBrought(s1, events[1..], s', job);
      i := j + 1;
      assert events[..i][0] == events[0] && events[..i][1..] == events[1..][..j];
    }
  }

  lemma {:induction false} RunKeepsResults(s: State, events: seq<Event>, s': State, job: nat)
    requires Inv(s) && Leads(s, events, s') && job in s.results
    ensures job in s'.results && s'.results[job] == s.results[job]
    decreases events
  {
    hide Inv, Apply;
    if events != [] {
      EventKeepsInv(s, events[0]);
      EventKeepsResults(s, events[0], job);
      RunKeepsResults(Apply(s, events[0]), events[1..], s', job);
    }
  }

  lemma EventKeepsResults(s: State, event: Event, job: nat)
    requires Inv(s) && Enabled(s, event) && s.lanes.Keys == s.inFlight.Keys && job in s.results
    requires event.Writes? && event.c in s.lanes ==> s.lanes[event.c].isRunning
    ensures job in Apply(s, event).results && Apply(s, event).results[job] == s.results[job]
  {
    match event
    case Writes(c, spawns) => WriteKeepsResults(s, c, spawns, job);
    case Returns(c, result, spawns) => ReturnKeepsResults(s, c, result, spawns, job);
    case Closes =>
  }

  lemma WriteKeepsResults(s: State, c: Conversation, spawns: bool, job: nat)
    requires Inv(s) && s.lanes.Keys == s.inFlight.Keys && job in s.results && (c in s.lanes ==> s.lanes[c].isRunning)
    ensures var after := SubmitWrite(s, c, spawns).results; job in after && after[job] == s.results[job]
  {
    assert job < |s.writes|;
    hide Inv, EndJob;
    if !s.isClosed && c !in s.lanes && !spawns {
      SubmitToIdle(s, c);
      var s1 := s.(writes := s.writes + [c], lanes := s.lanes[c := Lane(true, None)]);
      EndJobKeepsResults(s1, c, Entry(|s.writes|, [|s.writes|]), Rejected, spawns, job);
    }
  }

  lemma ReturnKeepsResults(s: State, c: Conversation, result: Result, spawns: bool, job: nat)
    requires Inv(s) && c in s.inFlight && c in s.lanes && job in s.results
    ensures var after := JobSettles(s, c, result, spawns).results; job in after && after[job] == s.results[job]
  {
    hide Inv, EndJob;
    var s1 := s.(inFlight := s.inFlight - {c});
    assert s1.(inFlight := s1.inFlight[c := s.inFlight[c]]) == s;
    EndJobKeepsResults(s1, c, s.inFlight[c], result, spawns, job);
  }

  lemma {:induction false} EndJobKeepsResults(
      s: State, c: Conversation, e: Entry, result: Result, spawns: bool, job: nat)
    requires InHand(s, c, e) && c in s.lanes && job in s.results
    ensures
      var after := EndJob(s, c, e, result, spawns).results;
      job in after && after[job] == s.results[job]
    decreases s.lanes[c].queued.Some?
  {
    hide InHand, Inv, GoodEntry;
    NotYetThere(s, c, e);
    AfterSettle(s, c, e, result);
    match s.lanes[c].queued
    case None =>
    case Some(next) =>
      var s2 := Settle(s, e, result).(lanes := s.lanes[c := s.lanes[c].(queued := None)]);
      if s2.isClosed || !spawns {
        EndJobKeepsResults(s2, c, next, Rejected, spawns, job);
      }
  }

  lemma NotYetThere(s: State, c: Conversation, e: Entry)
    requires InHand(s, c, e)
    ensures e.job !in s.results
  {
    assert GoodLane(s.(inFlight := s.inFlight[c := e]), c, e);
  }

  // The code's own form ----------------------------------------------------------------------------------------------

  /** What has been settled once the first `n` waiters of a job have their result. */
  function SettledWith(settled: map<nat, Settlement>, e: Entry, result: Result, n: nat): map<nat, Settlement>
    requires n <= |e.resolvers|
  {
    settled + map w | w in e.resolvers[..n] :: Settlement(e.job, result)
  }

  lemma SettledWithNone(settled: map<nat, Settlement>, e: Entry, result: Result)
    ensures SettledWith(settled, e, result, 0) == settled
  {
  }

  lemma SettledWithOneMore(settled: map<nat, Settlement>, e: Entry, result: Result, n: nat)
    requires n < |e.resolvers|
    ensures SettledWith(settled, e, result, n + 1) ==
      SettledWith(settled, e, result, n)[e.resolvers[n] := Settlement(e.job, result)]
  {
    assert e.resolvers[..n + 1] == e.resolvers[..n] + [e.resolvers[n]];
  }

  lemma SettledWithAll(s: State, e: Entry, result: Result)
    ensures SettledWith(s.settled, e, result, |e.resolvers|) == Settle(s, e, result).settled
  {
    assert e.resolvers[..|e.resolvers|] == e.resolvers;
  }

  class TranscriptMirrorOffloadPool {
    var isClosed: bool
    var lanes: map<Conversation, Lane>
    var inFlight: map<Conversation, Entry>
    var writes: seq<Conversation>
    var settled: map<nat, Settlement>
    var results: map<nat, Result>

    function Abs(): State reads this { State(isClosed, lanes, inFlight, writes, settled, results) }

    constructor ()
      ensures Abs() == Empty && Inv(Abs())
    {
      isClosed, lanes, inFlight, writes, settled, results := false, map[], map[], [], map[], map[];
    }

    method Write(c: Conversation, spawns: bool)
      requires Inv(Abs())
      modifies this
      ensures old(lanes.Keys == inFlight.Keys && (c in lanes ==> lanes[c].isRunning))
      ensures Abs() == SubmitWrite(old(Abs()), c, spawns) && Inv(Abs())
    {
      hide Inv, EndJob;
      SubmitKeepsInv(Abs(), c, spawns);
      var w := |writes|;
      writes := writes + [c];
      if isClosed {
        SettleResolvers(Entry(w, [w]), Rejected);
        return;
      }
      var lane := if c in lanes then lanes[c] else Lane(false, None);
      if lane.isRunning {
        lanes := lanes[c := lane.(queued := Some(Coalesce(lane.queued, w)))];
        return;
      }
      lanes := lanes[c := lane.(isRunning := true)];
      RunJob(c, Entry(w, [w]), spawns);
    }

    method RunJob(c: Conversation, e: Entry, spawns: bool)
      requires c in lanes && c !in inFlight
      modifies this
      ensures Abs() == StartJob(old(Abs()), c, e, spawns)
      decreases lanes[c].queued.Some?, 1
    {
      hide EndJob;
      if isClosed || !spawns {
        JobEnds(c, e, Rejected, spawns);
      } else {
        inFlight := inFlight[c := e];
      }
    }

    method JobEnds(c: Conversation, e: Entry, result: Result, spawns: bool)
      requires c in lanes && c !in inFlight
      modifies this
      ensures Abs() == EndJob(old(Abs()), c, e, result, spawns)
      decreases lanes[c].queued.Some?, 0
    {
      SettleResolvers(e, result);
      var next := lanes[c].queued;
      lanes := lanes[c := lanes[c].(queued := None)];
      match next
      case Some(queued) =>
        RunJob(c, queued, spawns);
      case None =>
        lanes := lanes - {c};
        assert lanes == old(lanes) - {c};
    }

    method SettleResolvers(e: Entry, result: Result)
      modifies this`settled, this`results
      ensures Abs() == Settle(old(Abs()), e, result)
    {
      hide SettledWith;
      SettledWithNone(settled, e, result);
      for i := 0 to |e.resolvers|
        invariant settled == SettledWith(old(settled), e, result, i)
        invariant results == old(results)
      {
        SettledWithOneMore(old(settled), e, result, i);
        settled := settled[e.resolvers[i] := Settlement(e.job, result)];
      }
      SettledWithAll(old(Abs()), e, result);
      results := results[e.job := result];
    }

    method JobReturns(c: Conversation, result: Result, spawns: bool)
      requires Inv(Abs()) && c in inFlight && c in lanes
      modifies this
      ensures Abs() == JobSettles(old(Abs()), c, result, spawns) && Inv(Abs())
    {
      hide Inv, EndJob;
      JobSettlesKeepsInv(Abs(), c, result, spawns);
      var e := inFlight[c];
      inFlight := inFlight - {c};
      JobEnds(c, e, result, spawns);
    }

    method CloseAll()
      requires Inv(Abs())
      modifies this`isClosed
      ensures Abs() == Close(old(Abs())) && Inv(Abs())
    {
      CloseKeepsInv(Abs());
      isClosed := true;
    }
  }

  // Which worker a conversation goes to ------------------------------------------------------------------------------

  /** The 32-bit wrap-around of `| 0`. */
  function ToInt32(x: int): (r: int)
    ensures -0x8000_0000 <= r < 0x8000_0000
    ensures exists k :: x == r + k * 0x1_0000_0000
  {
    var r := (x + 0x8000_0000) % 0x1_0000_0000 - 0x8000_0000;
    assert x == r + ((x + 0x8000_0000) / 0x1_0000_0000) * 0x1_0000_0000;
    r
  }

  /** The hash as a polynomial, without any wrap-around. */
  function HashPolynomial(text: seq<nat>): int {
    if text == [] then 0 else HashPolynomial(text[..|text| - 1]) * 31 + text[|text| - 1]
  }

  lemma WrapOnce(h: int, c: int)
    ensures ToInt32(ToInt32(h) * 31 + c) == ToInt32(h * 31 + c)
  {
    var k :| h == ToInt32(h) + k * 0x1_0000_0000;
    assert (h * 31 + c + 0x8000_0000) == (ToInt32(h) * 31 + c + 0x8000_0000) + (31 * k) * 0x1_0000_0000;
  }

  function Abs32(x: int): (r: int)
    ensures r >= 0 && (r == x || r == -x)
  {
    if x < 0 then -x else x
  }

  function Power(base: int, n: nat): int { if n == 0 then 1 else base * Power(base, n - 1) }

  /** Each character stands for itself times a power of 31, the last for itself. */
  lemma {:induction false} HashPlaces(c: nat, rest: seq<nat>)
    ensures HashPolynomial([]) == 0 && HashPolynomial([c]) == c
    ensures HashPolynomial([c] + rest) == c * Power(31, |rest|) + HashPolynomial(rest)
  {
    assert [c][..0] == [];
    if rest == [] {
      assert [c] + rest == [c];
    } else {
      var front, last := rest[..|rest| - 1], rest[|rest| - 1];
      HashPlaces(c, front);
      assert ([c] + rest)[..|rest|] == [c] + front;
      assert Power(31, |rest|) == 31 * Power(31, |front|);
    }
  }

  /** Wrapping at every character is wrapping once, and the index is one of the workers, the same at every call. */
  method WorkerIndexFor(codeUnits: seq<nat>, maxWorkers: nat) returns (index: nat)
    requires maxWorkers > 0
    ensures index == Abs32(ToInt32(HashPolynomial(codeUnits))) % maxWorkers
    ensures index < maxWorkers
  {
    var hash := 0;
    for i := 0 to |codeUnits|
      invariant hash == ToInt32(HashPolynomial(codeUnits[..i]))
    {
      assert codeUnits[..i + 1][..i] == codeUnits[..i];
      WrapOnce(HashPolynomial(codeUnits[..i]), codeUnits[i]);
      hash := ToInt32(hash * 31 + codeUnits[i]);
    }
    assert codeUnits[..|codeUnits|] == codeUnits;
    index := Abs32(hash) % maxWorkers;
  }
}
