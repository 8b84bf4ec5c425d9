/** Taking over the rows of the legacy database, and the verdict that the legacy file is no longer needed. */
module LegacyRetirement {
  import opened BlobGc
  import opened BlobStore
  import opened Options
  import opened UserVersions
  import Sets

  datatype DeferReason =
    | LegacyUnreadable | DestinationUnhealthy | AdoptionIncomplete | RecoveryRebuilt | MigrationStateUnknown
      | RootMissing

  datatype Verdict = Retirable(legacyRows: nat, legacyBytes: nat) | Deferred(reason: DeferReason)

  type Rows = map<HexId, Bytes>

  /** Which statements of an adoption fail. */
  datatype AdoptionFaults = AdoptionFaults(readVersion: bool, attach: bool, insert: bool, detach: bool,
      setVersion: bool) {
    predicate Any() { readVersion || attach || insert || detach || setVersion }
  }

  /** How the statements of a verification fare. */
  datatype Conditions = Conditions(healthy: bool, versionReadable: bool, legacyReadable: bool, detachFails: bool)

  /** The database, whether its connection has the legacy file attached, the legacy file, and which legacy ids an insert
      has offered to the database since it was last rebuilt. */
  datatype State = State(rows: Rows, userVersion: int, attached: bool, legacy: Option<Rows>, offered: set<HexId>)

  function Initial(legacy: Option<Rows>): State { State(map[], UNSTARTED, false, legacy, {}) }

  function Rebuild(s: State, salvaged: Rows): State {
    s.(rows := salvaged, userVersion := RECOVERY_REBUILT, attached := false, offered := {})
  }

  /** A new connection takes the legacy rows over, unless that has been done since the last rebuild. A row that is there
      already stays as it is. */
  function Adopt(s: State, f: AdoptionFaults): State {
    var connected := s.(attached := false);
    if f.readVersion || s.userVersion !in {UNSTARTED, RECOVERY_REBUILT} || s.legacy.None? || f.attach then connected
    else
      var inserted := if f.insert then connected
                      else connected.(rows := s.legacy.value + s.rows, offered := s.offered + s.legacy.value.Keys);
      if f.detach then inserted.(attached := true)
      else if f.insert || f.setVersion then inserted
      else inserted.(userVersion := ADOPTION_COMPLETE)
  }

  ghost function Verify(s: State, root: HexId, c: Conditions): Verdict {
    if s.legacy.None? then Deferred(LegacyUnreadable)
    else if !c.healthy then Deferred(DestinationUnhealthy)
    else if !c.versionReadable then Deferred(MigrationStateUnknown)
    else if s.userVersion == UNSTARTED then Deferred(AdoptionIncomplete)
    else if s.userVersion == RECOVERY_REBUILT then Deferred(RecoveryRebuilt)
    else if s.userVersion != ADOPTION_COMPLETE then Deferred(MigrationStateUnknown)
    else if root !in s.rows then Deferred(RootMissing)
    else if s.attached || !c.legacyReadable then Deferred(LegacyUnreadable)
    else Retirable(|s.legacy.value|, TotalBytes(s.legacy.value))
  }

  /** The connection keeps the legacy file if it was attached and could not be let go. */
  ghost function AfterVerify(s: State, root: HexId, c: Conditions): State {
    if Verify(s, root, c).Retirable? then s.(attached := c.detachFails) else s
  }

  // One adoption -----------------------------------------------------------------------------------------------------

  /** An adoption changes no row that is there, adds only legacy rows, and leaves every row it offers in the database.
      It completes exactly if the legacy file is there and none of its statements fails. */
  lemma AdoptionTakesOver(s: State, f: AdoptionFaults)
    ensures
      var s' := Adopt(s, f);
      && (forall id :: id in s.rows ==> id in s'.rows && s'.rows[id] == s.rows[id])
      && (forall id :: id in s'.rows && id !in s.rows ==>
        s.legacy.Some? && id in s.legacy.value && s'.rows[id] == s.legacy.value[id])
      && s.offered <= s'.offered
      && (forall id :: id in s'.offered && id !in s.offered ==> id in s'.rows)
      && (s'.offered != s.offered ==> s.legacy.Some? && s'.offered == s.offered + s.legacy.value.Keys)
    ensures s.userVersion in {UNSTARTED, RECOVERY_REBUILT} ==>
      (Adopt(s, f).userVersion == ADOPTION_COMPLETE <==> s.legacy.Some? && !f.Any()) &&
      (Adopt(s, f).userVersion == ADOPTION_COMPLETE ==>
        s.legacy.value.Keys <= Adopt(s, f).offered && s.legacy.value.Keys <= Adopt(s, f).rows.Keys)
    ensures s.userVersion !in {UNSTARTED, RECOVERY_REBUILT} || s.legacy.None? || f.Any() ==>
      Adopt(s, f).userVersion == s.userVersion
  {
  }

  /** A connection is left with the legacy file attached exactly if it attached it to take rows over and could not let
      it go again; a rebuilt database has the rows that were salvaged, and a connection of its own. */
  lemma WhatStaysAttached(s: State, f: AdoptionFaults, salvaged: Rows, legacy: Option<Rows>)
    ensures Adopt(s, f).attached <==>
      s.legacy.Some? && s.userVersion in {0, 2} && !f.readVersion && !f.attach && f.detach
    ensures Adopt(s, f).legacy == s.legacy
    ensures Rebuild(s, salvaged) == State(salvaged, 2, false, s.legacy, {})
    ensures Initial(legacy) == State(map[], 0, false, legacy, {})
  {
  }

  // Whole runs -------------------------------------------------------------------------------------------------------

  /** Corruption and rebuilding; ordinary use, which changes the rows at will; a change to the legacy file; an opening
      with its adoption; a verification. */
  datatype Event =
    | Rebuilt(salvaged: Rows)
    | Used(rows: Rows)
    | LegacyChanged(legacy: Option<Rows>)
    | Opened(faults: AdoptionFaults)
    | Verified(root: HexId, conditions: Conditions)

  ghost function Step(s: State, e: Event): State {
    match e
    case Rebuilt(salvaged) => Rebuild(s, salvaged)
    case Used(rows) => s.(rows := rows)
    case LegacyChanged(legacy) => s.(legacy := legacy)
    case Opened(faults) => Adopt(s, faults)
    case Verified(root, conditions) => AfterVerify(s, root, conditions)
  }

  ghost function Final(legacy: Option<Rows>, events: seq<Event>): State {
    if events == [] then Initial(legacy) else Step(Final(legacy, events[..|events| - 1]), events[|events| - 1])
  }

  /** The legacy file after these events. */
  function LegacyAfter(legacy: Option<Rows>, events: seq<Event>): Option<Rows> {
    if events == [] then legacy
    else
      match events[|events| - 1]
      case LegacyChanged(now) => now
      case _ => LegacyAfter(legacy, events[..|events| - 1])
  }

  /** Whether an adoption has gone through since the last rebuild. */
  predicate Adopted(legacy: Option<Rows>, events: seq<Event>) {
    events != [] &&
    var front := events[..|events| - 1];
    match events[|events| - 1]
    case Rebuilt(_) => false
    case Opened(f) => Adopted(legacy, front) || (LegacyAfter(legacy, front).Some? && !f.Any())
    case _ => Adopted(legacy, front)
  }

  /** The ids that the legacy file had at some opening since the last rebuild that was still to adopt and could read
      it. */
  function SeenAtOpening(legacy: Option<Rows>, events: seq<Event>): set<HexId> {
    if events == [] then {}
    else
      var front := events[..|events| - 1];
      match events[|events| - 1]
      case Rebuilt(_) => {}
      case Opened(f) =>
        if Adopted(legacy, front) || LegacyAfter(legacy, front).None? || f.readVersion || f.attach || f.insert then
          SeenAtOpening(legacy, front)
        else SeenAtOpening(legacy, front) + LegacyAfter(legacy, front).value.Keys
      case _ => SeenAtOpening(legacy, front)
  }

  /** The state follows the events. */
  lemma {:induction false} StateFollowsEvents(legacy: Option<Rows>, events: seq<Event>)
    ensures
      var s := Final(legacy, events);
      && s.legacy == LegacyAfter(legacy, events)
      && s.offered == SeenAtOpening(legacy, events)
      && s.userVersion in {UNSTARTED, RECOVERY_REBUILT, ADOPTION_COMPLETE}
      && (s.userVersion == ADOPTION_COMPLETE <==> Adopted(legacy, events))
  {
    if events != [] {
      var front := events[..|events| - 1];
      StateFollowsEvents(legacy, front);
      hide SeenAtOpening, Adopted, LegacyAfter, Final;
      LastEvent(legacy, events);
    }
  }

  lemma LastEvent(legacy: Option<Rows>, events: seq<Event>)
    requires events != []
    requires
      var front := events[..|events| - 1];
      var s := Final(legacy, front);
      && s.legacy == LegacyAfter(legacy, front) && s.offered == SeenAtOpening(legacy, front)
      && s.userVersion in {UNSTARTED, RECOVERY_REBUILT, ADOPTION_COMPLETE}
      && (s.userVersion == ADOPTION_COMPLETE <==> Adopted(legacy, front))
    ensures
      var s := Final(legacy, events);
      && s.legacy == LegacyAfter(legacy, events) && s.offered == SeenAtOpening(legacy, events)
      && s.userVersion in {UNSTARTED, RECOVERY_REBUILT, ADOPTION_COMPLETE}
      && (s.userVersion == ADOPTION_COMPLETE <==> Adopted(legacy, events))
  {
    var front := events[..|events| - 1];
    var s := Final(legacy, front);
    match events[|events| - 1]
    case Opened(f) => AdoptionTakesOver(s, f);
    case _ =>
  }

  /** The verdict after any run: which legacy files are called retirable. */
  lemma RetirableIff(legacy: Option<Rows>, events: seq<Event>, root: HexId, c: Conditions)
    ensures
      var s := Final(legacy, events);
      Verify(s, root, c).Retirable? <==>
      && LegacyAfter(legacy, events).Some? && Adopted(legacy, events) && root in s.rows && !s.attached
      && c.healthy && c.versionReadable && c.legacyReadable
  {
    hide Final;
    StateFollowsEvents(legacy, events);
  }

  /** In every run, a file that is called retirable has had all of its rows offered since the last rebuild exactly if it
      has no row but those that an adopting opening since then has seen. */
  lemma RetirementIsSoundIff(legacy: Option<Rows>, events: seq<Event>, root: HexId, c: Conditions)
    requires Verify(Final(legacy, events), root, c).Retirable?
    ensures
      var s := Final(legacy, events);
      && LegacyAfter(legacy, events).Some?
      && (s.legacy.value.Keys <= s.offered <==> LegacyAfter(legacy, events).value.Keys <= SeenAtOpening(legacy, events))
  {
    hide Final, SeenAtOpening;
    StateFollowsEvents(legacy, events);
  }

  /** The legacy file never gains a row. */
  ghost predicate GainsNothing(legacy: Option<Rows>, events: seq<Event>) {
    events != [] ==>
      var front := events[..|events| - 1];
      && GainsNothing(legacy, front)
      && match events[|events| - 1]
         case LegacyChanged(now) => now.Some? ==>
           LegacyAfter(legacy, front).Some? && now.value.Keys <= LegacyAfter(legacy, front).value.Keys
         case _ => true
  }

  lemma {:induction false} AdoptedRowsWereSeen(legacy: Option<Rows>, events: seq<Event>)
    requires GainsNothing(legacy, events) && Adopted(legacy, events) && LegacyAfter(legacy, events).Some?
    ensures LegacyAfter(legacy, events).value.Keys <= SeenAtOpening(legacy, events)
  {
    var front := events[..|events| - 1];
    match events[|events| - 1]
    case Opened(f) =>
      if Adopted(legacy, front) {
        AdoptedRowsWereSeen(legacy, front);
      }
    case Rebuilt(_) =>
    case _ => AdoptedRowsWereSeen(legacy, front);
  }

  /** So, if nothing is ever added to the legacy file, retirement is sound in every run. */
  lemma RetirementIsSound(legacy: Option<Rows>, events: seq<Event>, root: HexId, c: Conditions)
    requires GainsNothing(legacy, events) && Verify(Final(legacy, events), root, c).Retirable?
    ensures var s := Final(legacy, events); s.legacy.value.Keys <= s.offered && root in s.rows
  {
    hide Final, GainsNothing, SeenAtOpening, Adopted;
    StateFollowsEvents(legacy, events);
    RetirableIff(legacy, events, root, c);
    AdoptedRowsWereSeen(legacy, events);
    RetirementIsSoundIff(legacy, events, root, c);
  }

  /** And in any run that ends with a retirable file, one row more that no opening has seen makes it unsound: the file
      is still retirable, and that row was never offered. */
  lemma LateRowsAreLost(legacy: Option<Rows>, events: seq<Event>, root: HexId, c: Conditions, late: HexId, data: Bytes)
    requires Verify(Final(legacy, events), root, c).Retirable? && late !in SeenAtOpening(legacy, events)
    ensures
      var s := Final(legacy, events);
      var gained := Final(legacy, events + [LegacyChanged(Some(s.legacy.value[late := data]))]);
      Verify(gained, root, c).Retirable? && late in gained.legacy.value && late !in gained.offered &&
        gained.rows == s.rows
  {
    hide SeenAtOpening, LegacyAfter, Adopted;
    StateFollowsEvents(legacy, events);
    var s := Final(legacy, events);
    var change := LegacyChanged(Some(s.legacy.value[late := data]));
    assert (events + [change])[..|events|] == events;
  }

  // The database -----------------------------------------------------------------------------------------------------

  class ConversationDb {
    var rows: Rows
    var userVersion: int
    var attached: bool
    /** The file beside it. */
    var legacy: Option<Rows>
    ghost var offered: set<HexId>

    ghost function Abs(): State
      reads this
    {
      State(rows, userVersion, attached, legacy, offered)
    }

    constructor (legacy: Option<Rows>)
      ensures Abs() == Initial(legacy)
    {
      rows, userVersion, attached, this.legacy, offered := map[], UNSTARTED, false, legacy, {};
    }

    /** Corruption: the database is replaced by what could be salvaged of it. */
    method Recover(salvaged: Rows)
      modifies this
      ensures Abs() == old(Rebuild(Abs(), salvaged))
    {
      rows := salvaged;
      userVersion := RECOVERY_REBUILT;
      attached := false;
      offered := {};
    }

    method AdoptLegacyBlobs(faults: AdoptionFaults)
      modifies this
      ensures Abs() == old(Adopt(Abs(), faults))
    {
      attached := false;
      if faults.readVersion || userVersion !in {UNSTARTED, RECOVERY_REBUILT} || legacy.None? {
        return;
      }
      if faults.attach {
        return;
      }
      attached := true;
      if !faults.insert {
        rows := legacy.value + rows;
        offered := offered + legacy.value.Keys;
      }
      attached := faults.detach;
      if faults.insert || faults.detach {
        return;
      }
      if !faults.setVersion {
        userVersion := ADOPTION_COMPLETE;
      }
    }

    method VerifyLegacyBlobRetirement(root: HexId, c: Conditions) returns (verdict: Verdict)
      modifies this`attached
      ensures verdict == old(Verify(Abs(), root, c)) && Abs() == old(AfterVerify(Abs(), root, c))
    {
      if legacy.None? {
        return Deferred(LegacyUnreadable);
      }
      if !c.healthy {
        return Deferred(DestinationUnhealthy);
      }
      if !c.versionReadable {
        return Deferred(MigrationStateUnknown);
      }
      if userVersion == UNSTARTED {
        return Deferred(AdoptionIncomplete);
      } else if userVersion == RECOVERY_REBUILT {
        return Deferred(RecoveryRebuilt);
      } else if userVersion != ADOPTION_COMPLETE {
        return Deferred(MigrationStateUnknown);
      }
      if root !in rows {
        return Deferred(RootMissing);
      }
      if attached || !c.legacyReadable {
        return Deferred(LegacyUnreadable);
      }
      attached := true;
      var bytes := MeasureRows(legacy.value);
      verdict := Retirable(|legacy.value|, bytes);
      if !c.detachFails {
        attached := false;
      }
    }
  }

  method MeasureRows(rows: Rows) returns (bytes: nat)
    ensures bytes == TotalBytes(rows)
  {
    hide BytesOf;
    var ids := rows.Keys;
    bytes := 0;
    ghost var done: set<HexId> := {};
    NoBytes(rows);
    while ids != {}
      invariant done + ids == rows.Keys && done !! ids
      invariant bytes == BytesOf(rows, done)
      decreases |ids|
    {
      ghost var some := Sets.Pick(ids);
      var id :| id in ids;
      BytesWith(rows, done, id);
      bytes := bytes + |rows[id]|;
      done := done + {id};
      ids := ids - {id};
    }
    assert done == rows.Keys;
  }
}
