/** Opening the conversation blob database, and rebuilding it from a corrupt one so that a crash between any two file
    actions loses no row. Every file action is a method of its own; `history` keeps the disk after each of them, so a
    crash is a return to any of those disks. */
module BlobRecovery {
  import opened Options
  import opened Sets
  import opened UserVersions

  type Rows = map<string, seq<bv8>>

  /** The database file, a quarantined copy of it, and the names built from a path by a suffix. */
  datatype Path =
    | Db
    | Quarantine(stamp: nat)
    | Replacement(path: Path)
    | Intent(path: Path)
    | Pending(path: Path)
  {
    predicate IsMarker() { Intent? || Pending? }

    /** A rebuilt database that some recovery from a quarantine may have left behind. */
    predicate UnderQuarantine() {
      match this
      case Quarantine(_) => true
      case Replacement(p) => p.UnderQuarantine()
      case _ => false
    }

    predicate IsReplacementName() { this == Replacement(Db) || (Replacement? && UnderQuarantine()) }
  }

  datatype Health = Healthy | Corrupt

  /** A database file: whether its quick check passes, the rows that can still be read, and its user_version. */
  datatype File = Marker | Database(health: Health, rows: Rows, version: nat)

  type Disk = map<Path, File>

  datatype Outcome = Opened | Unavailable

  // What a disk promises ----------------------------------------------------------------------------------------

  ghost predicate HoldsRows(d: Disk, p: Path, rows: Rows) {
    p in d && d[p].Database? && d[p].rows == rows
  }

  predicate Completed(f: File) {
    f.Database? && (f.version == RECOVERY_REBUILT || f.version == ADOPTION_COMPLETE)
  }

  predicate Installable(f: File) { Completed(f) && f.health.Healthy? }

  /** Marker names name empty files, all other names databases. */
  ghost predicate WellFormed(d: Disk) {
    forall p :: p in d ==> (d[p].Marker? <==> p.IsMarker())
  }

  ghost predicate NoMarkers(d: Disk) { forall p :: p in d ==> !p.IsMarker() }

  /** Whatever the files hold: at most one marker, of the database itself or of a quarantine. */
  ghost predicate Tidy(d: Disk) {
    && WellFormed(d)
    && (forall p :: p in d && p.IsMarker() ==> p.path == Db || p.path.Quarantine?)
    && (forall p, p' :: p in d && p' in d && p.IsMarker() && p'.IsMarker() ==> p == p')
  }

  ghost predicate OnlyMarker(d: Disk, marker: Path) {
    marker in d && marker.IsMarker() && forall p :: p in d && p.IsMarker() ==> p == marker
  }

  /** Nothing under recovery: the rows are in the database, or there are none yet. */
  ghost predicate Settled(d: Disk, rows: Rows) {
    WellFormed(d) && NoMarkers(d) && if Db in d then HoldsRows(d, Db, rows) else rows == map[]
  }

  /** A recovery through the quarantine `q`: its copy holds the rows, or the move into it has not happened yet. A
      replacement that could be installed is complete. */
  ghost predicate Quarantining(d: Disk, marker: Path, rows: Rows) {
    && marker.IsMarker() && marker.path.Quarantine?
    && (Db in d ==> HoldsRows(d, Db, rows))
    && (if marker.path in d then HoldsRows(d, marker.path, rows) else marker.Intent? && Db in d)
    && (Replacement(marker.path) in d && Installable(d[Replacement(marker.path)]) ==>
          HoldsRows(d, Replacement(marker.path), rows))
  }

  /** A recovery in place: the source holds the rows until a complete replacement does. */
  ghost predicate RecoveringInPlace(d: Disk, marker: Path, rows: Rows) {
    && marker == Pending(Db)
    && if Db in d then HoldsRows(d, Db, rows)
       else HoldsRows(d, Replacement(Db), rows) && Completed(d[Replacement(Db)])
  }

  ghost predicate Recovering(d: Disk, marker: Path, rows: Rows) {
    && WellFormed(d) && OnlyMarker(d, marker)
    && (marker.Intent? ==> marker.path.Quarantine?)
    && (Quarantining(d, marker, rows) || RecoveringInPlace(d, marker, rows))
  }

  /** What every disk state in every run keeps. */
  ghost predicate Safe(d: Disk, rows: Rows) {
    Settled(d, rows) || exists marker :: Recovering(d, marker, rows)
  }

  /** The rows are on the disk, in the database, the quarantine or a completed replacement; and at most one marker
      is. */
  lemma SafeMeansRowsAndOneMarker(d: Disk, rows: Rows)
    requires Safe(d, rows)
    ensures forall p, p' :: p in d && p' in d && p.IsMarker() && p'.IsMarker() ==> p == p'
    ensures
      || rows == map[]
      || HoldsRows(d, Db, rows)
      || (exists stamp :: HoldsRows(d, Quarantine(stamp), rows))
      || (HoldsRows(d, Replacement(Db), rows) && Completed(d[Replacement(Db)]))
  {
    if !Settled(d, rows) {
      var marker :| Recovering(d, marker, rows);
      if Quarantining(d, marker, rows) && marker.path in d {
        assert HoldsRows(d, Quarantine(marker.path.stamp), rows);
      }
    }
  }

  /** A quiet opening ends here: a healthy database with the rows, and no marker. */
  ghost predicate Clean(d: Disk, rows: Rows) {
    WellFormed(d) && NoMarkers(d) && HoldsRows(d, Db, rows) && d[Db].health.Healthy?
  }

  /** A database file may rot at any time: its check fails from then on, its rows can still be read. */
  function Rotten(d: Disk, p: Path): Disk {
    if p in d && d[p].Database? then d[p := d[p].(health := Corrupt)] else d
  }

  lemma RotKeepsSafe(d: Disk, p: Path, rows: Rows)
    requires Safe(d, rows)
    ensures Safe(Rotten(d, p), rows)
    ensures p in d && d[p].Database? ==> Rotten(d, p) == d[p := Database(Corrupt, d[p].rows, d[p].version)]
    ensures !(p in d && d[p].Database?) ==> Rotten(d, p) == d
  {
    var d' := Rotten(d, p);
    assert d'.Keys == d.Keys;
    if !Settled(d, rows) {
      var marker :| Recovering(d, marker, rows);
      assert Recovering(d', marker, rows);
    }
  }

  // What an undisturbed reopening does to any disk ----------------------------------------------------------------

  function RowsIn(d: Disk, p: Path): Rows { if p in d && d[p].Database? then d[p].rows else map[] }

  function RebuiltFrom(d: Disk, source: Path, marker: Path): Disk {
    (d - {Replacement(source)})[Db := Database(Healthy, RowsIn(d, source), RECOVERY_REBUILT)] - {marker}
  }

  /** Finishing the recovery that `marker` stands for; `moves` says whether the database can be moved. */
  function Finished(d: Disk, marker: Path, moves: bool): Disk
    requires marker.IsMarker()
  {
    var q, r := marker.path, Replacement(marker.path);
    if Db !in d then
      if r in d && Installable(d[r]) then (d - {r})[Db := d[r]] - {marker}
      else if r in d && (q == Db || q !in d) then RebuiltFrom(d, r, marker)
      else RebuiltFrom(d, q, marker)
    else if d[Db].Database? && d[Db].health.Healthy? then d - {r} - {marker}
    else if q == Db then RebuiltFrom(d, Db, marker)
    else if q in d then RebuiltFrom(d - {Db}, q, marker)
    else if moves then RebuiltFrom(((d - {Db})[q := d[Db]] - {marker})[Pending(q) := Marker], q, Pending(q))
    else RebuiltFrom((d - {marker})[Pending(Db) := Marker], Db, Pending(Db))
  }

  /** A recovery from the start; `moved` says whether the database could be moved into the quarantine. */
  function Recovered(d: Disk, stamp: nat, moved: bool): Disk
    requires Db in d
  {
    var q := Quarantine(stamp);
    if moved then Finished((d - {Db})[q := d[Db]][Pending(q) := Marker], Pending(q), true)
    else Finished(d[Pending(Db) := Marker], Pending(Db), true)
  }

  /** What looking for an interrupted recovery has found. */
  ghost predicate Found(d: Disk, pending: Option<Path>, rows: Rows) {
    if pending.None? then Settled(d, rows) else Recovering(d, pending.value, rows)
  }

  ghost predicate TidyWith(d: Disk, pending: Option<Path>) {
    Tidy(d) && if pending.None? then NoMarkers(d) else OnlyMarker(d, pending.value)
  }

  /** A replacement that no recovery needs. */
  predicate Dropped(p: Path, pending: Option<Path>)
    requires pending.Some? ==> pending.value.IsMarker()
  {
    p.IsReplacementName() && (pending.Some? ==> p != Replacement(pending.value.path))
  }

  function DroppedOf(d: Disk, pending: Option<Path>): set<Path>
    requires pending.Some? ==> pending.value.IsMarker()
  {
    set p | p in d && Dropped(p, pending)
  }

  /** Without the replacements that the recovery does not need. */
  function Kept(d: Disk, marker: Path): Disk
    requires marker.IsMarker()
  {
    map p | p in d && (p.IsReplacementName() ==> p == Replacement(marker.path)) :: d[p]
  }

  function Reopened(d: Disk, marker: Path, moves: bool): Disk
    requires marker.IsMarker()
  {
    Finished(Kept(d, marker), marker, moves)
  }

  /** A disk without marker, opened undisturbed. Replacements are removed in any case. */
  function OpenedAfresh(d: Disk, stamp: nat, moved: bool): Disk {
    var kept := d - DroppedOf(d, None);
    if Db !in kept then kept[Db := Database(Healthy, map[], UNSTARTED)]
    else if kept[Db].Database? && kept[Db].health.Healthy? then kept
    else Recovered(kept, stamp, moved)
  }

  /** Which file a path names, if any. */
  function FileAt(d: Disk, p: Path): Option<File> { if p in d then Some(d[p]) else None }

  /** A healthy database is opened as it is, and nothing but replacements goes. */
  lemma HealthyStaysAsItIs(d: Disk, stamp: nat, moved: bool)
    requires Tidy(d) && NoMarkers(d) && Db in d && d[Db].health.Healthy?
    ensures
      var after := OpenedAfresh(d, stamp, moved);
      forall p :: FileAt(after, p) == if p.IsReplacementName() then None else FileAt(d, p)
  {
  }

  /** A missing database is made, and is empty. */
  lemma MissingIsMade(d: Disk, stamp: nat, moved: bool)
    requires Tidy(d) && NoMarkers(d) && Db !in d
    ensures
      var after := OpenedAfresh(d, stamp, moved);
      forall p :: FileAt(after, p) ==
        if p == Db then Some(Database(Healthy, map[], 0)) else if p.IsReplacementName() then None else FileAt(d, p)
  {
  }

  /** A corrupt database is rebuilt with all its rows. If it could be moved, it stands under its quarantine as it was;
      no other quarantine changes. */
  lemma CorruptIsRebuilt(d: Disk, stamp: nat, moved: bool)
    requires Tidy(d) && NoMarkers(d) && Db in d && d[Db].health.Corrupt?
    ensures
      var after := OpenedAfresh(d, stamp, moved);
      forall p :: FileAt(after, p) ==
        if p == Db then Some(Database(Healthy, d[Db].rows, 2))
        else if p == Quarantine(stamp) && moved then Some(d[Db])
        else if p.IsReplacementName() then None
        else FileAt(d, p)
  {
    var q, kept := Quarantine(stamp), d - DroppedOf(d, None);
    assert q.UnderQuarantine() && Dropped(Replacement(q), None) && Dropped(Replacement(Db), None);
    assert Replacement(q) !in kept && Replacement(Db) !in kept && Pending(q) !in d && Pending(Db) !in d;
    if moved {
      var begun := (kept - {Db})[q := kept[Db]][Pending(q) := Marker];
      assert OpenedAfresh(d, stamp, moved) == RebuiltFrom(begun, q, Pending(q));
    } else {
      assert OpenedAfresh(d, stamp, moved) == RebuiltFrom(kept[Pending(Db) := Marker], Db, Pending(Db));
    }
  }

  /** The rows that a recovery in progress is to save: those of the quarantine, or else of the database, or else of the
      replacement. */
  function RowsToSave(d: Disk, q: Path): Rows {
    if q in d then RowsIn(d, q) else if Db in d then RowsIn(d, Db) else RowsIn(d, Replacement(q))
  }

  /** What any recovery that is finished leaves: a healthy database as it is, or a completed replacement as it is, or
      the rows to save in a database rebuilt. Every quarantine stays as it is,
        and one is added exactly if the database had
      still to be moved and could be. */
  lemma WhatFinishingLeaves(d: Disk, marker: Path, moves: bool)
    requires Tidy(d) && OnlyMarker(d, marker)
    ensures
      var (after, q, r) := (Finished(d, marker, moves), marker.path, Replacement(marker.path));
      && NoMarkers(after)
      && FileAt(after, Db) == Some(
           if Db in d && d[Db].health.Healthy? then d[Db]
           else if Db !in d && r in d && d[r].health.Healthy? && d[r].version in {1, 2} then d[r]
           else Database(Healthy, RowsToSave(d, q), 2))
      && forall stamp ::
           FileAt(after, Quarantine(stamp)) ==
           if q == Quarantine(stamp) && q !in d && moves && Db in d && d[Db].health.Corrupt? then Some(d[Db])
           else FileAt(d, Quarantine(stamp))
  {
  }

  /** The quarantine that a stamp names is not there, or holds the same rows; so does a replacement made for it. */
  ghost predicate NameIsFree(d: Disk, stamp: nat, rows: Rows) {
    var q := Quarantine(stamp);
    && (q in d ==> HoldsRows(d, q, rows))
    && (Replacement(q) in d && Installable(d[Replacement(q)]) ==> HoldsRows(d, Replacement(q), rows))
  }

  /** A stamp that no file on the disk carries. */
  ghost predicate Fresh(d: Disk, stamp: nat) {
    Quarantine(stamp) !in d && Replacement(Quarantine(stamp)) !in d
  }

  class BlobDirectory {
    var disk: Disk
    ghost var salvageable: Rows
    var history: seq<Disk>
    var quiet: bool
    /** Whether the disk was safe at first; if not, only what is done to it is followed. */
    ghost const watched: bool

    /** Every disk since the last crash was safe, if the first one was, and the last of them is the present one. */
    ghost predicate CrashSafe() reads this`disk, this`salvageable, this`history {
      && disk in history
      && (watched ==> Safe(disk, salvageable))
      && (watched ==> forall d :: d in history ==> Safe(d, salvageable))
    }

    constructor (disk: Disk, ghost rows: Rows, ghost watched: bool)
      requires watched ==> Settled(disk, rows)
      ensures this.disk == disk && salvageable == rows && this.watched == watched && CrashSafe()
    {
      this.disk := disk;
      this.watched := watched;
      salvageable := rows;
      history := [disk];
      quiet := false;
    }

    // File actions. Each leaves a safe disk behind; nothing else changes the disk.

    method Set(p: Path, f: File)
      requires CrashSafe() && (watched ==> Safe(disk[p := f], salvageable))
      modifies this`disk, this`history
      ensures disk == old(disk)[p := f] && CrashSafe() && history == old(history) + [disk]
    {
      disk := disk[p := f];
      history := history + [disk];
    }

    method Remove(p: Path)
      requires CrashSafe() && (watched ==> Safe(disk - {p}, salvageable))
      modifies this`disk, this`history
      ensures disk == old(disk) - {p} && CrashSafe() && history == old(history) + [disk]
    {
      disk := disk - {p};
      history := history + [disk];
    }

    method Rename(p: Path, target: Path)
      requires p in disk && CrashSafe() && (watched ==> Safe((disk - {p})[target := disk[p]], salvageable))
      modifies this`disk, this`history
      ensures disk == (old(disk) - {p})[target := old(disk[p])] && CrashSafe() && history == old(history) + [disk]
    {
      disk := (disk - {p})[target := disk[p]];
      history := history + [disk];
    }

    /** Whether something is busy or failing just now; never, once things are quiet. */
    method Disturbed() returns (b: bool)
      ensures quiet ==> !b
    {
      b := *;
      if quiet {
        b := false;
      }
    }

    /** What a health check finds: None when the file is unavailable just now. */
    method CheckHealth(p: Path) returns (health: Option<Health>)
      requires p in disk && disk[p].Database?
      ensures health.Some? ==> health.value == disk[p].health
      ensures quiet ==> health.Some?
    {
      var b := Disturbed();
      health := if b then None else Some(disk[p].health);
    }

    /** Moves the database into the quarantine, by renaming or copying it, or leaves it in place. */
    method QuarantineDb(target: Path) returns (result: Path)
      requires Db in disk && CrashSafe() && (watched ==> Safe((disk - {Db})[target := disk[Db]], salvageable))
      modifies this`disk, this`history
      ensures old(history) <= history
      ensures CrashSafe() && (result == target || result == Db)
      ensures disk == if result == target then (old(disk) - {Db})[target := old(disk[Db])] else old(disk)
    {
      var moves: bool := *;
      if moves {
        Rename(Db, target);
        result := target;
      } else {
        result := Db;
      }
    }

    /** Installs a completed replacement while the database is missing. None when it is not one. */
    method InstallCompletedReplacement(replacementPath: Path, pendingPath: Path) returns (outcome: Option<Outcome>)
      requires CrashSafe() && Tidy(disk) && OnlyMarker(disk, pendingPath)
      requires watched ==> Recovering(disk, pendingPath, salvageable)
      requires replacementPath == Replacement(pendingPath.path) && replacementPath in disk && Db !in disk
      modifies this`disk, this`history
      ensures old(history) <= history
      ensures CrashSafe()
      ensures outcome == Some(Opened) ==> watched ==> Clean(disk, salvageable)
      ensures outcome == Some(Opened) ==>
        Installable(old(disk[replacementPath])) &&
        disk == (old(disk) - {replacementPath})[Db := old(disk[replacementPath])] - {pendingPath}
      ensures outcome == None ==> disk == old(disk) && !Installable(disk[replacementPath])
      ensures quiet ==> outcome != Some(Unavailable)
    {
      var health := CheckHealth(replacementPath);
      if health.None? {
        return Some(Unavailable);
      }
      if health.value.Corrupt? {
        return None;
      }
      if disk[replacementPath].version != RECOVERY_REBUILT && disk[replacementPath].version != ADOPTION_COMPLETE {
        return None;
      }
      assert disk - {Db} == disk;
      Remove(Db);
      if watched {
        InstallKeepsRecovering(disk, pendingPath, salvageable);
      }
      Rename(replacementPath, Db);
      health := CheckHealth(Db);
      if health.None? {
        return Some(Unavailable);
      }
      if watched {
        MarkerCanGo(disk, pendingPath, salvageable);
      }
      Remove(pendingPath);
      outcome := Some(Opened);
    }

    /** Begins the replacement anew; whatever was left of an earlier one goes. */
    method OpenRecoveryTarget(ghost source: Path, replacementPath: Path, ghost marker: Path) returns (isOpen: bool)
      requires CrashSafe() && (watched ==> Rebuilding(disk, marker, source, salvageable))
      requires replacementPath == Replacement(source)
      modifies this`disk, this`history
      ensures old(history) <= history
      ensures CrashSafe() && (watched ==> Rebuilding(disk, marker, source, salvageable))
      ensures disk == (old(disk) - {replacementPath})[replacementPath := Database(Healthy, map[], UNSTARTED)]
      ensures quiet ==> isOpen
    {
      hide CrashSafe, Rebuilding, Safe;
      if watched {
        DropReplacement(disk, marker, source, salvageable);
      }
      Remove(replacementPath);
      if watched {
        SetReplacement(disk, marker, source, salvageable, Database(Healthy, map[], UNSTARTED));
      }
      Set(replacementPath, Database(Healthy, map[], UNSTARTED));
      var b := Disturbed();
      isOpen := !b;
    }

    /** Salvages the rows of `source`, if it is there, into a fresh replacement and installs that as the database. */
    method Rebuild(source: Path, replacementPath: Path, pendingPath: Path) returns (outcome: Outcome)
      requires CrashSafe() && (watched ==> Rebuilding(disk, pendingPath, source, salvageable))
      requires source in disk ==> disk[source].Database?
      requires replacementPath == Replacement(source)
      modifies this`disk, this`history
      ensures old(history) <= history
      ensures CrashSafe()
      ensures outcome.Opened? ==>
        disk == RebuiltFrom(old(disk), source, pendingPath) && (watched ==> Clean(disk, salvageable))
      ensures quiet ==> outcome.Opened?
    {
      hide CrashSafe, Rebuilding, RebuiltFrom, Safe, Clean, Settled, RowsIn;
      ghost var before := disk;
      NotItsReplacement(source);
      if watched {
        RebuildingHasRows(disk, pendingPath, source, salvageable);
      }
      var isOpen := OpenRecoveryTarget(source, replacementPath, pendingPath);
      if !isOpen {
        return Unavailable;
      }
      RowsStayIn(before, disk, source);
      CopySalvageableRows(source, replacementPath, pendingPath);
      if watched {
        SetReplacement(disk, pendingPath, source, salvageable, Database(Healthy, salvageable, RECOVERY_REBUILT));
      }
      Set(replacementPath, disk[replacementPath].(version := RECOVERY_REBUILT));
      if watched {
        ReplacementCompleted(disk, pendingPath, source, salvageable);
      }
      Remove(Db);
      Rename(replacementPath, Db);
      var health := CheckHealth(Db);
      if health.None? {
        return Unavailable;
      }
      if watched {
        MarkerCanGo(disk, pendingPath, salvageable);
        SafeWhenSettled(disk - {pendingPath}, salvageable);
      }
      Remove(pendingPath);
      RebuildingSteps(before, source, pendingPath);
      outcome := Opened;
    }

    /** Each row is inserted by itself, and a crash may come between any two of them. */
    method CopySalvageableRows(source: Path, replacementPath: Path, ghost marker: Path)
      requires CrashSafe() && (watched ==> Rebuilding(disk, marker, source, salvageable))
      requires source in disk ==> disk[source].Database?
      requires replacementPath == Replacement(source)
      requires replacementPath in disk && disk[replacementPath] == Database(Healthy, map[], UNSTARTED)
      modifies this`disk, this`history
      ensures old(history) <= history
      ensures CrashSafe() && (watched ==> Rebuilding(disk, marker, source, salvageable))
      ensures disk == old(disk)[replacementPath := Database(Healthy, RowsIn(old(disk), source), UNSTARTED)]
    {
      hide CrashSafe, Rebuilding;
      assert disk == disk[replacementPath := Database(Healthy, map[], UNSTARTED)];
      if source !in disk {
        return;
      }
      if watched {
        RebuildingHasRows(disk, marker, source, salvageable);
      }
      var rows := disk[source].rows;
      var ids := rows.Keys;
      assert rows - ids == map[] && rows - {} == rows;
      while ids != {}
        invariant CrashSafe() && (watched ==> Rebuilding(disk, marker, source, salvageable))
        invariant old(history) <= history
        invariant ids <= rows.Keys
        invariant disk == old(disk)[replacementPath := Database(Healthy, rows - ids, UNSTARTED)]
        decreases |ids|
      {
        ghost var some := Pick(ids);
        var id :| id in ids;
        var copied := disk[replacementPath].(rows := disk[replacementPath].rows[id := rows[id]]);
        assert rows - (ids - {id}) == (rows - ids)[id := rows[id]];
        if watched {
          SetReplacement(disk, marker, source, salvageable, copied);
        }
        Set(replacementPath, copied);
        ids := ids - {id};
      }
    }

    /** Brings an interrupted recovery to its end, whatever point it had reached and whatever the files hold. */
    method FinishRecovery(pendingPath: Path) returns (outcome: Outcome, ghost moved: bool)
      requires CrashSafe() && Tidy(disk) && OnlyMarker(disk, pendingPath)
      requires watched ==> Recovering(disk, pendingPath, salvageable)
      modifies this`disk, this`history
      ensures old(history) <= history
      ensures CrashSafe()
      ensures outcome.Opened? ==>
        disk == Finished(old(disk), pendingPath, moved) && (watched ==> Clean(disk, salvageable))
      ensures quiet ==> outcome.Opened?
    {
      hide CrashSafe;
      moved := false;
      var marker := pendingPath;
      var quarantinePath := pendingPath.path;
      var replacementPath := Replacement(quarantinePath);
      if Db !in disk && replacementPath in disk {
        var installed := InstallCompletedReplacement(replacementPath, marker);
        if installed.Some? {
          return installed.value, false;
        }
        var hasSeparateQuarantine := quarantinePath != Db && quarantinePath in disk;
        if !hasSeparateQuarantine {
          quarantinePath := replacementPath;
          replacementPath := Replacement(replacementPath);
        }
      }
      if Db in disk {
        var sourceHealth := CheckHealth(Db);
        if sourceHealth.None? {
          return Unavailable, false;
        }
        if sourceHealth.value.Healthy? {
          var b := Disturbed();
          if b {
            return Unavailable, false;
          }
          if watched {
            StaleReplacementCanGo(disk, marker, salvageable);
          }
          Remove(Replacement(quarantinePath));
          if watched {
            MarkerCanGo(disk, marker, salvageable);
          }
          Remove(marker);
          return Opened, false;
        }
        if quarantinePath == Db {
          // The source is what is salvaged, as it could not be moved.
        } else if quarantinePath !in disk {
          if watched {
            MoveKeepsRecovering(disk, marker, salvageable);
          }
          quarantinePath := QuarantineDb(quarantinePath);
          moved := quarantinePath != Db;
          var resumed := Pending(quarantinePath);
          if marker != resumed {
            if watched {
              ResumedMarkerKeepsRecovering(disk, marker, resumed, salvageable);
            }
            Rename(marker, resumed);
            marker := resumed;
          }
          replacementPath := Replacement(quarantinePath);
        } else {
          if watched {
            SourceCanGo(disk, marker, salvageable);
          }
          Remove(Db);
        }
      }
      outcome := Rebuild(quarantinePath, replacementPath, marker);
    }

    /** Writes down which quarantine is to come. */
    method Announce(stamp: nat)
      requires CrashSafe() && Tidy(disk) && NoMarkers(disk) && Db in disk
      requires watched ==> Settled(disk, salvageable) && NameIsFree(disk, stamp, salvageable)
      modifies this`disk, this`history
      ensures old(history) <= history
      ensures CrashSafe() && disk == Announced(old(disk), stamp)
      ensures watched ==> Recovering(disk, Intent(Quarantine(stamp)), salvageable)
    {
      hide CrashSafe;
      if watched {
        IntentStartsRecovery(disk, stamp, salvageable);
      }
      Set(Intent(Quarantine(stamp)), Marker);
    }

    /** A recovery from the start. */
    method Recover(stamp: nat) returns (outcome: Outcome, ghost moved: bool)
      requires CrashSafe() && Tidy(disk) && NoMarkers(disk) && Db in disk
      requires watched ==> Settled(disk, salvageable) && NameIsFree(disk, stamp, salvageable)
      modifies this`disk, this`history
      ensures old(history) <= history
      ensures CrashSafe()
      ensures outcome.Opened? ==>
        disk == Recovered(old(disk), stamp, moved) && (watched ==> Clean(disk, salvageable))
      ensures quiet ==> outcome.Opened?
    {
      hide CrashSafe;
      var intended := Quarantine(stamp);
      Announce(stamp);
      if watched {
        MoveKeepsRecovering(disk, Intent(intended), salvageable);
      }
      var quarantinePath := QuarantineDb(intended);
      if watched {
        ResumedMarkerKeepsRecovering(disk, Intent(intended), Pending(quarantinePath), salvageable);
      }
      Rename(Intent(intended), Pending(quarantinePath));
      ghost var before := old(disk);
      moved := quarantinePath != Db;
      assert disk == if moved then (before - {Db})[intended := before[Db]][Pending(intended) := Marker]
                     else before[Pending(Db) := Marker];
      ghost var movedLater;
      outcome, movedLater := FinishRecovery(Pending(quarantinePath));
    }

    /** Looks for a recovery that was interrupted, and removes replacements that no recovery still needs. */
    method FindPendingRecovery() returns (pending: Option<Path>)
      requires CrashSafe() && Tidy(disk)
      modifies this`disk, this`history
      ensures old(history) <= history
      ensures CrashSafe() && TidyWith(disk, pending) && (watched ==> Found(disk, pending, salvageable))
      ensures forall p :: p in disk ==> p in old(disk) && disk[p] == old(disk)[p]
      ensures pending.Some? ==> pending.value in old(disk) && disk == Kept(old(disk), pending.value)
      ensures pending.None? ==> NoMarkers(old(disk)) && disk == old(disk) - DroppedOf(old(disk), None)
    {
      var markers := set p | p in disk && p.IsMarker();
      if watched {
        SafeCases(disk, salvageable);
      }
      hide CrashSafe;
      if markers == {} {
        assert forall p :: p in disk ==> p !in markers;
        pending := None;
      } else {
        ghost var some := Pick(markers);
        var marker :| marker in markers;
        pending := Some(marker);
      }
      RemoveDropped(pending);
    }

    method RemoveDropped(pending: Option<Path>)
      requires CrashSafe() && TidyWith(disk, pending) && (watched ==> Found(disk, pending, salvageable))
      modifies this`disk, this`history
      ensures old(history) <= history
      ensures CrashSafe() && TidyWith(disk, pending) && (watched ==> Found(disk, pending, salvageable))
      ensures disk == old(disk) - DroppedOf(old(disk), pending)
    {
      assert pending.Some? ==> pending.value.IsMarker();
      hide CrashSafe, Found, Safe, TidyWith, Dropped, DroppedOf;
      var stale := DroppedOf(disk, pending);
      ghost var before, gone := disk, {};
      assert disk == disk - {};
      while stale != {}
        invariant CrashSafe() && (watched ==> Found(disk, pending, salvageable)) && old(history) <= history
        invariant disk == before - gone && gone + stale == DroppedOf(before, pending)
        decreases |stale|
      {
        ghost var some := Pick(stale);
        var p :| p in stale;
        if watched {
          IsDropped(before, pending, p);
          StaleNameCanGo(disk, pending, p, salvageable);
        }
        Remove(p);
        OneMore(before, gone, p);
        stale, gone := stale - {p}, gone + {p};
      }
      StaysTidy(before, pending);
    }

    /** Opens the database, recovering it when it is corrupt or a recovery is pending. */
    method Open(stamp: nat) returns (outcome: Outcome, ghost moved: bool)
      requires CrashSafe() && Tidy(disk) && (watched ==> NameIsFree(disk, stamp, salvageable))
      modifies this`disk, this`history
      ensures old(history) <= history
      ensures CrashSafe()
      ensures outcome.Opened? ==> watched ==> Clean(disk, salvageable)
      ensures outcome.Opened? ==>
        forall marker :: marker in old(disk) && marker.IsMarker() ==> disk == Reopened(old(disk), marker, moved)
      ensures quiet && NoMarkers(old(disk)) ==> disk == OpenedAfresh(old(disk), stamp, moved)
      ensures quiet ==> outcome.Opened?
    {
      hide CrashSafe, Finished;
      moved := false;
      var pending := FindPendingRecovery();
      if pending.Some? {
        outcome, moved := FinishRecovery(pending.value);
        return;
      }
      if Db !in disk {
        if watched {
          assert Settled(disk[Db := Database(Healthy, map[], UNSTARTED)], salvageable);
        }
        Set(Db, Database(Healthy, map[], UNSTARTED));
      }
      var b := Disturbed();
      if b {
        // A failing check is either reported or, when it keeps failing, taken for corruption.
        var recovers: bool := *;
        if recovers {
          outcome, moved := Recover(stamp);
        } else {
          outcome := Unavailable;
        }
        return;
      }
      if disk[Db].health.Healthy? {
        return Opened, false;
      }
      outcome, moved := Recover(stamp);
    }

    // Runs -------------------------------------------------------------------------------------------------------

    /** The process dies: the disk is as it was after any one file action since it was started. */
    method Crash(at: nat)
      requires CrashSafe()
      modifies this`disk, this`history
      ensures CrashSafe() && disk == old(history[at % |history|]) && history == [disk]
    {
      disk := history[at % |history|];
      history := [disk];
    }

    method Decay(p: Path)
      requires CrashSafe()
      modifies this`disk, this`history
      ensures CrashSafe() && disk == Rotten(old(disk), p)
    {
      if watched {
        RotKeepsSafe(disk, p, salvageable);
      }
      disk := Rotten(disk, p);
      history := [disk];
    }

    /** A committed write to an open database. */
    method WriteRow(id: string, data: seq<bv8>)
      requires watched && CrashSafe() && Clean(disk, salvageable)
      modifies this`disk, this`history, this`salvageable
      ensures CrashSafe() && Clean(disk, salvageable) && salvageable == old(salvageable)[id := data]
    {
      disk := disk[Db := disk[Db].(rows := disk[Db].rows[id := data])];
      salvageable := salvageable[id := data];
      history := [disk];
      assert Settled(disk, salvageable);
    }

    /** A stamp as the clock gives it: one that no file carries yet. */
    method NewStamp() returns (stamp: nat)
      ensures Fresh(disk, stamp)
    {
      var paths := disk.Keys;
      stamp := 0;
      while paths != {}
        invariant forall p :: p in disk.Keys - paths ==> StampOf(p) < stamp
        decreases |paths|
      {
        ghost var some := Pick(paths);
        var p :| p in paths;
        if StampOf(p) >= stamp {
          stamp := StampOf(p) + 1;
        }
        paths := paths - {p};
      }
      assert StampOf(Quarantine(stamp)) == stamp == StampOf(Replacement(Quarantine(stamp)));
    }

    lemma NowTidy()
      requires watched && CrashSafe()
      ensures Tidy(disk)
    {
      SafeIsTidy(disk, salvageable);
    }

    /** Openings that fail or are cut short anywhere, rot between them, and writes in between: whatever happens, one
        quiet opening afterwards brings back a healthy database with every row. */
    method Run(events: seq<Event>) returns (committed: seq<bool>)
      requires watched && CrashSafe()
      modifies this
      ensures |committed| == |events|
      ensures CrashSafe() && Clean(disk, salvageable) && salvageable == WithWrites(old(salvageable), events, committed)
      ensures Db in disk && disk[Db].Database? && disk[Db].health.Healthy?
      ensures disk[Db].rows == WithWrites(old(salvageable), events, committed)
      ensures forall p :: p in disk ==> !p.Intent? && !p.Pending?
    {
      hide CrashSafe, Clean, Finished;
      quiet := false;
      committed := [];
      for i := 0 to |events|
        invariant CrashSafe()
        invariant |committed| == i && salvageable == WithWrites(old(salvageable), events[..i], committed)
      {
        assert events[..i + 1][..i] == events[..i];
        NowTidy();
        var stamp := NewStamp();
        var commits := false;
        match events[i] {
          case OpenAndCrash(at) =>
            var _, _ := Open(stamp);
            Crash(at);
          case OpenAndWrite(id, data) =>
            var outcome, _ := Open(stamp);
            if outcome.Opened? {
              WriteRow(id, data);
              commits := true;
            }
          case Decay(p) =>
            Decay(p);
        }
        assert (committed + [commits])[..i] == committed;
        committed := committed + [commits];
      }
      assert events[..|events|] == events;
      quiet := true;
      NowTidy();
      var stamp := NewStamp();
      var _, _ := Open(stamp);
      CleanMeans(disk, salvageable);
    }
  }

  lemma CleanMeans(d: Disk, rows: Rows)
    requires Clean(d, rows)
    ensures Db in d && d[Db].Database? && d[Db].health.Healthy? && d[Db].rows == rows
    ensures forall p :: p in d ==> !p.Intent? && !p.Pending?
  {
  }

  /** The rows, with those added that were written by the events that committed, in their order. */
  function WithWrites(rows: Rows, events: seq<Event>, committed: seq<bool>): Rows
    requires |committed| == |events|
  {
    if events == [] then rows
    else
      var i := |events| - 1;
      var before := WithWrites(rows, events[..i], committed[..i]);
      if committed[i] && events[i].OpenAndWrite? then before[events[i].id := events[i].data] else before
  }

  predicate Wrote(events: seq<Event>, committed: seq<bool>, id: string, i: int)
    requires |committed| == |events| && 0 <= i < |events|
  {
    committed[i] && events[i].OpenAndWrite? && events[i].id == id
  }

  /** A row is as the last committed write of it left it, or as it was. */
  lemma {:induction false} LastWriteStands(rows: Rows, events: seq<Event>, committed: seq<bool>, id: string, i: int)
    requires |committed| == |events| && -1 <= i < |events|
    requires i >= 0 ==> Wrote(events, committed, id, i)
    requires forall j :: i < j < |events| ==> !Wrote(events, committed, id, j)
    ensures
      var after := WithWrites(rows, events, committed);
      if i >= 0 then id in after && after[id] == events[i].data
      else (id in after <==> id in rows) && (id in rows ==> after[id] == rows[id])
    decreases |events|
  {
    if events != [] {
      var n := |events| - 1;
      if i < n {
        assert !Wrote(events, committed, id, n);
        assert i >= 0 ==> Wrote(events[..n], committed[..n], id, i);
        forall j | i < j < n
          ensures !Wrote(events[..n], committed[..n], id, j)
        {
          assert !Wrote(events, committed, id, j);
        }
        LastWriteStands(rows, events[..n], committed[..n], id, i);
      }
    }
  }

  datatype Event = OpenAndCrash(at: nat) | OpenAndWrite(id: string, data: seq<bv8>) | Decay(p: Path)

  function StampOf(p: Path): nat {
    match p
    case Db => 0
    case Quarantine(stamp) => stamp
    case Replacement(q) => StampOf(q)
    case Intent(q) => StampOf(q)
    case Pending(q) => StampOf(q)
  }

  lemma SafeIsTidy(d: Disk, rows: Rows)
    requires Safe(d, rows)
    ensures Tidy(d)
  {
  }

  lemma SafeCases(d: Disk, rows: Rows)
    requires Safe(d, rows)
    ensures (set p | p in d && p.IsMarker()) == {} ==> Settled(d, rows)
    ensures forall marker :: marker in d && marker.IsMarker() ==> Recovering(d, marker, rows)
  {
    var markers := set p | p in d && p.IsMarker();
    forall marker | marker in d && marker.IsMarker() ensures Recovering(d, marker, rows) {
      var m :| Recovering(d, m, rows);
    }
    if markers == {} {
      assert forall p :: p in d ==> p !in markers;
      assert !exists m :: Recovering(d, m, rows);
    }
  }

  lemma OneMore(d: Disk, gone: set<Path>, p: Path)
    ensures d - gone - {p} == d - (gone + {p})
  {
  }

  lemma IsDropped(d: Disk, pending: Option<Path>, p: Path)
    requires (pending.Some? ==> pending.value.IsMarker()) && p in DroppedOf(d, pending)
    ensures Dropped(p, pending)
  {
  }

  lemma StaysTidy(d: Disk, pending: Option<Path>)
    requires TidyWith(d, pending) && (pending.Some? ==> pending.value.IsMarker())
    ensures TidyWith(d - DroppedOf(d, pending), pending)
  {
    assert pending.Some? ==> !Dropped(pending.value, pending);
  }

  lemma StaleNameCanGo(d: Disk, pending: Option<Path>, p: Path, rows: Rows)
    requires Found(d, pending, rows) && (pending.Some? ==> pending.value.IsMarker()) && Dropped(p, pending)
    ensures Found(d - {p}, pending, rows) && Safe(d - {p}, rows)
  {
    if pending.Some? {
      assert Recovering(d - {p}, pending.value, rows);
    }
  }

  lemma IntentStartsRecovery(d: Disk, stamp: nat, rows: Rows)
    requires Settled(d, rows) && Db in d && NameIsFree(d, stamp, rows)
    ensures Recovering(d[Intent(Quarantine(stamp)) := Marker], Intent(Quarantine(stamp)), rows)
  {
  }

  /** Writing the intent is safe exactly when the name it announces is free or already stands for the same rows: a
      reused stamp would let an older quarantine pass for the one that is to come. */
  lemma IntentIsSafeIff(d: Disk, stamp: nat, rows: Rows)
    requires Settled(d, rows) && Db in d
    ensures
      var q := Quarantine(stamp);
      Safe(d[Intent(q) := Marker], rows) <==> NameIsFree(d, stamp, rows)
  {
    var q := Quarantine(stamp);
    var d' := d[Intent(q) := Marker];
    assert Intent(q) in d';
    if Safe(d', rows) {
      var marker :| Recovering(d', marker, rows);
      assert marker == Intent(q);
    }
    if NameIsFree(d, stamp, rows) {
      assert Recovering(d', Intent(q), rows);
    }
  }

  /** The disk right after the intent has been written, and right after the database has been moved as announced. */
  function Announced(d: Disk, stamp: nat): Disk { d[Intent(Quarantine(stamp)) := Marker] }

  function MovedAway(d: Disk, stamp: nat): Disk
    requires Db in d
  {
    (Announced(d, stamp) - {Db})[Quarantine(stamp) := d[Db]]
  }

  /** The rows are back after a crash at one of these two points and an undisturbed reopening. */
  ghost predicate SurvivesCrash(crashed: Disk, stamp: nat, rows: Rows) {
    forall moves :: HoldsRows(Reopened(crashed, Intent(Quarantine(stamp)), moves), Db, rows)
  }

  /** Recovering a corrupt database under a name loses no row at these points exactly if the name is free: a name that
      is taken by other rows lets the older quarantine, or its replacement, pass for the one that is to come. */
  lemma NoRowIsLostIffNameIsFree(d: Disk, stamp: nat, rows: Rows)
    requires Settled(d, rows) && Db in d && !d[Db].health.Healthy?
    ensures SurvivesCrash(Announced(d, stamp), stamp, rows) && SurvivesCrash(MovedAway(d, stamp), stamp, rows) <==>
      NameIsFree(d, stamp, rows)
  {
    var q := Quarantine(stamp);
    forall moves
      ensures HoldsRows(Reopened(Announced(d, stamp), Intent(q), moves), Db, rows) <==>
        (q in d ==> HoldsRows(d, q, rows))
    {
      ReopensAnnounced(d, stamp, rows, moves);
    }
    forall moves
      ensures HoldsRows(Reopened(MovedAway(d, stamp), Intent(q), moves), Db, rows) <==>
        (Replacement(q) in d && Installable(d[Replacement(q)]) ==> HoldsRows(d, Replacement(q), rows))
    {
      ReopensMoved(d, stamp, rows, moves);
    }
    assert SurvivesCrash(Announced(d, stamp), stamp, rows) ==>
      HoldsRows(Reopened(Announced(d, stamp), Intent(q), true), Db, rows);
    assert SurvivesCrash(MovedAway(d, stamp), stamp, rows) ==>
      HoldsRows(Reopened(MovedAway(d, stamp), Intent(q), true), Db, rows);
  }

  lemma ReopensAnnounced(d: Disk, stamp: nat, rows: Rows, moves: bool)
    requires Settled(d, rows) && Db in d && !d[Db].health.Healthy?
    ensures
      var q := Quarantine(stamp);
      RowsIn(Reopened(Announced(d, stamp), Intent(q), moves), Db) == (if q in d then d[q].rows else rows) &&
      (HoldsRows(Reopened(Announced(d, stamp), Intent(q), moves), Db, rows) <==> (q in d ==> HoldsRows(d, q, rows)))
  {
  }

  lemma ReopensMoved(d: Disk, stamp: nat, rows: Rows, moves: bool)
    requires Settled(d, rows) && Db in d && !d[Db].health.Healthy?
    ensures
      var q := Quarantine(stamp);
      HoldsRows(Reopened(MovedAway(d, stamp), Intent(q), moves), Db, rows) <==>
        (Replacement(q) in d && Installable(d[Replacement(q)]) ==> HoldsRows(d, Replacement(q), rows))
  {
  }

  /** A quarantine from long ago, empty, and a stamp that comes again: after a crash right behind the intent, the
      reopening takes the old quarantine for the new one and removes the database, and its row is gone. */
  lemma ReusedStampLosesARow()
    ensures
      var row: Rows := map["row" := [1]];
      var d: Disk := map[Db := Database(Corrupt, row, ADOPTION_COMPLETE),
        Quarantine(7) := Database(Corrupt, map[], UNSTARTED)];
      Settled(d, row) && forall moves :: RowsIn(Reopened(Announced(d, 7), Intent(Quarantine(7)), moves), Db) == map[]
  {
    var row: Rows := map["row" := [1]];
    var d: Disk := map[Db := Database(Corrupt, row, ADOPTION_COMPLETE),
      Quarantine(7) := Database(Corrupt, map[], UNSTARTED)];
    forall moves
      ensures RowsIn(Reopened(Announced(d, 7), Intent(Quarantine(7)), moves), Db) == map[]
    {
      ReopensAnnounced(d, 7, row, moves);
    }
  }

  /** And so the code does: the announcement, a crash, and an undisturbed opening under a later stamp. */
  method LoseARow() returns (directory: BlobDirectory)
    ensures RowsIn(directory.disk, Db) == map[]
  {
    var row: Rows := map["row" := [1]];
    var d: Disk := map[Db := Database(Corrupt, row, ADOPTION_COMPLETE),
      Quarantine(7) := Database(Corrupt, map[], UNSTARTED)];
    directory := new BlobDirectory(d, row, false);
    directory.Announce(7);
    directory.quiet := true;
    assert Intent(Quarantine(7)) in directory.disk;
    var outcome, moved := directory.Open(8);
    ReopensAnnounced(d, 7, row, moved);
  }

  /** Before the move, moving the database into the quarantine keeps the recovery going. */
  lemma MoveKeepsRecovering(d: Disk, marker: Path, rows: Rows)
    requires Recovering(d, marker, rows) && marker.path.Quarantine? && Db in d
    ensures Recovering((d - {Db})[marker.path := d[Db]], marker, rows)
  {
    var d' := (d - {Db})[marker.path := d[Db]];
    assert Quarantining(d', marker, rows);
  }

  /** After the move, or when it is given up, the marker is renamed to say so. */
  lemma ResumedMarkerKeepsRecovering(d: Disk, marker: Path, resumed: Path, rows: Rows)
    requires Recovering(d, marker, rows) && marker.Intent?
    requires
      || (resumed == Pending(marker.path) && marker.path in d)
      || (resumed == Pending(Db) && Db in d)
    ensures marker in d
    ensures Recovering((d - {marker})[resumed := d[marker]], resumed, rows)
  {
    var d' := (d - {marker})[resumed := d[marker]];
    if resumed == Pending(Db) {
      assert RecoveringInPlace(d', resumed, rows);
    } else {
      assert Quarantining(d', resumed, rows);
    }
  }

  lemma StaleReplacementCanGo(d: Disk, marker: Path, rows: Rows)
    requires Recovering(d, marker, rows) && Db in d
    ensures Recovering(d - {Replacement(marker.path)}, marker, rows)
  {
  }

  lemma SourceCanGo(d: Disk, marker: Path, rows: Rows)
    requires Recovering(d, marker, rows) && marker.path.Quarantine? && marker.path in d
    ensures Recovering(d - {Db}, marker, rows)
  {
    assert Quarantining(d - {Db}, marker, rows);
  }

  /** Everything is ready to rebuild from `source`: through a quarantine, in place, or in place from a replacement that
      took the rows over and then rotted. */
  ghost predicate Rebuilding(d: Disk, marker: Path, source: Path, rows: Rows) {
    && Recovering(d, marker, rows)
    && HoldsRows(d, source, rows)
    && (source == marker.path || (marker == Pending(Db) && source == Replacement(Db) && Db !in d))
  }

  lemma RebuildingHasRows(d: Disk, marker: Path, source: Path, rows: Rows)
    requires Rebuilding(d, marker, source, rows)
    ensures source in d && d[source].Database? && d[source].rows == rows && source != Replacement(source)
    ensures RowsIn(d, source) == rows
  {
  }

  lemma SafeWhenSettled(d: Disk, rows: Rows)
    requires Settled(d, rows)
    ensures Safe(d, rows)
  {
  }

  lemma {:induction false} NotItsReplacement(p: Path)
    ensures Replacement(p) != p
  {
    match p
    case Replacement(q) => NotItsReplacement(q);
    case _ =>
  }

  lemma RowsStayIn(before: Disk, after: Disk, source: Path)
    requires source in before ==> source in after && after[source] == before[source]
    requires source !in before ==> source !in after
    ensures RowsIn(after, source) == RowsIn(before, source)
  {
  }

  lemma RebuildingSteps(d: Disk, source: Path, marker: Path)
    ensures
      var (r, rows) := (Replacement(source), RowsIn(d, source));
      var begun := (d - {r})[r := Database(Healthy, map[], UNSTARTED)];
      var written := begun[r := Database(Healthy, rows, UNSTARTED)][r := Database(Healthy, rows, RECOVERY_REBUILT)];
      (written - {Db} - {r})[Db := written[r]] - {marker} == RebuiltFrom(d, source, marker)
  {
  }

  lemma SetReplacement(d: Disk, marker: Path, source: Path, rows: Rows, f: File)
    requires Rebuilding(d, marker, source, rows)
    requires f.Database? && (Completed(f) ==> f.rows == rows)
    ensures Rebuilding(d[Replacement(source) := f], marker, source, rows)
    ensures Safe(d[Replacement(source) := f], rows)
  {
    var d' := d[Replacement(source) := f];
    assert Replacement(source) != source && Replacement(source) != marker;
    assert Recovering(d', marker, rows);
  }

  lemma DropReplacement(d: Disk, marker: Path, source: Path, rows: Rows)
    requires Rebuilding(d, marker, source, rows)
    ensures Rebuilding(d - {Replacement(source)}, marker, source, rows)
    ensures Safe(d - {Replacement(source)}, rows)
  {
    assert Recovering(d - {Replacement(source)}, marker, rows);
  }

  /** Once the replacement is complete, the database may go and the replacement take its name. */
  lemma ReplacementCompleted(d: Disk, marker: Path, source: Path, rows: Rows)
    requires Rebuilding(d, marker, source, rows)
    requires HoldsRows(d, Replacement(source), rows) && Completed(d[Replacement(source)])
    ensures Safe(d - {Db}, rows)
    ensures
      var d' := (d - {Db} - {Replacement(source)})[Db := d[Replacement(source)]];
      Safe(d', rows) && WellFormed(d') && OnlyMarker(d', marker) && HoldsRows(d', Db, rows)
  {
    var d1 := d - {Db};
    var d2 := (d1 - {Replacement(source)})[Db := d[Replacement(source)]];
    assert Replacement(source) != Db && Replacement(source) != marker && Replacement(source) != marker.path;
    assert Recovering(d1, marker, rows);
    assert Recovering(d2, marker, rows);
  }

  lemma InstallKeepsRecovering(d: Disk, marker: Path, rows: Rows)
    requires Recovering(d, marker, rows) && Db !in d
    requires Replacement(marker.path) in d && Installable(d[Replacement(marker.path)])
    ensures
      var d' := (d - {Replacement(marker.path)})[Db := d[Replacement(marker.path)]];
      Recovering(d', marker, rows) && HoldsRows(d', Db, rows) && d'[Db].health.Healthy?
  {
  }

  lemma MarkerCanGo(d: Disk, marker: Path, rows: Rows)
    requires WellFormed(d) && OnlyMarker(d, marker) && HoldsRows(d, Db, rows)
    ensures Settled(d - {marker}, rows)
    ensures d[Db].health.Healthy? ==> Clean(d - {marker}, rows)
  {
  }
}
