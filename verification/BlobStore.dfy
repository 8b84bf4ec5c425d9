/** The conversation blob store: writes, the bounded memory of recent writes, and the sweep of what nothing needs. */
module BlobStore {
  import opened BlobGc
  import opened Options
  import opened Sets

  const MAX_TRACKED_RECENT_WRITES := 16_384
  const VACUUM_MIN_DELETED_BYTES := 64 * 1024 * 1024

  // Recent writes ------------------------------------------------------------------------------------------------

  datatype Write = Write(id: HexId, ms: int)

  /** When `id` was last written, in a history of writes. */
  ghost function LastWrite(history: seq<Write>, id: HexId): Option<int> {
    if history == [] then None
    else
      var last := history[|history| - 1];
      if last.id == id then Some(last.ms) else LastWrite(history[..|history| - 1], id)
  }

  /** The other ids written since `id` was last written. */
  ghost function WrittenSince(history: seq<Write>, id: HexId): set<HexId> {
    if history == [] || history[|history| - 1].id == id then {}
    else WrittenSince(history[..|history| - 1], id) + {history[|history| - 1].id}
  }

  lemma HistoryStep(history: seq<Write>, w: Write, id: HexId)
    ensures LastWrite(history + [w], id) == if w.id == id then Some(w.ms) else LastWrite(history, id)
    ensures WrittenSince(history + [w], id) == if w.id == id then {} else WrittenSince(history, id) + {w.id}
  {
    assert (history + [w])[..|history|] == history;
  }

  ghost predicate NoDuplicates(order: seq<HexId>) {
    forall i, j :: 0 <= i < j < |order| ==> order[i] != order[j]
  }

  lemma {:induction false} DistinctSize(order: seq<HexId>)
    requires NoDuplicates(order)
    ensures |Elements(order)| == |order|
  {
    if order != [] {
      DistinctSize(order[1..]);
      assert Elements(order) == {order[0]} + Elements(order[1..]);
    }
  }

  /** `id`, somewhere in the order, was last written at its time, and what follows it was written since. */
  ghost predicate TracksAt(order: seq<HexId>, ms: map<HexId, int>, history: seq<Write>, i: int)
    requires 0 <= i < |order|
  {
    && order[i] in ms
    && LastWrite(history, order[i]) == Some(ms[order[i]])
    && WrittenSince(history, order[i]) == Elements(order[i + 1..])
  }

  /** The order (oldest first) holds ids by last write; what it has dropped was pushed out by `limit` others. */
  ghost predicate Tracks(order: seq<HexId>, ms: map<HexId, int>, history: seq<Write>, limit: nat) {
    && NoDuplicates(order)
    && ms.Keys == Elements(order)
    && (forall i :: 0 <= i < |order| ==> TracksAt(order, ms, history, i))
    && (forall id :: id !in ms && LastWrite(history, id).Some? ==> |WrittenSince(history, id)| >= limit)
  }

  /** An id is remembered exactly when fewer than `limit` other ids have been written since. */
  lemma RememberedIff(order: seq<HexId>, ms: map<HexId, int>, history: seq<Write>, limit: nat, id: HexId)
    requires Tracks(order, ms, history, limit) && |order| <= limit
    ensures id in ms <==> LastWrite(history, id).Some? && |WrittenSince(history, id)| < limit
    ensures id in ms ==> LastWrite(history, id) == Some(ms[id])
  {
    if id in ms {
      var i :| 0 <= i < |order| && order[i] == id;
      assert TracksAt(order, ms, history, i);
      DistinctSize(order[i + 1..]);
    }
  }

  function IndexOf(order: seq<HexId>, id: HexId): (i: int)
    requires id in order
    ensures 0 <= i < |order| && order[i] == id
  {
    if order[0] == id then 0 else 1 + IndexOf(order[1..], id)
  }

  function Without(order: seq<HexId>, id: HexId): seq<HexId> {
    if id in order then order[..IndexOf(order, id)] + order[IndexOf(order, id) + 1..] else order
  }

  /** Writing moves an id to the end. */
  lemma TouchTracks(order: seq<HexId>, ms: map<HexId, int>, history: seq<Write>, limit: nat, w: Write)
    requires Tracks(order, ms, history, limit)
    ensures Tracks(Without(order, w.id) + [w.id], (ms - {w.id})[w.id := w.ms], history + [w], limit)
    ensures |Without(order, w.id)| <= |order|
  {
    hide WrittenSince, LastWrite, IndexOf;
    var order', ms', history' := Without(order, w.id) + [w.id], (ms - {w.id})[w.id := w.ms], history + [w];
    forall i | 0 <= i < |order'| ensures TracksAt(order', ms', history', i) {
      HistoryStep(history, w, order'[i]);
      if i == |order'| - 1 {
        assert order'[i + 1..] == [];
      } else {
        var k := TouchKeepsLater(order, w.id, i);
        assert TracksAt(order, ms, history, k);
      }
    }
    TouchElements(order, w.id);
    forall id | id !in ms' && LastWrite(history', id).Some? ensures |WrittenSince(history', id)| >= limit {
      HistoryStep(history, w, id);
      Grows(WrittenSince(history, id), w.id);
    }
  }

  lemma Grows(s: set<HexId>, id: HexId)
    ensures |s + {id}| >= |s|
  {
    if id in s {
      assert s + {id} == s;
    }
  }

  lemma TouchElements(order: seq<HexId>, id: HexId)
    requires NoDuplicates(order)
    ensures NoDuplicates(Without(order, id) + [id])
    ensures Elements(Without(order, id) + [id]) == Elements(order) + {id}
    ensures Elements(Without(order, id)) == Elements(order) - {id}
  {
    hide NoDuplicates;
    var kept := Without(order, id);
    if id in order {
      var j := IndexOf(order, id);
      assert order == order[..j] + [id] + order[j + 1..];
      WithoutOne(order, id, j);
    }
    Appended(kept, id);
  }

  lemma WithoutOne(order: seq<HexId>, id: HexId, j: nat)
    requires NoDuplicates(order) && j < |order| && order[j] == id
    ensures NoDuplicates(order[..j] + order[j + 1..]) && id !in order[..j] + order[j + 1..]
  {
    var kept := order[..j] + order[j + 1..];
    assert forall i :: 0 <= i < |kept| ==> kept[i] == order[if i < j then i else i + 1];
  }

  lemma Appended(kept: seq<HexId>, id: HexId)
    requires NoDuplicates(kept) && id !in kept
    ensures NoDuplicates(kept + [id])
  {
  }

  lemma LaterBefore(order: seq<HexId>, id: HexId, i: nat, j: nat)
    requires NoDuplicates(order) && i < j < |order| && order[j] == id
    ensures
      var order' := order[..j] + order[j + 1..] + [id];
      order[i] == order'[i] && order[i] != id && Elements(order'[i + 1..]) == Elements(order[i + 1..]) + {id}
  {
    var before, after := order[i + 1..j], order[j + 1..];
    assert (order[..j] + order[j + 1..] + [id])[i + 1..] == before + after + [id];
    assert order[i + 1..] == before + [id] + after;
  }

  lemma LaterAfter(order: seq<HexId>, id: HexId, i: nat, j: nat)
    requires NoDuplicates(order) && j <= i < |order| - 1 && order[j] == id
    ensures
      var order' := order[..j] + order[j + 1..] + [id];
      order[i + 1] == order'[i] && order[i + 1] != id && Elements(order'[i + 1..]) == Elements(order[i + 2..]) + {id}
  {
    assert (order[..j] + order[j + 1..] + [id])[i + 1..] == order[i + 2..] + [id];
  }

  lemma LaterAtAll(order: seq<HexId>, id: HexId, i: nat)
    requires id !in order && i < |order|
    ensures
      var order' := order + [id];
      order[i] == order'[i] && order[i] != id && Elements(order'[i + 1..]) == Elements(order[i + 1..]) + {id}
  {
    assert (order + [id])[i + 1..] == order[i + 1..] + [id];
  }

  /** An id that stays in the order keeps what came after it, now with the touched id at the end. */
  lemma TouchKeepsLater(order: seq<HexId>, id: HexId, i: int) returns (k: int)
    requires NoDuplicates(order) && 0 <= i < |Without(order, id)|
    ensures 0 <= k < |order| && order[k] == (Without(order, id) + [id])[i] && order[k] != id
    ensures Elements((Without(order, id) + [id])[i + 1..]) == Elements(order[k + 1..]) + {id}
  {
    hide Elements, NoDuplicates;
    if id in order {
      var j := IndexOf(order, id);
      if i < j {
        k := i;
        LaterBefore(order, id, i, j);
      } else {
        k := i + 1;
        LaterAfter(order, id, i, j);
      }
    } else {
      k := i;
      LaterAtAll(order, id, i);
    }
  }

  /** Dropping the oldest of more than `limit` ids. */
  lemma DropOldestTracks(order: seq<HexId>, ms: map<HexId, int>, history: seq<Write>, limit: nat)
    requires Tracks(order, ms, history, limit) && |order| > limit
    ensures Tracks(order[1..], ms - {order[0]}, history, limit)
  {
    hide WrittenSince, LastWrite, NoDuplicates, Elements;
    var order', ms' := order[1..], ms - {order[0]};
    DropsTheOldest(order);
    forall i | 0 <= i < |order'| ensures TracksAt(order', ms', history, i) {
      assert TracksAt(order, ms, history, i + 1);
      assert order'[i + 1..] == order[i + 2..];
      NotTheOldest(order, i + 1);
    }
    assert TracksAt(order, ms, history, 0);
    DistinctSize(order');
  }

  lemma DropsTheOldest(order: seq<HexId>)
    requires NoDuplicates(order) && order != []
    ensures NoDuplicates(order[1..]) && Elements(order[1..]) == Elements(order) - {order[0]}
  {
    assert order == [order[0]] + order[1..];
  }

  lemma NotTheOldest(order: seq<HexId>, i: nat)
    requires NoDuplicates(order) && 0 < i < |order|
    ensures order[i] != order[0]
  {
  }

  // Sizes --------------------------------------------------------------------------------------------------------

  ghost function BytesOf(blobs: map<HexId, Bytes>, ids: set<HexId>): nat
    requires ids <= blobs.Keys
    decreases |ids|
  {
    if ids == {} then 0
    else
      var id :| id in ids;
      |blobs[id]| + BytesOf(blobs, ids - {id})
  }

  lemma NoBytes(blobs: map<HexId, Bytes>)
    ensures BytesOf(blobs, {}) == 0
  {
  }

  lemma {:induction false} BytesWithout(blobs: map<HexId, Bytes>, ids: set<HexId>, id: HexId)
    requires ids <= blobs.Keys && id in ids
    ensures BytesOf(blobs, ids) == |blobs[id]| + BytesOf(blobs, ids - {id})
    decreases |ids|
  {
    var first :| first in ids && BytesOf(blobs, ids) == |blobs[first]| + BytesOf(blobs, ids - {first});
    if first != id {
      BytesWithout(blobs, ids - {first}, id);
      BytesWithout(blobs, ids - {id}, first);
      assert ids - {first} - {id} == ids - {id} - {first};
    }
  }

  lemma BytesWith(blobs: map<HexId, Bytes>, ids: set<HexId>, id: HexId)
    requires ids <= blobs.Keys && id in blobs && id !in ids
    ensures BytesOf(blobs, ids + {id}) == BytesOf(blobs, ids) + |blobs[id]|
  {
    BytesWithout(blobs, ids + {id}, id);
    assert ids + {id} - {id} == ids;
  }

  lemma {:induction false} BytesOfUnion(blobs: map<HexId, Bytes>, a: set<HexId>, b: set<HexId>)
    requires a + b <= blobs.Keys && a !! b
    ensures BytesOf(blobs, a + b) == BytesOf(blobs, a) + BytesOf(blobs, b)
    decreases |a|
  {
    if a == {} {
      assert a + b == b;
    } else {
      var id :| id in a;
      BytesOfUnion(blobs, a - {id}, b);
      BytesWithout(blobs, a, id);
      BytesWithout(blobs, a + b, id);
      assert a + b - {id} == (a - {id}) + b;
    }
  }

  lemma {:induction false} BytesOfSame(blobs: map<HexId, Bytes>, blobs': map<HexId, Bytes>, ids: set<HexId>)
    requires ids <= blobs.Keys && ids <= blobs'.Keys && forall id :: id in ids ==> blobs[id] == blobs'[id]
    ensures BytesOf(blobs, ids) == BytesOf(blobs', ids)
    decreases |ids|
  {
    if ids != {} {
      var id :| id in ids;
      BytesOfSame(blobs, blobs', ids - {id});
      BytesWithout(blobs, ids, id);
      BytesWithout(blobs', ids, id);
    }
  }

  ghost function TotalBytes(blobs: map<HexId, Bytes>): nat { BytesOf(blobs, blobs.Keys) }

  // The sweep ----------------------------------------------------------------------------------------------------

  datatype SkipReason = NoRoot | RootUndecodable | UnresolvedRefs(count: nat)

  datatype GcOutcome =
    | Skipped(reason: SkipReason)
    | Collected(deletedRows: nat, deletedBytes: nat, liveRows: nat, liveBytes: nat, retainedPendingRows: nat,
      vacuumed: bool)
    | RolledBack

  predicate Shielded(recentMs: map<HexId, int>, floor: int, id: HexId) {
    id in recentMs && recentMs[id] > floor
  }

  predicate Kept(root: HexId, reachable: set<HexId>, recentMs: map<HexId, int>, floor: int, id: HexId) {
    id == root || id in reachable || Shielded(recentMs, floor, id)
  }

  function Sweep(blobs: map<HexId, Bytes>, root: HexId, reachable: set<HexId>, recentMs: map<HexId, int>, floor: int):
      (swept: map<HexId, Bytes>)
    ensures forall id :: id in swept <==> id in blobs && Kept(root, reachable, recentMs, floor, id)
    ensures forall id :: id in swept ==> swept[id] == blobs[id]
  {
    map id | id in blobs && Kept(root, reachable, recentMs, floor, id) :: blobs[id]
  }

  /** Rows that only their recent write keeps. */
  function Pending(ids: set<HexId>, root: HexId, reachable: set<HexId>): set<HexId> {
    set id | id in ids && id != root && id !in reachable
  }

  /** The scan so far: the rows that are not still to come are split into live and dead. */
  ghost predicate Scanned(blobs: map<HexId, Bytes>, keep: set<HexId>, rows: set<HexId>, live: set<HexId>,
      dead: set<HexId>) {
    live + dead == blobs.Keys - rows && live <= keep && dead !! keep
  }

  lemma ScanRow(blobs: map<HexId, Bytes>, keep: set<HexId>, rows: set<HexId>, live: set<HexId>, dead: set<HexId>,
      id: HexId)
    requires Scanned(blobs, keep, rows, live, dead) && id in rows && rows <= blobs.Keys
    ensures id !in live && id !in dead
    ensures id in keep ==> Scanned(blobs, keep, rows - {id}, live + {id}, dead)
    ensures id !in keep ==> Scanned(blobs, keep, rows - {id}, live, dead + {id})
  {
    assert blobs.Keys - (rows - {id}) == (blobs.Keys - rows) + {id};
  }

  /** What the root says, if it is there and decodes. */
  function RootMessage(s: Store, root: HexId): Option<Message> {
    if root in s.blobs then s.decode(ROOT_TYPE, s.blobs[root]) else None
  }

  /** The ids that were marked as a message type and are missing or do not decode. */
  function UnresolvedFrom(s: Store, root: HexId): set<HexId>
    requires RootMessage(s, root).Some?
  {
    Unresolved(s, Mark(s, RootMessage(s, root).value))
  }

  /** A collection may delete something: everything it would follow is there. */
  predicate IsComplete(s: Store, root: HexId) { RootMessage(s, root).Some? && UnresolvedFrom(s, root) == {} }

  function MarkedIds(s: Store, root: HexId): set<HexId>
    requires RootMessage(s, root).Some?
  {
    Mark(s, RootMessage(s, root).value).reachedAs.Keys
  }

  lemma ScanTotals(blobs: map<HexId, Bytes>, swept: map<HexId, Bytes>, live: set<HexId>, dead: set<HexId>)
    requires Scanned(blobs, swept.Keys, {}, live, dead)
    requires swept.Keys <= blobs.Keys && forall id :: id in swept ==> swept[id] == blobs[id]
    ensures blobs - dead == swept && live == swept.Keys
    ensures |dead| + |live| == |blobs|
    ensures BytesOf(blobs, dead) + BytesOf(blobs, live) == TotalBytes(blobs)
    ensures BytesOf(blobs, live) == TotalBytes(swept)
  {
    hide BytesOf;
    assert dead + live == blobs.Keys && dead !! live;
    assert |dead + live| == |dead| + |live|;
    BytesOfUnion(blobs, dead, live);
    BytesOfSame(blobs, swept, live);
  }

  datatype Scan = Scan(deletedRows: nat, deletedBytes: nat, liveRows: nat, liveBytes: nat, retainedPendingRows: nat) {
    function Delete(len: nat): Scan {
      this.(deletedRows := deletedRows + 1, deletedBytes := deletedBytes + len)
    }

    function Keep(len: nat, pending: bool): Scan {
      this.(liveRows := liveRows + 1, liveBytes := liveBytes + len,
            retainedPendingRows := retainedPendingRows + if pending then 1 else 0)
    }
  }

  ghost predicate ScanOf(scan: Scan, blobs: map<HexId, Bytes>, swept: map<HexId, Bytes>, root: HexId,
      reachable: set<HexId>) {
    && scan.liveRows == |swept| && scan.liveBytes == TotalBytes(swept)
    && scan.deletedRows + scan.liveRows == |blobs|
    && scan.deletedBytes + scan.liveBytes == TotalBytes(blobs)
    && scan.retainedPendingRows == |Pending(swept.Keys, root, reachable)|
  }

  ghost predicate IsSwept(s: Store, after: map<HexId, Bytes>, root: HexId, recentMs: map<HexId, int>, floor: int)
    requires RootMessage(s, root).Some?
  {
    after == Sweep(s.blobs, root, MarkedIds(s, root), recentMs, floor)
  }

  /** What a collection reports: live and deleted rows and bytes add up to what there was. */
  ghost predicate AddsUp(out: GcOutcome, before: map<HexId, Bytes>, after: map<HexId, Bytes>, root: HexId,
      reachable: set<HexId>)
    requires out.Collected?
  {
    && out.liveRows == |after| && out.liveBytes == TotalBytes(after)
    && out.deletedRows + out.liveRows == |before|
    && out.deletedBytes + out.liveBytes == TotalBytes(before)
    && out.retainedPendingRows == |Pending(after.Keys, root, reachable)|
    && out.vacuumed == (out.deletedBytes >= 67_108_864 ||
                        (out.deletedBytes > 0 && 8 * out.deletedBytes >= TotalBytes(before)))
  }

  lemma SweptSo(s: Store, after: map<HexId, Bytes>, root: HexId, recentMs: map<HexId, int>, floor: int)
    requires RootMessage(s, root).Some?
    requires after == Sweep(s.blobs, root, MarkedIds(s, root), recentMs, floor)
    ensures IsSwept(s, after, root, recentMs, floor)
  {
  }

  lemma Figures(scan: Scan, blobs: map<HexId, Bytes>, swept: map<HexId, Bytes>, root: HexId, reachable: set<HexId>)
    requires ScanOf(scan, blobs, swept, root, reachable)
    ensures
      var vacuumed := scan.deletedBytes >= VACUUM_MIN_DELETED_BYTES ||
        (scan.deletedBytes > 0 && 8 * scan.deletedBytes >= scan.deletedBytes + scan.liveBytes);
      AddsUp(Collected(scan.deletedRows, scan.deletedBytes, scan.liveRows, scan.liveBytes, scan.retainedPendingRows,
        vacuumed),
             blobs, swept, root, reachable)
  {
  }

  lemma WithoutNone(blobs: map<HexId, Bytes>)
    ensures blobs - {} == blobs
  {
  }

  /** The counts and sizes of the rows scanned so far. */
  ghost predicate Tallied(scan: Scan, blobs: map<HexId, Bytes>, root: HexId, reachable: set<HexId>, live: set<HexId>,
      dead: set<HexId>)
  {
    && live + dead <= blobs.Keys
    && scan.deletedRows == |dead| && scan.deletedBytes == BytesOf(blobs, dead)
    && scan.liveRows == |live| && scan.liveBytes == BytesOf(blobs, live)
    && scan.retainedPendingRows == |Pending(live, root, reachable)|
  }

  lemma TallyLive(scan: Scan, blobs: map<HexId, Bytes>, root: HexId, reachable: set<HexId>, live: set<HexId>,
      dead: set<HexId>, id: HexId)
    requires id in blobs && id !in live
    requires Tallied(scan, blobs, root, reachable, live, dead)
    ensures Tallied(scan.Keep(|blobs[id]|, id != root && id !in reachable), blobs, root, reachable, live + {id}, dead)
  {
    hide BytesOf, Pending;
    BytesWith(blobs, live, id);
    PendingWith(live, root, reachable, id);
  }

  lemma PendingWith(live: set<HexId>, root: HexId, reachable: set<HexId>, id: HexId)
    requires id !in live
    ensures |Pending(live + {id}, root, reachable)| ==
      |Pending(live, root, reachable)| + if id == root || id in reachable then 0 else 1
  {
    assert Pending(live + {id}, root, reachable) ==
           Pending(live, root, reachable) + if id == root || id in reachable then {} else {id};
  }

  lemma TallyDead(scan: Scan, blobs: map<HexId, Bytes>, root: HexId, reachable: set<HexId>, live: set<HexId>,
      dead: set<HexId>, id: HexId)
    requires id in blobs && id !in dead
    requires Tallied(scan, blobs, root, reachable, live, dead)
    ensures Tallied(scan.Delete(|blobs[id]|), blobs, root, reachable, live, dead + {id})
  {
    hide BytesOf;
    BytesWith(blobs, dead, id);
  }

  /** Goes through the rows in whatever order the database gives them. */
  method ScanRows(blobs: map<HexId, Bytes>, root: HexId, reachableHexIds: set<HexId>, recentMs: map<HexId, int>,
      floor: int)
      returns (deletable: set<HexId>, scan: Scan)
    ensures blobs - deletable == Sweep(blobs, root, reachableHexIds, recentMs, floor)
    ensures deletable <= blobs.Keys
    ensures ScanOf(scan, blobs, blobs - deletable, root, reachableHexIds)
  {
    hide BytesOf, Pending, Sweep, Scanned, Tallied, Scan.Keep, Scan.Delete;
    ghost var swept := Sweep(blobs, root, reachableHexIds, recentMs, floor);
    deletable, scan := {}, Scan(0, 0, 0, 0, 0);
    var rows := blobs.Keys;
    ghost var live: set<HexId> := {};
    NothingScanned(blobs, swept.Keys, root, reachableHexIds);
    while rows != {}
      invariant rows <= blobs.Keys && Scanned(blobs, swept.Keys, rows, live, deletable)
      invariant Tallied(scan, blobs, root, reachableHexIds, live, deletable)
      decreases |rows|
    {
      ghost var some := Pick(rows);
      var id :| id in rows;
      var len := |blobs[id]|;
      ScanRow(blobs, swept.Keys, rows, live, deletable, id);
      if id == root || id in reachableHexIds {
        TallyLive(scan, blobs, root, reachableHexIds, live, deletable, id);
        scan := scan.Keep(len, false);
        live := live + {id};
      } else if id in recentMs && recentMs[id] > floor {
        TallyLive(scan, blobs, root, reachableHexIds, live, deletable, id);
        scan := scan.Keep(len, true);
        live := live + {id};
      } else {
        TallyDead(scan, blobs, root, reachableHexIds, live, deletable, id);
        deletable := deletable + {id};
        scan := scan.Delete(len);
      }
      rows := rows - {id};
    }
    ScanTotals(blobs, swept, live, deletable);
    TallyTotals(scan, blobs, swept, root, reachableHexIds, live, deletable);
  }

  lemma NothingScanned(blobs: map<HexId, Bytes>, keep: set<HexId>, root: HexId, reachable: set<HexId>)
    ensures Scanned(blobs, keep, blobs.Keys, {}, {})
    ensures Tallied(Scan(0, 0, 0, 0, 0), blobs, root, reachable, {}, {})
  {
    assert Pending({}, root, reachable) == {};
  }

  lemma TallyTotals(scan: Scan, blobs: map<HexId, Bytes>, swept: map<HexId, Bytes>, root: HexId, reachable: set<HexId>,
      live: set<HexId>, dead: set<HexId>)
    requires live == swept.Keys && Tallied(scan, blobs, root, reachable, live, dead)
    requires |dead| + |live| == |blobs|
    requires BytesOf(blobs, dead) + BytesOf(blobs, live) == TotalBytes(blobs) &&
      BytesOf(blobs, live) == TotalBytes(swept)
    ensures ScanOf(scan, blobs, swept, root, reachable)
  {
    assert |live| == |swept|;
  }

  lemma CountIsOfUnresolved(s: Store, message: Message)
    ensures Mark(s, message).unresolved == |Unresolved(s, Mark(s, message))|
  {
    hide Visit, MessageRefs;
    VisitCountsUnresolved(s, Walk(map[], 0), MessageRefs(message));
  }

  class ConversationBlobStoreDb {
    const isProtoType: string -> bool
    const decode: (string, Bytes) -> Option<Message>
    var blobs: map<HexId, Bytes>
    var recentOrder: seq<HexId>
    var recentMs: map<HexId, int>
    var isClosed: bool
    ghost var history: seq<Write>

    ghost predicate Valid() reads this {
      Tracks(recentOrder, recentMs, history, MAX_TRACKED_RECENT_WRITES) && |recentOrder| <= MAX_TRACKED_RECENT_WRITES
    }

    function Blobs(): Store reads this { Store(blobs, isProtoType, decode) }

    constructor (rows: map<HexId, Bytes>, isProtoType: string -> bool, decode: (string, Bytes) -> Option<Message>)
      ensures Valid() && !isClosed && blobs == rows && history == []
      ensures this.isProtoType == isProtoType && this.decode == decode
    {
      this.isProtoType := isProtoType;
      this.decode := decode;
      blobs := rows;
      recentOrder := [];
      recentMs := map[];
      isClosed := false;
      history := [];
    }

    method SetBlob(id: HexId, data: Bytes, nowMs: int)
      requires Valid()
      modifies this
      ensures Valid() && isClosed == old(isClosed)
      ensures isClosed ==> blobs == old(blobs) && history == old(history)
      ensures !isClosed ==> blobs == old(blobs)[id := data] && history == old(history) + [Write(id, nowMs)]
    {
      hide Tracks, Without;
      if isClosed {
        return;
      }
      blobs := blobs[id := data];
      TouchTracks(recentOrder, recentMs, history, MAX_TRACKED_RECENT_WRITES, Write(id, nowMs));
      recentOrder := Without(recentOrder, id) + [id];
      recentMs := (recentMs - {id})[id := nowMs];
      history := history + [Write(id, nowMs)];
      while |recentOrder| > MAX_TRACKED_RECENT_WRITES
        invariant Tracks(recentOrder, recentMs, history, MAX_TRACKED_RECENT_WRITES)
        invariant isClosed == old(isClosed) && blobs == old(blobs)[id := data] &&
          history == old(history) + [Write(id, nowMs)]
        decreases |recentOrder|
      {
        DropOldestTracks(recentOrder, recentMs, history, MAX_TRACKED_RECENT_WRITES);
        var oldest := recentOrder[0];
        recentOrder := recentOrder[1..];
        recentMs := recentMs - {oldest};
      }
    }

    method GetBlob(id: HexId) returns (data: Option<Bytes>)
      ensures data == if isClosed || id !in blobs then None else Some(blobs[id])
    {
      data := if isClosed || id !in blobs then None else Some(blobs[id]);
    }

    method ClearBlobs()
      requires Valid()
      modifies this`blobs
      ensures Valid() && blobs == if isClosed then old(blobs) else map[]
    {
      if !isClosed {
        blobs := map[];
      }
    }

    method Close()
      requires Valid()
      modifies this`isClosed
      ensures Valid() && isClosed
    {
      isClosed := true;
    }

    /** Deletes what is neither reachable from the root nor shielded by a recent write. `commits` says whether the
        database lets the deletion go through; when it does not, the transaction is rolled back. */
    method CollectGarbage(root: HexId, pendingWriteRetentionMs: int, nowMs: int, commits: bool) returns (out: GcOutcome)
      requires Valid()
      modifies this`blobs
      ensures Valid()
      ensures out.Skipped? || out.RolledBack? ==> blobs == old(blobs)
      ensures isClosed || root !in old(blobs) ==> out == Skipped(NoRoot)
      ensures !isClosed && root in old(blobs) && decode(ROOT_TYPE, old(blobs)[root]).None? ==>
        out == Skipped(RootUndecodable)
      ensures !isClosed && RootMessage(old(Blobs()), root).Some? && UnresolvedFrom(old(Blobs()), root) != {} ==>
        out == Skipped(UnresolvedRefs(|UnresolvedFrom(old(Blobs()), root)|))
      ensures out == Skipped(NoRoot) ==> isClosed || root !in old(blobs)
      ensures out == Skipped(RootUndecodable) ==> root in old(blobs) && decode(ROOT_TYPE, old(blobs)[root]).None?
      ensures out.Skipped? && out.reason.UnresolvedRefs? ==> out.reason.count > 0
      ensures !isClosed && IsComplete(old(Blobs()), root) ==> out.Collected? || out.RolledBack?
      ensures out.RolledBack? ==>
        !commits && IsComplete(Blobs(), root) &&
        Sweep(blobs, root, MarkedIds(Blobs(), root), recentMs, nowMs - pendingWriteRetentionMs) != blobs
      ensures out.Collected? && !commits ==> blobs == old(blobs)
      ensures out.Collected? ==>
        && !isClosed && IsComplete(old(Blobs()), root)
        && IsSwept(old(Blobs()), blobs, root, recentMs, nowMs - pendingWriteRetentionMs)
        && AddsUp(out, old(blobs), blobs, root, MarkedIds(old(Blobs()), root))
    {
      hide Mark, Unresolved, Tracks, BytesOf, Pending, MessageRefs, Visit, Sweep, TotalBytes, ScanOf, AddsUp, IsSwept;
      if isClosed || root !in blobs {
        return Skipped(NoRoot);
      }
      var walk := CollectReachableBlobHexIds(Blobs(), blobs[root]);
      if walk.None? {
        return Skipped(RootUndecodable);
      }
      var (reachableHexIds, unresolved) := walk.value;
      CountIsOfUnresolved(Blobs(), RootMessage(Blobs(), root).value);
      if unresolved > 0 {
        return Skipped(UnresolvedRefs(unresolved));
      }
      ghost var marked := MarkedIds(Blobs(), root);
      assert reachableHexIds == marked;
      var floor := nowMs - pendingWriteRetentionMs;
      ghost var swept := Sweep(blobs, root, marked, recentMs, floor);
      var deletable, scan := ScanRows(blobs, root, reachableHexIds, recentMs, floor);
      WithoutNone(blobs);
      Figures(scan, blobs, blobs - deletable, root, reachableHexIds);
      if deletable != {} {
        if !commits {
          return RolledBack;
        }
        blobs := blobs - deletable;
      }
      SweptSo(old(Blobs()), blobs, root, recentMs, floor);
      var vacuumed := scan.deletedBytes >= VACUUM_MIN_DELETED_BYTES ||
        (scan.deletedBytes > 0 && 8 * scan.deletedBytes >= scan.deletedBytes + scan.liveBytes);
      out := Collected(scan.deletedRows, scan.deletedBytes, scan.liveRows, scan.liveBytes, scan.retainedPendingRows,
        vacuumed);
    }
  }

  // What a collection amounts to ---------------------------------------------------------------------------------

  /** Written after the floor, with fewer than the tracked number of other ids written since. */
  ghost predicate RecentlyWritten(history: seq<Write>, floor: int, id: HexId) {
    && LastWrite(history, id).Some? && LastWrite(history, id).value > floor
    && |WrittenSince(history, id)| < 16_384
  }

  /** The sweep keeps exactly the root, what is reachable from it, and what was written recently. */
  lemma SweepIsExact(s: Store, root: HexId, order: seq<HexId>, recentMs: map<HexId, int>, history: seq<Write>,
      floor: int)
    requires IsComplete(s, root)
    requires SameChildrenEach(s, MessageRefs(RootMessage(s, root).value))
    requires Tracks(order, recentMs, history, MAX_TRACKED_RECENT_WRITES) && |order| <= MAX_TRACKED_RECENT_WRITES
    ensures
      var roots := MessageRefs(RootMessage(s, root).value);
      var swept := Sweep(s.blobs, root, MarkedIds(s, root), recentMs, floor);
      && (forall id :: id in swept <==>
            id in s.blobs &&
            (id == root || (exists k :: Reachable(s, roots, Ref(id, k))) || RecentlyWritten(history, floor, id)))
      && (forall id :: id in swept ==> swept[id] == s.blobs[id])
  {
    hide Mark, MessageRefs, Tracks, LastWrite, WrittenSince, Reachable;
    MarkIsExact(s, RootMessage(s, root).value);
    forall id ensures Shielded(recentMs, floor, id) <==> RecentlyWritten(history, floor, id) {
      RememberedIff(order, recentMs, history, MAX_TRACKED_RECENT_WRITES, id);
    }
  }

  /** Collecting again at the same floor finds the same root, is not blocked, and deletes nothing. */
  lemma SecondSweepDeletesNothing(s: Store, root: HexId, recentMs: map<HexId, int>, floor: int)
    requires IsComplete(s, root)
    ensures
      var s' := s.(blobs := Sweep(s.blobs, root, MarkedIds(s, root), recentMs, floor));
      && IsComplete(s', root)
      && Sweep(s'.blobs, root, MarkedIds(s', root), recentMs, floor) == s'.blobs
  {
    hide Visit, MessageRefs, Target;
    var s' := s.(blobs := Sweep(s.blobs, root, MarkedIds(s, root), recentMs, floor));
    var message := RootMessage(s, root).value;
    VisitDependsOnReached(s, s', Walk(map[], 0), MessageRefs(message));
    assert Mark(s', message) == Mark(s, message);
  }
}
