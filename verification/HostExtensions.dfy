/** Host extensions: the order they are started in, the cycle named when there is no such order, and the teardowns. */
module HostExtensions {

  import opened Options
  import opened Sets

  // Ids and their order ----------------------------------------------------------------------------------------------

  type CodeUnit = x: int | 0 <= x < 0x1_0000

  /** Strings as JavaScript compares them: by UTF-16 code units. */
  type Id = seq<CodeUnit>

  predicate Less(a: Id, b: Id) {
    b != [] && (a == [] || a[0] < b[0] || (a[0] == b[0] && Less(a[1..], b[1..])))
  }

  lemma {:induction false} LessIsTotal(a: Id, b: Id)
    ensures Less(a, b) || Less(b, a) || a == b
    ensures !(Less(a, b) && Less(b, a)) && !Less(a, a)
  {
    if a != [] {
      LessIsTotal(a[1..], a[1..]);
      if b != [] {
        LessIsTotal(a[1..], b[1..]);
        assert a == [a[0]] + a[1..] && b == [b[0]] + b[1..];
      }
    }
  }

  lemma {:induction false} LessIsTransitive(a: Id, b: Id, c: Id)
    requires Less(a, b) && Less(b, c)
    ensures Less(a, c)
  {
    if a != [] && a[0] == b[0] == c[0] {
      LessIsTransitive(a[1..], b[1..], c[1..]);
    }
  }

  ghost predicate Ascending(ids: seq<Id>) {
    forall i, j :: 0 <= i < j < |ids| ==> Less(ids[i], ids[j])
  }

  function Insert(ids: seq<Id>, id: Id): seq<Id> {
    if ids == [] || Less(id, ids[0]) then [id] + ids else [ids[0]] + Insert(ids[1..], id)
  }

  lemma {:induction false} InsertKeepsAscending(ids: seq<Id>, id: Id)
    requires Ascending(ids) && id !in ids
    ensures Ascending(Insert(ids, id)) && Elements(Insert(ids, id)) == Elements(ids) + {id}
  {
    hide Less;
    if ids == [] {
    } else if Less(id, ids[0]) {
      forall j | 0 < j < |ids|
        ensures Less(id, ids[j])
      {
        LessIsTransitive(id, ids[0], ids[j]);
      }
    } else {
      LessIsTotal(id, ids[0]);
      InsertKeepsAscending(ids[1..], id);
      var tail := Insert(ids[1..], id);
      forall x | x in tail
        ensures Less(ids[0], x)
      {
        assert x in Elements(tail);
      }
      assert ids == [ids[0]] + ids[1..];
    }
  }

  /** The library's sort, on distinct ids. */
  method Sort(ids: set<Id>) returns (r: seq<Id>)
    ensures Ascending(r) && Elements(r) == ids
  {
    r := [];
    var left := ids;
    while left != {}
      invariant left <= ids && Ascending(r) && Elements(r) == ids - left
      decreases |left|
    {
      var id :| id in left;
      left := left - {id};
      InsertKeepsAscending(r, id);
      r := Insert(r, id);
    }
  }

  // The graph --------------------------------------------------------------------------------------------------------

  type Peers = map<Id, set<Id>>

  ghost predicate Closed(peers: Peers) { forall id :: id in peers ==> peers[id] <= peers.Keys }

  ghost predicate Walk(peers: Peers, walk: seq<Id>) {
    && (forall i :: 0 <= i < |walk| ==> walk[i] in peers)
    && (forall i :: 0 <= i < |walk| - 1 ==> walk[i + 1] in peers[walk[i]])
  }

  ghost predicate ClosedWalk(peers: Peers, walk: seq<Id>) {
    |walk| >= 2 && walk[0] == walk[|walk| - 1] && Walk(peers, walk)
  }

  ghost predicate Cyclic(peers: Peers) { exists walk :: ClosedWalk(peers, walk) }

  predicate IsReady(peers: Peers, started: set<Id>, id: Id)
    requires id in peers
  {
    peers[id] <= started
  }

  /** The one order of all ids that takes, each time, the least id whose peers have all been taken. */
  ghost predicate IsBootOrder(peers: Peers, order: seq<Id>) {
    Elements(order) == peers.Keys && IsBootPrefix(peers, order)
  }

  ghost predicate IsBootPrefix(peers: Peers, order: seq<Id>) {
    forall i :: 0 <= i < |order| ==> Next(peers, order[..i], order[i])
  }

  ghost predicate Next(peers: Peers, taken: seq<Id>, id: Id) {
    && id in peers && id !in taken && IsReady(peers, Elements(taken), id)
    && forall other :: other in peers && other !in taken && IsReady(peers, Elements(taken), other) ==>
      other == id || Less(id, other)
  }

  /** So the order has every id once, after all of its peers. */
  lemma PeersComeFirst(peers: Peers, order: seq<Id>, i: nat, peer: Id)
    requires IsBootOrder(peers, order) && i < |order| && peer in peers[order[i]]
    ensures exists j :: 0 <= j < i && order[j] == peer
    ensures forall j :: i <= j < |order| ==> order[j] != peer
  {
    hide IsBootOrder;
    NextInOrder(peers, order, i);
    var k := IndexIn(order[..i], peer);
    forall j | i <= j < |order|
      ensures order[j] != peer
    {
      if order[j] == peer {
        SamePosition(peers, order, k, j);
      }
    }
  }

  lemma IndexIn(ids: seq<Id>, id: Id) returns (k: nat)
    requires id in Elements(ids)
    ensures k < |ids| && ids[k] == id
  {
    k :| k < |ids| && ids[k] == id;
  }

  lemma NextInOrder(peers: Peers, order: seq<Id>, i: nat)
    requires IsBootOrder(peers, order) && i < |order|
    ensures order[i] in peers && order[i] !in order[..i] && IsReady(peers, Elements(order[..i]), order[i])
  {
    assert Next(peers, order[..i], order[i]);
  }

  lemma LeastInOrder(peers: Peers, order: seq<Id>, i: nat, id: Id)
    requires IsBootOrder(peers, order) && i < |order|
    requires id in peers && id !in order[..i] && IsReady(peers, Elements(order[..i]), id)
    ensures id == order[i] || Less(order[i], id)
  {
    assert Next(peers, order[..i], order[i]);
  }

  lemma {:induction false} SamePrefix(peers: Peers, a: seq<Id>, b: seq<Id>, n: nat)
    requires IsBootOrder(peers, a) && IsBootOrder(peers, b) && n <= |a| && n <= |b|
    ensures a[..n] == b[..n]
  {
    hide Less, IsBootOrder, IsReady, Elements;
    if n > 0 {
      SamePrefix(peers, a, b, n - 1);
      NextInOrder(peers, a, n - 1);
      NextInOrder(peers, b, n - 1);
      LeastInOrder(peers, a, n - 1, b[n - 1]);
      LeastInOrder(peers, b, n - 1, a[n - 1]);
      LessIsTotal(a[n - 1], b[n - 1]);
      assert a[..n] == a[..n - 1] + [a[n - 1]] && b[..n] == b[..n - 1] + [b[n - 1]];
    }
  }

  /** The order is determined by the peers alone. */
  lemma BootOrderIsUnique(peers: Peers, a: seq<Id>, b: seq<Id>)
    requires IsBootOrder(peers, a) && IsBootOrder(peers, b)
    ensures a == b
  {
    hide IsBootOrder;
    SameLength(peers, a);
    SameLength(peers, b);
    SamePrefix(peers, a, b, |a|);
    assert a[..|a|] == a && b[..|b|] == b;
  }

  lemma SameLength(peers: Peers, order: seq<Id>)
    requires IsBootOrder(peers, order)
    ensures |order| == |peers.Keys|
  {
    forall i | 0 <= i < |order|
      ensures order[i] !in order[..i]
    {
      NextInOrder(peers, order, i);
    }
    DistinctCount(order);
  }

  lemma {:induction false} DistinctCount(ids: seq<Id>)
    requires forall i :: 0 <= i < |ids| ==> ids[i] !in ids[..i]
    ensures |Elements(ids)| == |ids|
  {
    if ids != [] {
      var front := ids[..|ids| - 1];
      forall i | 0 <= i < |front|
        ensures front[i] !in front[..i]
      {
        assert front[..i] == ids[..i];
      }
      DistinctCount(front);
      assert ids == front + [ids[|ids| - 1]];
      assert Elements(ids) == Elements(front) + {ids[|ids| - 1]};
    }
  }

  /** Along a walk one goes down in the order, so no walk comes back. */
  lemma {:induction false} WalksDescend(peers: Peers, order: seq<Id>, walk: seq<Id>, p: nat) returns (q: nat)
    requires IsBootOrder(peers, order) && Walk(peers, walk) && walk != [] && p < |order| && order[p] == walk[0]
    ensures q < |order| && order[q] == walk[|walk| - 1] && (|walk| >= 2 ==> q < p)
    decreases |walk|
  {
    hide IsBootOrder;
    if |walk| == 1 {
      q := p;
    } else {
      PeersComeFirst(peers, order, p, walk[1]);
      var next :| 0 <= next < p && order[next] == walk[1];
      q := WalksDescend(peers, order, walk[1..], next);
    }
  }

  lemma SamePosition(peers: Peers, order: seq<Id>, p: nat, q: nat)
    requires IsBootOrder(peers, order) && p < |order| && q < |order| && order[p] == order[q]
    ensures p == q
  {
    hide IsBootOrder;
    NextInOrder(peers, order, p);
    NextInOrder(peers, order, q);
    if q < p {
      EarlierIn(order, q, p);
    } else if p < q {
      EarlierIn(order, p, q);
    }
  }

  lemma EarlierIn(ids: seq<Id>, i: nat, j: nat)
    requires i < j < |ids|
    ensures ids[i] in ids[..j]
  {
    assert ids[..j][i] == ids[i];
  }

  lemma OrderMeansAcyclic(peers: Peers, order: seq<Id>)
    requires IsBootOrder(peers, order)
    ensures !Cyclic(peers)
  {
    hide IsBootPrefix;
    if Cyclic(peers) {
      var walk :| ClosedWalk(peers, walk);
      assert walk[0] in Elements(order);
      var p :| 0 <= p < |order| && order[p] == walk[0];
      var q := WalksDescend(peers, order, walk, p);
      SamePosition(peers, order, p, q);
    }
  }

  // Naming a cycle ---------------------------------------------------------------------------------------------------

  /** The search from an id along peers that have not started, with the path it stands on. */
  class CycleSearch {
    const peersOf: Peers
    const started: set<Id>
    var onPath: seq<Id>

    ghost function Unstarted(): set<Id> { peersOf.Keys - started }

    ghost predicate Valid()
      reads this
    {
      && Closed(peersOf)
      && Walk(peersOf, onPath) && Elements(onPath) <= Unstarted()
      && (forall i :: 0 <= i < |onPath| ==> onPath[i] !in onPath[..i])
    }

    /** Every id that has not started waits for one that has not. */
    ghost predicate Stuck() {
      forall id :: id in Unstarted() ==> id in peersOf && peersOf[id] - started != {}
    }

    ghost predicate Cycle(walk: seq<Id>) { ClosedWalk(peersOf, walk) && Elements(walk) <= Unstarted() }

    constructor (peersOf: Peers, started: set<Id>)
      requires Closed(peersOf)
      ensures Valid() && onPath == [] && this.peersOf == peersOf && this.started == started
    {
      this.peersOf, this.started, onPath := peersOf, started, [];
    }

    /** A peer that is not on the path yet makes it longer; no path is longer than what has not started. */
    lemma PathGrows(id: Id)
      requires Valid() && id in Unstarted() && id !in onPath
      requires onPath != [] ==> id in peersOf[onPath[|onPath| - 1]]
      ensures
        var path := onPath + [id];
        && Walk(peersOf, path) && Elements(path) <= Unstarted() && |path| <= |Unstarted()|
        && (forall i :: 0 <= i < |path| ==> path[i] !in path[..i])
    {
      var path := onPath + [id];
      forall i | 0 <= i < |path|
        ensures path[i] !in path[..i]
      {
        assert path[..i] == onPath[..i];
      }
      DistinctCount(path);
      Subset(Elements(path), Unstarted());
    }

    method WalkFrom(id: Id) returns (cycle: Option<seq<Id>>)
      requires Valid() && id in Unstarted()
      requires onPath != [] ==> id in peersOf[onPath[|onPath| - 1]]
      modifies this
      ensures cycle.Some? ==> Cycle(cycle.value)
      ensures cycle.None? ==> onPath == old(onPath)
      ensures Stuck() ==> cycle.Some?
      decreases |Unstarted()| - |onPath|
    {
      var seenAt := IndexOf(onPath, id);
      if seenAt < |onPath| {
        ClosesAWalk(peersOf, onPath, seenAt, id);
        return Some(onPath[seenAt..] + [id]);
      }
      ghost var before := onPath;
      PathGrows(id);
      onPath := onPath + [id];
      var sorted := Sort(peersOf[id]);
      ghost var waitsFor := peersOf[id] - started;
      assert forall peer :: peer in sorted <==> peer in Elements(sorted);
      assert peersOf[id] <= peersOf.Keys;
      hide Closed, Walk, ClosedWalk;
      for k := 0 to |sorted|
        invariant onPath == before + [id] && Valid()
        invariant Stuck() ==> forall i :: 0 <= i < k ==> sorted[i] in started
      {
        var peer := sorted[k];
        if peer in started {
          continue;
        }
        cycle := WalkFrom(peer);
        if cycle.Some? {
          return;
        }
      }
      assert Stuck() ==> waitsFor == {};
      onPath := onPath[..|onPath| - 1];
      return None;
    }

    /** The ids on a cycle; the fallback, all that have not started, is never used on a stuck graph. */
    method DescribeCycle() returns (walk: seq<Id>)
      requires Valid() && onPath == []
      modifies this
      ensures Stuck() && Unstarted() != {} ==> Cycle(walk)
    {
      var unsettled := Sort(peersOf.Keys - started);
      for k := 0 to |unsettled|
        invariant Valid() && onPath == [] && (Stuck() ==> k == 0)
      {
        assert unsettled[k] in Elements(unsettled);
        var cycle := WalkFrom(unsettled[k]);
        if cycle.Some? {
          return cycle.value;
        }
      }
      assert unsettled == [] ==> Unstarted() == {};
      return unsettled;
    }
  }

  /** Meeting an id of the path again closes the walk from where it was met first. */
  lemma ClosesAWalk(peers: Peers, path: seq<Id>, seenAt: nat, id: Id)
    requires Walk(peers, path) && seenAt < |path| && path[seenAt] == id && id in peers[path[|path| - 1]]
    ensures ClosedWalk(peers, path[seenAt..] + [id]) && Elements(path[seenAt..] + [id]) <= Elements(path)
  {
    var walk := path[seenAt..] + [id];
    assert forall i :: 0 <= i < |walk| - 1 ==> walk[i] == path[seenAt + i];
    forall i | 0 <= i < |walk| - 1
      ensures walk[i + 1] in peers[walk[i]]
    {
      if i + 1 < |walk| - 1 {
        assert walk[i + 1] == path[seenAt + i + 1];
      }
    }
    assert id in path;
    assert forall x :: x in walk ==> x in path;
  }

  method IndexOf(ids: seq<Id>, id: Id) returns (index: nat)
    ensures index <= |ids| && id !in ids[..index] && (index < |ids| ==> ids[index] == id)
  {
    index := 0;
    while index < |ids| && ids[index] != id
      invariant index <= |ids| && id !in ids[..index]
    {
      index := index + 1;
    }
  }

  // Resolving the order ----------------------------------------------------------------------------------------------

  datatype Declaration = Declaration(id: Id, dependencies: seq<Id>)

  datatype Resolution =
    | Ordered(order: seq<Id>)
    | DuplicateId(id: Id)
    | SelfPeer(id: Id)
    | MissingPeer(id: Id, peer: Id)
    | PeerCycle(walk: seq<Id>)

  function PeersOf(extensions: seq<Declaration>): Peers {
    if extensions == [] then map[]
    else
      var last := extensions[|extensions| - 1];
      PeersOf(extensions[..|extensions| - 1])[last.id := Elements(last.dependencies)]
  }

  ghost predicate DistinctIds(extensions: seq<Declaration>) {
    forall i, j :: 0 <= i < j < |extensions| ==> extensions[i].id != extensions[j].id
  }

  ghost predicate HasPeer(extensions: seq<Declaration>, id: Id) {
    exists j :: 0 <= j < |extensions| && extensions[j].id == id
  }

  /** A dependency on another extension of this build. */
  ghost predicate IsPeer(extensions: seq<Declaration>, i: int, k: int)
    requires 0 <= i < |extensions| && 0 <= k < |extensions[i].dependencies|
  {
    extensions[i].dependencies[k] != extensions[i].id && HasPeer(extensions, extensions[i].dependencies[k])
  }

  ghost predicate PeersUpTo(extensions: seq<Declaration>, i: int, k: int)
    requires 0 <= i <= |extensions|
  {
    && (forall j, l :: 0 <= j < i && 0 <= l < |extensions[j].dependencies| ==> IsPeer(extensions, j, l))
    && (i < |extensions| ==> forall l :: 0 <= l < k && l < |extensions[i].dependencies| ==> IsPeer(extensions, i, l))
  }

  ghost predicate WellFormed(extensions: seq<Declaration>) {
    DistinctIds(extensions) && PeersUpTo(extensions, |extensions|, 0)
  }

  /** The first dependency, in the order they are declared, that is not one on a peer. */
  ghost predicate FirstFault(extensions: seq<Declaration>, i: int, k: int) {
    && 0 <= i < |extensions| && 0 <= k < |extensions[i].dependencies|
    && !IsPeer(extensions, i, k) && PeersUpTo(extensions, i, k)
  }

  lemma {:induction false} PeersOfMeaning(extensions: seq<Declaration>)
    ensures forall id :: id in PeersOf(extensions) <==> HasPeer(extensions, id)
    ensures DistinctIds(extensions) ==>
      forall i :: 0 <= i < |extensions| ==>
        extensions[i].id in PeersOf(extensions) &&
          PeersOf(extensions)[extensions[i].id] == Elements(extensions[i].dependencies)
  {
    if extensions != [] {
      var front := extensions[..|extensions| - 1];
      PeersOfMeaning(front);
      forall id
        ensures HasPeer(extensions, id) <==> HasPeer(front, id) || id == extensions[|extensions| - 1].id
      {
        if HasPeer(front, id) {
          var j :| 0 <= j < |front| && front[j].id == id;
          assert extensions[j].id == id;
        }
      }
    }
  }

  lemma WellFormedIsClosed(extensions: seq<Declaration>)
    requires WellFormed(extensions)
    ensures Closed(PeersOf(extensions))
  {
    PeersOfMeaning(extensions);
    var peers := PeersOf(extensions);
    forall id, peer | id in peers && peer in peers[id]
      ensures peer in peers
    {
      var i :| 0 <= i < |extensions| && extensions[i].id == id;
      var k :| 0 <= k < |extensions[i].dependencies| && extensions[i].dependencies[k] == peer;
      assert IsPeer(extensions, i, k);
    }
  }

  ghost predicate NamesDuplicate(extensions: seq<Declaration>, r: Resolution) {
    r.DuplicateId? && exists i, j :: 0 <= i < j < |extensions| && extensions[i].id == extensions[j].id == r.id
  }

  /** The refusal names the first fault: a dependency on itself, or on an extension that is not there. */
  ghost predicate NamesFault(extensions: seq<Declaration>, r: Resolution) {
    exists i, k ::
      && FirstFault(extensions, i, k)
      && r == if extensions[i].dependencies[k] == extensions[i].id then SelfPeer(extensions[i].id)
              else MissingPeer(extensions[i].id, extensions[i].dependencies[k])
  }

  method ResolveHostExtensionBootOrder(extensions: seq<Declaration>) returns (r: Resolution)
    ensures r.DuplicateId? <==> !DistinctIds(extensions)
    ensures r.DuplicateId? ==> NamesDuplicate(extensions, r)
    ensures r.SelfPeer? || r.MissingPeer? <==> DistinctIds(extensions) && !WellFormed(extensions)
    ensures r.SelfPeer? || r.MissingPeer? ==> NamesFault(extensions, r)
    ensures r.PeerCycle? <==> WellFormed(extensions) && Cyclic(PeersOf(extensions))
    ensures r.PeerCycle? ==> ClosedWalk(PeersOf(extensions), r.walk)
    ensures r.Ordered? <==> WellFormed(extensions) && !Cyclic(PeersOf(extensions))
    ensures r.Ordered? ==> IsBootOrder(PeersOf(extensions), r.order)
  {
    hide IsPeer, Cyclic, ClosedWalk, IsBootOrder, NamesDuplicate, DistinctIds, FirstFault, PeersUpTo;
    var peersOf, duplicate := CollectPeers(extensions);
    if duplicate.Some? {
      return duplicate.value;
    }
    var fault := FindFault(extensions, peersOf);
    if fault.Some? {
      return fault.value;
    }
    WellFormedIsClosed(extensions);
    r := Boot(peersOf);
  }

  method CollectPeers(extensions: seq<Declaration>) returns (peersOf: Peers, duplicate: Option<Resolution>)
    ensures duplicate.Some? <==> !DistinctIds(extensions)
    ensures duplicate.Some? ==> duplicate.value.DuplicateId? && NamesDuplicate(extensions, duplicate.value)
    ensures duplicate.None? ==> peersOf == PeersOf(extensions)
  {
    hide DistinctIds, PeersOf;
    NoDuplicateIn([]);
    assert extensions[..0] == [];
    peersOf := map[];
    for i := 0 to |extensions|
      invariant DistinctIds(extensions[..i]) && peersOf == PeersOf(extensions[..i])
    {
      OneMore(extensions, i);
      if extensions[i].id in peersOf {
        return peersOf, Some(DuplicateId(extensions[i].id));
      }
      peersOf := peersOf[extensions[i].id := Elements(extensions[i].dependencies)];
    }
    assert extensions[..|extensions|] == extensions;
    return peersOf, None;
  }

  lemma NoDuplicateIn(extensions: seq<Declaration>)
    requires extensions == []
    ensures DistinctIds(extensions) && PeersOf(extensions) == map[]
  {
  }

  lemma OneMore(extensions: seq<Declaration>, i: nat)
    requires i < |extensions| && DistinctIds(extensions[..i])
    ensures
      if extensions[i].id in PeersOf(extensions[..i]) then
        !DistinctIds(extensions) && NamesDuplicate(extensions, DuplicateId(extensions[i].id))
      else
        && DistinctIds(extensions[..i + 1])
        && PeersOf(extensions[..i + 1]) ==
          PeersOf(extensions[..i])[extensions[i].id := Elements(extensions[i].dependencies)]
  {
    PeersOfMeaning(extensions[..i]);
    if extensions[i].id in PeersOf(extensions[..i]) {
      var j :| 0 <= j < i && extensions[..i][j].id == extensions[i].id;
      assert extensions[j].id == extensions[i].id;
    } else {
      assert extensions[..i + 1][..i] == extensions[..i];
      forall j | 0 <= j < i
        ensures extensions[j].id != extensions[i].id
      {
        assert extensions[..i][j].id in PeersOf(extensions[..i]);
      }
    }
  }

  method FindFault(extensions: seq<Declaration>, peersOf: Peers) returns (fault: Option<Resolution>)
    requires DistinctIds(extensions) && peersOf == PeersOf(extensions)
    ensures fault.None? <==> WellFormed(extensions)
    ensures fault.Some? ==> (fault.value.SelfPeer? || fault.value.MissingPeer?) && NamesFault(extensions, fault.value)
  {
    hide DistinctIds, HasPeer, IsPeer, PeersOf;
    PeersOfMeaning(extensions);
    for i := 0 to |extensions|
      invariant PeersUpTo(extensions, i, 0)
    {
      var extension := extensions[i];
      for k := 0 to |extension.dependencies|
        invariant PeersUpTo(extensions, i, k)
      {
        var dependency := extension.dependencies[k];
        PeerIs(extensions, peersOf, i, k);
        if dependency == extension.id {
          assert FirstFault(extensions, i, k);
          return Some(SelfPeer(extension.id));
        }
        if dependency !in peersOf {
          assert FirstFault(extensions, i, k);
          return Some(MissingPeer(extension.id, dependency));
        }
      }
    }
    return None;
  }

  lemma PeerIs(extensions: seq<Declaration>, peersOf: Peers, i: nat, k: nat)
    requires peersOf == PeersOf(extensions) && i < |extensions| && k < |extensions[i].dependencies|
    ensures IsPeer(extensions, i, k) <==>
      extensions[i].dependencies[k] != extensions[i].id && extensions[i].dependencies[k] in peersOf
  {
    PeersOfMeaning(extensions);
  }

  ghost predicate Booting(peers: Peers, remaining: seq<Id>, order: seq<Id>) {
    && IsBootPrefix(peers, order) && Ascending(remaining)
    && Elements(remaining) == peers.Keys - Elements(order)
  }

  method Boot(peers: Peers) returns (r: Resolution)
    requires Closed(peers)
    ensures r.Ordered? || r.PeerCycle?
    ensures r.Ordered? ==> IsBootOrder(peers, r.order) && !Cyclic(peers)
    ensures r.PeerCycle? ==> ClosedWalk(peers, r.walk) && Cyclic(peers)
  {
    assert IsBootPrefix(peers, []);
    hide IsBootPrefix, Ascending, Cyclic, Less;
    var remaining := Sort(peers.Keys);
    var started: set<Id> := {};
    var order: seq<Id> := [];
    while |remaining| > 0
      invariant started == Elements(order) <= peers.Keys
      invariant Booting(peers, remaining, order)
    {
      forall j | 0 <= j < |remaining|
        ensures remaining[j] in peers
      {
        assert remaining[j] in Elements(remaining);
      }
      var index := 0;
      while index < |remaining| && !IsReady(peers, started, remaining[index])
        invariant index <= |remaining|
        invariant forall j :: 0 <= j < index ==> !IsReady(peers, started, remaining[j])
      {
        index := index + 1;
      }
      if index == |remaining| {
        var search := new CycleSearch(peers, started);
        assert search.Stuck() by {
          forall id | id in search.Unstarted()
            ensures id in peers && peers[id] - started != {}
          {
            assert id in Elements(remaining);
          }
        }
        assert remaining[0] in Elements(remaining);
        var walk := search.DescribeCycle();
        WalkMeansCyclic(peers, walk);
        return PeerCycle(walk);
      }
      var id := remaining[index];
      TakeNext(peers, remaining, order, index);
      remaining := remaining[..index] + remaining[index + 1..];
      started := started + {id};
      order := order + [id];
    }
    OrderMeansAcyclic(peers, order);
    return Ordered(order);
  }

  lemma WalkMeansCyclic(peers: Peers, walk: seq<Id>)
    requires ClosedWalk(peers, walk)
    ensures Cyclic(peers)
  {
  }

  /** Taking the first ready id out of the sorted rest extends the order by the least one. */
  lemma TakeNext(peers: Peers, remaining: seq<Id>, order: seq<Id>, index: nat)
    requires Booting(peers, remaining, order) && index < |remaining|
    requires remaining[index] in peers && IsReady(peers, Elements(order), remaining[index])
    requires forall j :: 0 <= j < index ==> remaining[j] in peers && !IsReady(peers, Elements(order), remaining[j])
    ensures Booting(peers, remaining[..index] + remaining[index + 1..], order + [remaining[index]])
  {
    hide Less, IsReady;
    var id := remaining[index];
    assert id in Elements(remaining);
    AscendingWithout(remaining, index);
    forall other | other in peers && other !in order && IsReady(peers, Elements(order), other)
      ensures other == id || Less(id, other)
    {
      assert other in Elements(remaining);
      var j :| 0 <= j < |remaining| && remaining[j] == other;
    }
    assert id !in order;
    ExtendsPrefix(peers, order, id);
    assert Elements(order + [id]) == Elements(order) + {id};
  }

  lemma AscendingWithout(ids: seq<Id>, index: nat)
    requires Ascending(ids) && index < |ids|
    ensures Ascending(ids[..index] + ids[index + 1..])
    ensures Elements(ids[..index] + ids[index + 1..]) == Elements(ids) - {ids[index]}
  {
    hide Less;
    var rest := ids[..index] + ids[index + 1..];
    forall j | 0 <= j < |ids| && j != index
      ensures ids[j] != ids[index] && ids[j] in rest
    {
      LessIsTotal(ids[j], ids[index]);
      assert ids[j] == rest[if j < index then j else j - 1];
    }
  }

  lemma ExtendsPrefix(peers: Peers, order: seq<Id>, id: Id)
    requires IsBootPrefix(peers, order) && Next(peers, order, id)
    ensures IsBootPrefix(peers, order + [id])
  {
    hide Next;
    var longer := order + [id];
    assert longer[..|order|] == order;
    assert forall i :: 0 <= i < |order| ==> longer[..i] == order[..i] && longer[i] == order[i];
  }

  /** Extensions declared in another order are refused as well, or started in the same order. */
  lemma IndependentOfDeclarationOrder(a: seq<Declaration>, b: seq<Declaration>)
    requires multiset(a) == multiset(b)
    ensures DistinctIds(a) <==> DistinctIds(b)
    ensures WellFormed(a) <==> WellFormed(b)
    ensures WellFormed(a) ==> PeersOf(a) == PeersOf(b)
    ensures forall order, order' ::
      WellFormed(a) && IsBootOrder(PeersOf(a), order) && IsBootOrder(PeersOf(b), order') ==> order == order'
  {
    assert WellFormed(a) ==> DistinctIds(a);
    hide IsBootOrder, WellFormed, DistinctIds;
    StaysWellFormed(a, b);
    StaysWellFormed(b, a);
    if WellFormed(a) {
      SamePeers(a, b);
      SamePeers(b, a);
      assert PeersOf(a) == PeersOf(b);
      forall order, order' | IsBootOrder(PeersOf(a), order) && IsBootOrder(PeersOf(b), order')
        ensures order == order'
      {
        BootOrderIsUnique(PeersOf(a), order, order');
      }
    }
  }

  function Ids(extensions: seq<Declaration>): seq<Id> {
    seq(|extensions|, i requires 0 <= i < |extensions| => extensions[i].id)
  }

  lemma SomewhereIn<T>(a: seq<T>, b: seq<T>, i: nat) returns (j: nat)
    requires multiset(a) == multiset(b) && i < |a|
    ensures j < |b| && b[j] == a[i]
  {
    assert a[i] in multiset(a) && a[i] in multiset(b);
    j :| 0 <= j < |b| && b[j] == a[i];
  }

  lemma {:induction false} IdCount(extensions: seq<Declaration>)
    ensures |Elements(Ids(extensions))| <= |extensions|
    ensures |Elements(Ids(extensions))| == |extensions| <==> DistinctIds(extensions)
  {
    if extensions != [] {
      var front, last := extensions[..|extensions| - 1], extensions[|extensions| - 1].id;
      hide DistinctIds;
      IdCount(front);
      assert Ids(extensions) == Ids(front) + [last];
      assert Elements(Ids(extensions)) == Elements(Ids(front)) + {last};
      DistinctSnoc(extensions);
      assert last in Elements(Ids(front)) <==> last in Ids(front);
    }
  }

  lemma DistinctSnoc(extensions: seq<Declaration>)
    requires extensions != []
    ensures
      var front := extensions[..|extensions| - 1];
      DistinctIds(extensions) <==> DistinctIds(front) && extensions[|extensions| - 1].id !in Ids(front)
  {
    var front, last := extensions[..|extensions| - 1], extensions[|extensions| - 1].id;
    if last in Ids(front) {
      var j :| 0 <= j < |front| && Ids(front)[j] == last;
      assert extensions[j].id == extensions[|extensions| - 1].id;
    } else {
      forall j | 0 <= j < |front|
        ensures extensions[j].id != last
      {
        assert Ids(front)[j] in Ids(front);
      }
    }
  }

  lemma SameIds(a: seq<Declaration>, b: seq<Declaration>)
    requires multiset(a) == multiset(b)
    ensures Elements(Ids(a)) <= Elements(Ids(b))
  {
    forall id | id in Ids(a)
      ensures id in Ids(b)
    {
      var i :| 0 <= i < |a| && Ids(a)[i] == id;
      var j := SomewhereIn(a, b, i);
      assert Ids(b)[j] == id;
    }
  }

  lemma StaysWellFormed(a: seq<Declaration>, b: seq<Declaration>)
    requires multiset(a) == multiset(b)
    ensures DistinctIds(a) ==> DistinctIds(b)
    ensures WellFormed(a) ==> WellFormed(b)
  {
    hide DistinctIds;
    SameIds(a, b);
    SameIds(b, a);
    IdCount(a);
    IdCount(b);
    assert Elements(Ids(a)) == Elements(Ids(b));
    assert |a| == |multiset(a)| && |b| == |multiset(b)|;
    if WellFormed(a) {
      forall i, k | 0 <= i < |b| && 0 <= k < |b[i].dependencies|
        ensures IsPeer(b, i, k)
      {
        var j := SomewhereIn(b, a, i);
        assert IsPeer(a, j, k);
        var peer :| 0 <= peer < |a| && a[peer].id == b[i].dependencies[k];
        var peer' := SomewhereIn(a, b, peer);
        assert b[peer'].id == b[i].dependencies[k];
      }
    }
  }

  lemma SamePeers(a: seq<Declaration>, b: seq<Declaration>)
    requires multiset(a) == multiset(b) && DistinctIds(a) && DistinctIds(b)
    ensures forall id :: id in PeersOf(a) ==> id in PeersOf(b) && PeersOf(a)[id] == PeersOf(b)[id]
  {
    hide PeersOf;
    PeersOfMeaning(a);
    PeersOfMeaning(b);
    forall id | id in PeersOf(a)
      ensures id in PeersOf(b) && PeersOf(a)[id] == PeersOf(b)[id]
    {
      var i :| 0 <= i < |a| && a[i].id == id;
      var j := SomewhereIn(a, b, i);
    }
  }

  // Starting and stopping --------------------------------------------------------------------------------------------

  /** The `number`th teardown an extension registered while it started. */
  datatype Teardown = Teardown(extension: Id, number: nat)

  /** What starting an extension comes to: how many teardowns it registers, and whether it succeeds. */
  datatype Start = Start(registers: nat, ok: bool)

  datatype Outcome = Refused(why: Resolution) | StartFailed(order: seq<Id>, at: nat) | Running(order: seq<Id>)

  function Numbered(id: Id, count: nat): seq<Teardown> { seq(count, k requires k >= 0 => Teardown(id, k)) }

  /** The teardowns registered by the first `n` extensions of an order. */
  function Registered(order: seq<Id>, starts: Id -> Start, n: nat): seq<Teardown>
    requires n <= |order|
  {
    if n == 0 then [] else Registered(order, starts, n - 1) + Numbered(order[n - 1], starts(order[n - 1]).registers)
  }

  lemma RegisteredStep(order: seq<Id>, starts: Id -> Start, n: nat)
    requires n <= |order|
    ensures Registered(order, starts, 0) == []
    ensures n < |order| ==>
      Registered(order, starts, n + 1) == Registered(order, starts, n) + Numbered(order[n], starts(order[n]).registers)
  {
  }

  function Reverse<T>(s: seq<T>): (r: seq<T>)
    ensures |r| == |s| && forall i :: 0 <= i < |s| ==> r[i] == s[|s| - 1 - i]
  {
    if s == [] then [] else Reverse(s[1..]) + [s[0]]
  }

  lemma {:induction false} ReverseSame<T>(s: seq<T>)
    ensures multiset(Reverse(s)) == multiset(s)
  {
    if s != [] {
      ReverseSame(s[1..]);
      assert s == [s[0]] + s[1..];
    }
  }

  /** Two registered teardowns are those of two extensions in order, or of one, in the order it registered them. */
  lemma {:induction false} RegisteredInOrder(order: seq<Id>, starts: Id -> Start, n: nat, p: nat, q: nat)
      returns (i: nat, j: nat)
    requires n <= |order| && p <= q < |Registered(order, starts, n)|
    ensures
      var all := Registered(order, starts, n);
      && i <= j < n && all[p].extension == order[i] && all[q].extension == order[j]
      && (p < q ==> i < j || all[p].number < all[q].number)
  {
    var before := |Registered(order, starts, n - 1)|;
    if q < before {
      i, j := RegisteredInOrder(order, starts, n - 1, p, q);
    } else if p < before {
      i, j := RegisteredInOrder(order, starts, n - 1, p, p);
      j := n - 1;
    } else {
      i, j := n - 1, n - 1;
    }
  }

  /** Run in reverse, the teardowns of an extension come before those of its peers, and each comes once. */
  lemma DependentsStopFirst(peers: Peers, order: seq<Id>, starts: Id -> Start, n: nat, p: nat, q: nat)
    requires IsBootOrder(peers, order) && n <= |order|
    requires p < |Registered(order, starts, n)| && q < |Registered(order, starts, n)|
    ensures
      var stopped := Reverse(Registered(order, starts, n));
      && (stopped[p].extension in peers && stopped[q].extension in peers[stopped[p].extension] ==> p < q)
      && (stopped[p] == stopped[q] ==> p == q)
  {
    hide IsBootOrder, Registered;
    var all := Registered(order, starts, n);
    var stopped := Reverse(all);
    if q <= p {
      var i, j := RegisteredInOrder(order, starts, n, |all| - 1 - p, |all| - 1 - q);
      NotBeforePeer(peers, order, i, j);
      if stopped[p] == stopped[q] && q < p {
        SamePosition(peers, order, i, j);
      }
    } else {
      var i, j := RegisteredInOrder(order, starts, n, |all| - 1 - q, |all| - 1 - p);
      if stopped[p] == stopped[q] {
        SamePosition(peers, order, i, j);
      }
    }
  }

  lemma NotBeforePeer(peers: Peers, order: seq<Id>, i: nat, j: nat)
    requires IsBootOrder(peers, order) && i <= j < |order|
    ensures order[i] in peers && order[j] !in peers[order[i]]
  {
    NextInOrder(peers, order, i);
    if order[j] in peers[order[i]] {
      PeersComeFirst(peers, order, i, order[j]);
    }
  }

  /** The teardowns of one set of extensions; any number of stops may be under way at once. */
  class Lifecycle {
    var teardowns: seq<Teardown>
    /** What each call of stop has taken and not run yet. */
    var stopping: seq<seq<Teardown>>
    ghost var registered: seq<Teardown>
    ghost var ran: seq<Teardown>

    /** Nothing registered is lost, and nothing is run twice. */
    ghost predicate Valid()
      reads this
    {
      multiset(registered) == multiset(teardowns) + Pending(stopping) + multiset(ran)
    }

    constructor ()
      ensures Valid() && teardowns == [] && stopping == [] && registered == [] && ran == []
    {
      teardowns, stopping, registered, ran := [], [], [], [];
    }

    method OnStop(t: Teardown)
      requires Valid()
      modifies this
      ensures Valid() && registered == old(registered) + [t] && teardowns == old(teardowns) + [t]
      ensures stopping == old(stopping) && ran == old(ran)
    {
      registered := registered + [t];
      teardowns := teardowns + [t];
      assert multiset(teardowns) == multiset(old(teardowns)) + multiset{t};
    }

    /** Takes all teardowns, latest first; they are then run one by one. */
    method Stop()
      requires Valid()
      modifies this
      ensures Valid() && teardowns == [] && stopping == old(stopping) + [Reverse(old(teardowns))]
      ensures registered == old(registered) && ran == old(ran)
    {
      ReverseSame(teardowns);
      var taken := Reverse(teardowns);
      assert (stopping + [taken])[..|stopping|] == stopping;
      stopping := stopping + [taken];
      teardowns := [];
      assert multiset(old(teardowns)) + Pending(old(stopping)) == multiset(teardowns) + Pending(stopping);
    }

    method RunNext(call: nat)
      requires Valid() && call < |stopping| && stopping[call] != []
      modifies this
      ensures Valid() && ran == old(ran) + [old(stopping[call][0])]
      ensures stopping == old(stopping)[call := old(stopping[call][1..])]
      ensures registered == old(registered) && teardowns == old(teardowns)
    {
      TakesOne(stopping, call);
      ran := ran + [stopping[call][0]];
      stopping := stopping[call := stopping[call][1..]];
      assert multiset(ran) == multiset(old(ran)) + multiset{old(stopping[call][0])};
      assert multiset(teardowns) + Pending(stopping) + multiset(ran) ==
             multiset(teardowns) + (Pending(stopping) + multiset{old(stopping[call][0])}) + multiset(old(ran));
    }

    /** Once every stop is through and nothing has been registered since, each teardown has run exactly once. */
    lemma AllRanOnce()
      requires Valid() && teardowns == [] && forall call :: 0 <= call < |stopping| ==> stopping[call] == []
      ensures multiset(ran) == multiset(registered)
    {
      NonePending(stopping);
    }

    /** The registrations of one extension while it starts. */
    method Register(id: Id, count: nat)
      requires Valid()
      modifies this
      ensures Valid() && stopping == old(stopping) && ran == old(ran)
      ensures teardowns == old(teardowns) + Numbered(id, count) && registered == old(registered) + Numbered(id, count)
    {
      for k := 0 to count
        invariant Valid() && stopping == old(stopping) && ran == old(ran)
        invariant teardowns == old(teardowns) + Numbered(id, k) && registered == old(registered) + Numbered(id, k)
      {
        OnStop(Teardown(id, k));
        assert Numbered(id, k + 1) == Numbered(id, k) + [Teardown(id, k)];
      }
    }

    /** A stop with nothing in between. */
    method StopStarted()
      requires Valid() && stopping == []
      modifies this
      ensures Valid() && teardowns == [] && registered == old(registered) && ran == old(ran) + Reverse(old(teardowns))
    {
      hide Valid;
      Stop();
      while stopping[0] != []
        invariant Valid() && teardowns == [] && |stopping| == 1 && registered == old(registered)
        invariant ran + stopping[0] == old(ran) + Reverse(old(teardowns))
        decreases |stopping[0]|
      {
        RunNext(0);
      }
    }

    method StartHostExtensions(extensions: seq<Declaration>, starts: Id -> Start) returns (r: Outcome)
      requires Valid() && teardowns == [] && stopping == [] && registered == [] && ran == []
      modifies this
      ensures Valid()
      ensures r.Refused? <==> !WellFormed(extensions) || Cyclic(PeersOf(extensions))
      ensures r.Refused? ==> registered == []
      ensures r.Running? ==>
        && IsBootOrder(PeersOf(extensions), r.order) && (forall i :: 0 <= i < |r.order| ==> starts(r.order[i]).ok)
        && teardowns == registered == Registered(r.order, starts, |r.order|) && ran == []
      ensures r.StartFailed? ==>
        && IsBootOrder(PeersOf(extensions), r.order) && r.at < |r.order|
        && (forall i :: 0 <= i < r.at ==> starts(r.order[i]).ok) && !starts(r.order[r.at]).ok
        && registered == Registered(r.order, starts, r.at + 1)
        && teardowns == [] && ran == Reverse(registered)
    {
      hide *;
      var resolution := ResolveHostExtensionBootOrder(extensions);
      if !resolution.Ordered? {
        return Refused(resolution);
      }
      var order := resolution.order;
      RegisteredStep(order, starts, 0);
      for i := 0 to |order|
        invariant Valid() && stopping == [] && ran == []
        invariant teardowns == registered == Registered(order, starts, i)
        invariant forall j :: 0 <= j < i ==> starts(order[j]).ok
      {
        Register(order[i], starts(order[i]).registers);
        RegisteredStep(order, starts, i);
        if !starts(order[i]).ok {
          StopStarted();
          return StartFailed(order, i);
        }
      }
      return Running(order);
    }
  }

  ghost function Pending(stopping: seq<seq<Teardown>>): multiset<Teardown> {
    if stopping == [] then multiset{}
    else Pending(stopping[..|stopping| - 1]) + multiset(stopping[|stopping| - 1])
  }

  lemma {:induction false} TakesOne(stopping: seq<seq<Teardown>>, call: nat)
    requires call < |stopping| && stopping[call] != []
    ensures Pending(stopping) == Pending(stopping[call := stopping[call][1..]]) + multiset{stopping[call][0]}
  {
    var front, last := stopping[..|stopping| - 1], stopping[|stopping| - 1];
    var rest := stopping[call := stopping[call][1..]];
    if call == |stopping| - 1 {
      assert rest[..|rest| - 1] == front;
      assert last == [last[0]] + last[1..];
    } else {
      assert rest[..|rest| - 1] == front[call := front[call][1..]];
      TakesOne(front, call);
    }
  }

  lemma {:induction false} NonePending(stopping: seq<seq<Teardown>>)
    requires forall call :: 0 <= call < |stopping| ==> stopping[call] == []
    ensures Pending(stopping) == multiset{}
  {
    if stopping != [] {
      NonePending(stopping[..|stopping| - 1]);
    }
  }
}
