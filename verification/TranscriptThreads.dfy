/** Threads of a transcript: found by chasing parents upwards, and by a breadth-first search downwards. */
module TranscriptThreads {

  import opened Options
  import opened Sets

  type Id = string

  datatype Kind = Message | SendMessage | UserAttachment | Notice | OtherKind

  datatype Entry = Entry(kind: Kind, id: Option<Id>, replyTo: Option<Id>, branched: bool) {
    function ReplyTo(): Option<Id> { if kind.OtherKind? then None else replyTo }

    predicate IsBranched() { !kind.OtherKind? && branched }
  }

  /** Messages of people and agents, attachments and notices reply and branch; nothing else does. */
  lemma WhatReplies(e: Entry)
    ensures e.kind in {Message, SendMessage, UserAttachment, Notice} ==>
      e.ReplyTo() == e.replyTo && e.IsBranched() == e.branched
    ensures e.kind !in {Message, SendMessage, UserAttachment, Notice} ==> e.ReplyTo() == None && !e.IsBranched()
  {
  }

  function Filter<T>(s: seq<T>, keep: T -> bool): seq<T> {
    if s == [] then [] else Filter(s[..|s| - 1], keep) + if keep(s[|s| - 1]) then [s[|s| - 1]] else []
  }

  function ById(entries: seq<Entry>): map<Id, Entry> {
    if entries == [] then map[]
    else
      var last := entries[|entries| - 1];
      var earlier := ById(entries[..|entries| - 1]);
      if last.id.Some? then earlier[last.id.value := last] else earlier
  }

  ghost predicate UniqueIds(entries: seq<Entry>) {
    forall i, j :: 0 <= i < j < |entries| && entries[i].id.Some? ==> entries[i].id != entries[j].id
  }

  lemma {:induction false} ByIdMeaning(entries: seq<Entry>)
    ensures forall id :: id in ById(entries) ==> ById(entries)[id] in entries && ById(entries)[id].id == Some(id)
    ensures forall e :: e in entries && e.id.Some? ==> e.id.value in ById(entries)
    ensures UniqueIds(entries) ==> forall e :: e in entries && e.id.Some? ==> ById(entries)[e.id.value] == e
  {
    if entries != [] {
      var front, last := entries[..|entries| - 1], entries[|entries| - 1];
      ByIdMeaning(front);
      assert entries == front + [last];
    }
  }

  // Chasing parents upwards ------------------------------------------------------------------------------------------

  /** The first ancestor that is not among the branched entries; none if the chase ends or runs in a circle. */
  function Chase(branchedById: map<Id, Entry>, current: Entry, seen: set<Id>): Option<Id>
    decreases |branchedById.Keys - seen|
  {
    match current.ReplyTo()
    case None => None
    case Some(parentId) =>
      if parentId !in branchedById then Some(parentId)
      else if parentId in seen then None
      else
        Shrinks(branchedById.Keys, seen, parentId);
        Chase(branchedById, branchedById[parentId], seen + {parentId})
  }

  function OwnId(e: Entry): set<Id> { if e.id.Some? then {e.id.value} else {} }

  /** The root as transcript-threads.ts sees it: it may not be in the transcript at all. */
  function BranchRoot(branchedById: map<Id, Entry>, e: Entry): Option<Id> { Chase(branchedById, e, OwnId(e)) }

  function BranchedOf(byId: map<Id, Entry>): map<Id, Entry> { map id | id in byId && byId[id].IsBranched() :: byId[id] }

  /** The root as transcript.ts sees it. */
  function RootIn(byId: map<Id, Entry>, e: Entry): Option<Id> {
    var root := BranchRoot(BranchedOf(byId), e);
    if root.Some? && root.value in byId then root else None
  }

  method ResolveBranchRootInTranscript(entry: Entry, byId: map<Id, Entry>) returns (root: Option<Id>)
    ensures root == RootIn(byId, entry)
  {
    var current, seen := entry, OwnId(entry);
    ghost var branchedById := BranchedOf(byId);
    while true
      invariant BranchRoot(branchedById, entry) == Chase(branchedById, current, seen)
      decreases |branchedById.Keys - seen|
    {
      var parentId := current.ReplyTo();
      if parentId.None? || parentId.value !in byId {
        return None;
      }
      var parent := byId[parentId.value];
      if !parent.IsBranched() {
        return parentId;
      }
      if parentId.value in seen {
        return None;
      }
      Shrinks(branchedById.Keys, seen, parentId.value);
      seen := seen + {parentId.value};
      current := parent;
    }
  }

  method ResolveBranchRoot(entry: Entry, branchedById: map<Id, Entry>) returns (root: Option<Id>)
    ensures root == BranchRoot(branchedById, entry)
  {
    var current, seen := entry, OwnId(entry);
    while true
      invariant BranchRoot(branchedById, entry) == Chase(branchedById, current, seen)
      decreases |branchedById.Keys - seen|
    {
      var parentId := current.ReplyTo();
      if parentId.None? {
        return None;
      }
      if parentId.value !in branchedById {
        return parentId;
      }
      if parentId.value in seen {
        return None;
      }
      Shrinks(branchedById.Keys, seen, parentId.value);
      seen := seen + {parentId.value};
      current := branchedById[parentId.value];
    }
  }

  // What the chase finds ---------------------------------------------------------------------------------------------

  /** `e` answers `root`, or a branched entry that answers it in `n - 1` steps. */
  ghost predicate Descends(branchedById: map<Id, Entry>, e: Entry, root: Id, n: nat)
    decreases n
  {
    && n >= 1 && e.ReplyTo().Some?
    && if n == 1 then e.ReplyTo().value == root
       else e.ReplyTo().value in branchedById && Descends(branchedById, branchedById[e.ReplyTo().value], root, n - 1)
  }

  ghost predicate DescendsFrom(branchedById: map<Id, Entry>, e: Entry, root: Id) {
    exists n :: Descends(branchedById, e, root, n)
  }

  lemma {:induction false} DescentIsUnique(branchedById: map<Id, Entry>, e: Entry, root: Id, n: nat, m: nat)
    requires root !in branchedById && Descends(branchedById, e, root, n) && Descends(branchedById, e, root, m)
    ensures n == m
    decreases n
  {
    if n > 1 && m > 1 {
      DescentIsUnique(branchedById, branchedById[e.ReplyTo().value], root, n - 1, m - 1);
    }
  }

  lemma {:induction false} ChaseIsDescent(branchedById: map<Id, Entry>, e: Entry, seen: set<Id>) returns (n: nat)
    requires Chase(branchedById, e, seen).Some?
    ensures var root := Chase(branchedById, e, seen).value; root !in branchedById && Descends(branchedById, e, root, n)
    decreases |branchedById.Keys - seen|
  {
    var parentId := e.ReplyTo().value;
    if parentId !in branchedById {
      n := 1;
    } else {
      Shrinks(branchedById.Keys, seen, parentId);
      n := ChaseIsDescent(branchedById, branchedById[parentId], seen + {parentId});
      n := n + 1;
    }
  }

  ghost predicate NotSooner(branchedById: map<Id, Entry>, e: Entry, root: Id, n: nat) {
    exists m: nat :: m >= n && Descends(branchedById, e, root, m)
  }

  /** What has been seen descends in more steps, so the chase meets none of it again. */
  lemma {:induction false} DescentIsChased(branchedById: map<Id, Entry>, e: Entry, seen: set<Id>, root: Id, n: nat)
    requires root !in branchedById && Descends(branchedById, e, root, n)
    requires forall id :: id in seen && id in branchedById ==> NotSooner(branchedById, branchedById[id], root, n)
    ensures Chase(branchedById, e, seen) == Some(root)
    decreases n
  {
    if n > 1 {
      var parentId := e.ReplyTo().value;
      if parentId in seen {
        var m: nat :| m >= n && Descends(branchedById, branchedById[parentId], root, m);
        DescentIsUnique(branchedById, branchedById[parentId], root, n - 1, m);
      } else {
        forall id | id in seen + {parentId} && id in branchedById
          ensures NotSooner(branchedById, branchedById[id], root, n - 1)
        {
          if id in seen {
            var m: nat :| m >= n && Descends(branchedById, branchedById[id], root, m);
          } else {
            assert Descends(branchedById, branchedById[id], root, n - 1);
          }
        }
        DescentIsChased(branchedById, branchedById[parentId], seen + {parentId}, root, n - 1);
      }
    }
  }

  /** The chase finds a root exactly if the entry descends from it. */
  lemma RootIffDescends(branchedById: map<Id, Entry>, e: Entry, root: Id)
    requires e.id.Some? && e.id.value in branchedById ==> branchedById[e.id.value] == e
    ensures BranchRoot(branchedById, e) == Some(root) <==> root !in branchedById && DescendsFrom(branchedById, e, root)
  {
    if BranchRoot(branchedById, e) == Some(root) {
      var n := ChaseIsDescent(branchedById, e, OwnId(e));
    }
    if root !in branchedById && DescendsFrom(branchedById, e, root) {
      var n :| Descends(branchedById, e, root, n);
      assert NotSooner(branchedById, e, root, n);
      DescentIsChased(branchedById, e, OwnId(e), root, n);
    }
  }

  // Searching downwards ----------------------------------------------------------------------------------------------

  /** One of the entries with the id `child` answers `parent`, and the one that is looked up is branched. */
  ghost predicate IsChild(entries: seq<Entry>, parent: Id, child: Id) {
    && Answers(entries, parent, child)
    && child in ById(entries) && ById(entries)[child].IsBranched()
  }

  ghost predicate Answers(entries: seq<Entry>, parent: Id, child: Id) {
    exists i :: 0 <= i < |entries| && entries[i].id == Some(child) && entries[i].ReplyTo() == Some(parent)
  }

  ghost predicate Below(entries: seq<Entry>, root: Id, path: seq<Id>) {
    && path != [] && path[0] == root
    && forall i :: 0 <= i < |path| - 1 ==> IsChild(entries, path[i], path[i + 1])
  }

  ghost predicate InThread(entries: seq<Entry>, root: Id, id: Id) {
    exists path :: Below(entries, root, path) && path[|path| - 1] == id
  }

  lemma ChildInThread(entries: seq<Entry>, root: Id, parent: Id, child: Id)
    requires InThread(entries, root, parent) && IsChild(entries, parent, child)
    ensures InThread(entries, root, child)
  {
    var path :| Below(entries, root, path) && path[|path| - 1] == parent;
    assert Below(entries, root, path + [child]);
    assert (path + [child])[|path + [child]| - 1] == child;
  }

  lemma RootInThread(entries: seq<Entry>, root: Id)
    ensures InThread(entries, root, root)
  {
    assert Below(entries, root, [root]);
  }

  method CollectChildren(entries: seq<Entry>) returns (children: map<Id, seq<Id>>)
    ensures forall parent, child :: Answers(entries, parent, child) <==> parent in children && child in children[parent]
  {
    children := map[];
    for k := 0 to |entries|
      invariant forall parent, child :: Answers(entries[..k], parent, child) <==>
        parent in children && child in children[parent]
    {
      var candidate := entries[k];
      var parentId := candidate.ReplyTo();
      AnswersOneMore(entries, k);
      if parentId.Some? && candidate.id.Some? {
        var bucket := if parentId.value in children then children[parentId.value] else [];
        children := children[parentId.value := bucket + [candidate.id.value]];
      }
    }
    assert entries[..|entries|] == entries;
  }

  lemma AnswersOneMore(entries: seq<Entry>, k: nat)
    requires k < |entries|
    ensures forall parent, child :: Answers(entries[..k + 1], parent, child) <==>
      Answers(entries[..k], parent, child) || (entries[k].id == Some(child) && entries[k].ReplyTo() == Some(parent))
  {
    assert entries[..k + 1] == entries[..k] + [entries[k]];
    forall parent, child | entries[k].id == Some(child) && entries[k].ReplyTo() == Some(parent)
      ensures Answers(entries[..k + 1], parent, child)
    {
      assert entries[..k + 1][k] == entries[k];
    }
    forall parent, child | Answers(entries[..k], parent, child)
      ensures Answers(entries[..k + 1], parent, child)
    {
      var i :| 0 <= i < k && entries[..k][i].id == Some(child) && entries[..k][i].ReplyTo() == Some(parent);
      assert entries[..k + 1][i] == entries[..k][i];
    }
  }

  ghost predicate Expanded(entries: seq<Entry>, thread: set<Id>, id: Id) {
    forall child :: IsChild(entries, id, child) ==> child in thread
  }

  lemma {:induction false} ClosedHoldsThread(entries: seq<Entry>, root: Id, thread: set<Id>, path: seq<Id>)
    requires root in thread && forall id :: id in thread ==> Expanded(entries, thread, id)
    requires Below(entries, root, path)
    ensures path[|path| - 1] in thread
  {
    hide IsChild;
    if |path| > 1 {
      ClosedHoldsThread(entries, root, thread, path[..|path| - 1]);
      assert Expanded(entries, thread, path[|path| - 2]);
    }
  }

  lemma ThreadIsHeld(entries: seq<Entry>, root: Id, thread: set<Id>, id: Id)
    requires root in thread && forall id :: id in thread ==> Expanded(entries, thread, id)
    requires InThread(entries, root, id)
    ensures id in thread
  {
    var path :| Below(entries, root, path) && path[|path| - 1] == id;
    ClosedHoldsThread(entries, root, thread, path);
  }

  ghost function ThreadEntries(entries: seq<Entry>, root: Id): seq<Entry> {
    if root !in ById(entries) then []
    else Filter(entries, (e: Entry) => e.id.Some? && InThread(entries, root, e.id.value))
  }

  method GetThreadTranscriptEntries(entries: seq<Entry>, rootId: Id) returns (r: seq<Entry>)
    ensures r == ThreadEntries(entries, rootId)
  {
    hide IsChild, InThread, Answers, Below, ById, Filter;
    var byId := ById(entries);
    if rootId !in byId {
      return [];
    }
    var children := CollectChildren(entries);
    var thread := {rootId};
    var queue := [rootId];
    RootInThread(entries, rootId);
    while |queue| > 0
      invariant rootId in thread && thread <= byId.Keys
      invariant forall id :: id in thread ==> InThread(entries, rootId, id)
      invariant forall id :: id in queue ==> id in thread
      invariant forall id :: id in thread ==> id in queue || Expanded(entries, thread, id)
      decreases |byId.Keys - thread|, |queue|
    {
      var nextId := queue[0];
      ghost var before, queued := thread, queue;
      var rest := queue[1..];
      var found := if nextId in children then children[nextId] else [];
      queue := rest;
      for k := 0 to |found|
        invariant before <= thread <= byId.Keys && rest <= queue
        invariant forall id :: id in thread ==> InThread(entries, rootId, id)
        invariant forall id :: id in queue ==> id in thread
        invariant forall id :: id in thread && id !in before ==> id in queue
        invariant forall j :: 0 <= j < k && found[j] in byId && byId[found[j]].IsBranched() ==> found[j] in thread
        invariant |byId.Keys - thread| < |byId.Keys - before| || (thread == before && queue == rest)
      {
        var childId := found[k];
        if childId in thread || childId !in byId || !byId[childId].IsBranched() {
          continue;
        }
        IsChildIf(entries, nextId, childId);
        ChildInThread(entries, rootId, nextId, childId);
        Shrinks(byId.Keys, thread, childId);
        assert |byId.Keys - thread| <= |byId.Keys - before|;
        thread := thread + {childId};
        queue := queue + [childId];
      }
      ExpandedIf(entries, thread, nextId, found);
      StaysExpanded(entries, before, thread);
      forall id | id in thread
        ensures id in queue || Expanded(entries, thread, id)
      {
        if id in before && id in queued && id != nextId {
          assert id in rest;
        }
      }
    }
    forall id
      ensures InThread(entries, rootId, id) <==> id in thread
    {
      if InThread(entries, rootId, id) {
        ThreadIsHeld(entries, rootId, thread, id);
      }
    }
    FilterSame(entries, (e: Entry) => e.id.Some? && e.id.value in thread,
      (e: Entry) => e.id.Some? && InThread(entries, rootId, e.id.value));
    return Filter(entries, (e: Entry) => e.id.Some? && e.id.value in thread);
  }

  lemma IsChildIf(entries: seq<Entry>, parent: Id, child: Id)
    ensures IsChild(entries, parent, child) <==>
      Answers(entries, parent, child) && child in ById(entries) && ById(entries)[child].IsBranched()
  {
  }

  lemma ExpandedIf(entries: seq<Entry>, thread: set<Id>, id: Id, found: seq<Id>)
    requires forall child :: Answers(entries, id, child) ==> child in found
    requires forall j :: 0 <= j < |found| && found[j] in ById(entries) && ById(entries)[found[j]].IsBranched() ==>
      found[j] in thread
    ensures Expanded(entries, thread, id)
  {
  }

  lemma StaysExpanded(entries: seq<Entry>, before: set<Id>, after: set<Id>)
    requires before <= after
    ensures forall id :: Expanded(entries, before, id) ==> Expanded(entries, after, id)
  {
    hide IsChild;
  }

  lemma {:induction false} FilterSame<T>(s: seq<T>, f: T -> bool, g: T -> bool)
    requires forall x :: x in s ==> f(x) == g(x)
    ensures Filter(s, f) == Filter(s, g)
  {
    if s != [] {
      FilterSame(s[..|s| - 1], f, g);
    }
  }

  // Main entries, counts and descendants -----------------------------------------------------------------------------

  function IsThreadMessage(byId: map<Id, Entry>, e: Entry): bool { e.IsBranched() && RootIn(byId, e).Some? }

  function MainEntries(entries: seq<Entry>): seq<Entry> {
    var byId := ById(entries);
    Filter(entries, (e: Entry) => !IsThreadMessage(byId, e))
  }

  method GetMainTranscriptEntries(entries: seq<Entry>) returns (r: seq<Entry>)
    ensures r == MainEntries(entries)
  {
    hide RootIn;
    var byId := ById(entries);
    var kept: seq<Entry> := [];
    var some := false;
    ghost var isMain := (e: Entry) => !IsThreadMessage(byId, e);
    for i := 0 to |entries|
      invariant kept == Filter(entries[..i], isMain)
      invariant !some ==> kept == entries[..i]
    {
      var root := ResolveBranchRootInTranscript(entries[i], byId);
      FilterOneMore(entries, i, isMain);
      if entries[i].IsBranched() && root.Some? {
        some := true;
      } else {
        kept := kept + [entries[i]];
      }
    }
    assert entries[..|entries|] == entries;
    return if some then kept else entries;
  }

  lemma FilterOneMore<T>(s: seq<T>, i: nat, keep: T -> bool)
    requires i < |s|
    ensures Filter(s[..i + 1], keep) == Filter(s[..i], keep) + if keep(s[i]) then [s[i]] else []
  {
    assert s[..i + 1][..i] == s[..i];
  }

  /** The branched entries that descend from a root, in transcript order. */
  function Descendants(branched: seq<Entry>, root: Id): seq<Entry> {
    var byId := ById(branched);
    Filter(branched, (e: Entry) => BranchRoot(byId, e) == Some(root))
  }

  method ThreadDescendants(rootId: Id, branched: seq<Entry>) returns (r: seq<Entry>)
    ensures r == Descendants(branched, rootId)
  {
    hide BranchRoot;
    var byId := ById(branched);
    r := [];
    ghost var descends := (e: Entry) => BranchRoot(byId, e) == Some(rootId);
    for i := 0 to |branched|
      invariant r == Filter(branched[..i], descends)
    {
      var root := ResolveBranchRoot(branched[i], byId);
      FilterOneMore(branched, i, descends);
      if root == Some(rootId) {
        r := r + [branched[i]];
      }
    }
    assert branched[..|branched|] == branched;
  }

  function CountOf(counts: map<Id, nat>, root: Id): nat { if root in counts then counts[root] else 0 }

  method BranchReplyCounts(branched: seq<Entry>) returns (counts: map<Id, nat>)
    ensures forall root :: CountOf(counts, root) == |Descendants(branched, root)|
    ensures forall root :: root in counts ==> counts[root] > 0
  {
    hide BranchRoot;
    var byId := ById(branched);
    counts := map[];
    for i := 0 to |branched|
      invariant forall root :: CountOf(counts, root) == |Filter(branched[..i], Rooted(byId, root))|
      invariant forall root :: root in counts ==> counts[root] > 0
    {
      var root := ResolveBranchRoot(branched[i], byId);
      forall other
        ensures |Filter(branched[..i + 1], Rooted(byId, other))| ==
                |Filter(branched[..i], Rooted(byId, other))| + if root == Some(other) then 1 else 0
      {
        FilterOneMore(branched, i, Rooted(byId, other));
      }
      if root.Some? {
        counts := counts[root.value := CountOf(counts, root.value) + 1];
      }
    }
    assert branched[..|branched|] == branched;
    forall root
      ensures Filter(branched, Rooted(byId, root)) == Descendants(branched, root)
    {
      FilterSame(branched, Rooted(byId, root), (e: Entry) => BranchRoot(byId, e) == Some(root));
    }
  }

  function Rooted(byId: map<Id, Entry>, root: Id): Entry -> bool { (e: Entry) => BranchRoot(byId, e) == Some(root) }

  // The two ways agree -----------------------------------------------------------------------------------------------

  function Branched(entries: seq<Entry>): seq<Entry> { Filter(entries, (e: Entry) => e.IsBranched()) }

  lemma {:induction false} FilterElements<T>(s: seq<T>, keep: T -> bool)
    ensures forall x :: x in Filter(s, keep) <==> x in s && keep(x)
  {
    if s != [] {
      FilterElements(s[..|s| - 1], keep);
      assert s == s[..|s| - 1] + [s[|s| - 1]];
    }
  }

  lemma FilterSnoc<T>(s: seq<T>, x: T, keep: T -> bool)
    ensures Filter(s + [x], keep) == Filter(s, keep) + if keep(x) then [x] else []
  {
    assert (s + [x])[..|s|] == s;
  }

  function Both<T>(f: T -> bool, g: T -> bool): T -> bool { x => f(x) && g(x) }

  lemma {:induction false} FilterTwice<T>(s: seq<T>, f: T -> bool, g: T -> bool)
    ensures Filter(Filter(s, f), g) == Filter(s, Both(f, g))
  {
    if s != [] {
      FilterTwice(s[..|s| - 1], f, g);
      FilterSnoc(Filter(s[..|s| - 1], f), s[|s| - 1], g);
      if !f(s[|s| - 1]) {
        assert Filter(s, f) == Filter(s[..|s| - 1], f);
      }
    }
  }

  lemma UniqueFront(entries: seq<Entry>)
    requires UniqueIds(entries) && entries != []
    ensures UniqueIds(entries[..|entries| - 1])
  {
  }

  /** Looked up among the branched entries only, an entry is found exactly if it is found at all and is branched. */
  lemma {:induction false} BranchedById(entries: seq<Entry>)
    requires UniqueIds(entries)
    ensures ById(Branched(entries)) == BranchedOf(ById(entries))
  {
    if entries != [] {
      var front, last := entries[..|entries| - 1], entries[|entries| - 1];
      UniqueFront(entries);
      BranchedById(front);
      if last.IsBranched() {
        assert Branched(entries) == Branched(front) + [last];
        assert (Branched(front) + [last])[..|Branched(front)|] == Branched(front);
        if last.id.Some? {
          assert BranchedOf(ById(entries)) == BranchedOf(ById(front))[last.id.value := last];
        }
      } else if last.id.Some? {
        ByIdMeaning(front);
        assert last.id.value !in ById(front);
        assert Branched(entries) == Branched(front);
        assert BranchedOf(ById(entries)) == BranchedOf(ById(front));
      } else {
        assert Branched(entries) == Branched(front);
        assert ById(entries) == ById(front);
      }
    }
  }

  lemma AnswersMeans(entries: seq<Entry>, parent: Id, id: Id)
    requires UniqueIds(entries)
    ensures Answers(entries, parent, id) <==> id in ById(entries) && ById(entries)[id].ReplyTo() == Some(parent)
  {
    ByIdMeaning(entries);
    if Answers(entries, parent, id) {
      var i :| 0 <= i < |entries| && entries[i].id == Some(id) && entries[i].ReplyTo() == Some(parent);
      assert entries[i] in entries;
    }
    if id in ById(entries) && ById(entries)[id].ReplyTo() == Some(parent) {
      var i :| 0 <= i < |entries| && entries[i] == ById(entries)[id];
    }
  }

  lemma {:induction false} PathDescends(entries: seq<Entry>, root: Id, path: seq<Id>)
    requires UniqueIds(entries) && Below(entries, root, path) && |path| >= 2
    ensures var id, byId := path[|path| - 1], ById(entries);
      id in byId && byId[id].IsBranched() && Descends(BranchedOf(byId), byId[id], root, |path| - 1)
  {
    hide ById, Answers;
    var id, parent := path[|path| - 1], path[|path| - 2];
    assert IsChild(entries, parent, id);
    AnswersMeans(entries, parent, id);
    if |path| > 2 {
      PathDescends(entries, root, path[..|path| - 1]);
    }
  }

  lemma {:induction false} DescentIsPath(entries: seq<Entry>, root: Id, id: Id, n: nat)
    requires UniqueIds(entries) && id in ById(entries) && ById(entries)[id].IsBranched()
    requires Descends(BranchedOf(ById(entries)), ById(entries)[id], root, n)
    ensures InThread(entries, root, id)
    decreases n
  {
    hide ById, Answers, InThread;
    var parent := ById(entries)[id].ReplyTo().value;
    AnswersMeans(entries, parent, id);
    assert IsChild(entries, parent, id);
    if n == 1 {
      RootInThread(entries, root);
    } else {
      DescentIsPath(entries, root, parent, n - 1);
    }
    ChildInThread(entries, root, parent, id);
  }

  ghost predicate IsRoot(entries: seq<Entry>, root: Id) { root in ById(entries) && !ById(entries)[root].IsBranched() }

  lemma PathTo(entries: seq<Entry>, root: Id, id: Id) returns (path: seq<Id>)
    requires InThread(entries, root, id) && id != root
    ensures |path| >= 2 && Below(entries, root, path) && path[|path| - 1] == id
  {
    path :| Below(entries, root, path) && path[|path| - 1] == id;
  }

  /** An entry is found below a root exactly if it is branched and its chase ends at that root. */
  lemma TwoWays(entries: seq<Entry>, root: Id, e: Entry)
    requires UniqueIds(entries) && IsRoot(entries, root) && e in entries && e.id.Some?
    ensures (InThread(entries, root, e.id.value) && e.id.value != root) <==>
      e.IsBranched() && RootIn(ById(entries), e) == Some(root)
  {
    hide ById, Below, BranchRoot;
    var byId, id := ById(entries), e.id.value;
    ByIdMeaning(entries);
    RootIffDescends(BranchedOf(byId), e, root);
    if InThread(entries, root, id) && id != root {
      var path := PathTo(entries, root, id);
      PathDescends(entries, root, path);
    }
    if e.IsBranched() && RootIn(byId, e) == Some(root) {
      var n :| Descends(BranchedOf(byId), e, root, n);
      DescentIsPath(entries, root, id, n);
    }
  }

  /** Below a root, the search finds the root itself and, in transcript order, what the chases find of the branched
      entries that have an id. */
  lemma ThreadIsRootAndDescendants(entries: seq<Entry>, root: Id)
    requires UniqueIds(entries) && IsRoot(entries, root)
    ensures
      Filter(ThreadEntries(entries, root), (e: Entry) => e.id != Some(root)) ==
      Filter(Descendants(Branched(entries), root), (e: Entry) => e.id.Some?)
    ensures Filter(ThreadEntries(entries, root), (e: Entry) => e.id == Some(root)) == [ById(entries)[root]]
    ensures |ThreadEntries(entries, root)| ==
      1 + |Filter(Descendants(Branched(entries), root), (e: Entry) => e.id.Some?)|
  {
    hide ById, InThread, RootIn, UniqueIds;
    var byId, branchedById := ById(entries), ById(Branched(entries));
    var found := (e: Entry) => e.id.Some? && InThread(entries, root, e.id.value);
    var isRoot, isOther := (e: Entry) => e.id == Some(root), (e: Entry) => e.id != Some(root);
    var branched, rooted := (e: Entry) => e.IsBranched(), (e: Entry) => BranchRoot(branchedById, e) == Some(root);
    var hasId := (e: Entry) => e.id.Some?;
    FilterTwice(entries, found, isOther);
    FilterTwice(entries, found, isRoot);
    FilterTwice(entries, branched, rooted);
    FilterTwice(entries, Both(branched, rooted), hasId);
    RootInThread(entries, root);
    forall e | e in entries
      ensures Both(found, isOther)(e) == Both(Both(branched, rooted), hasId)(e) && Both(found, isRoot)(e) == isRoot(e)
    {
      SameChase(entries, root, e);
    }
    FilterSame(entries, Both(found, isOther), Both(Both(branched, rooted), hasId));
    FilterSame(entries, Both(found, isRoot), isRoot);
    OneRoot(entries, root);
    FilterSplits(ThreadEntries(entries, root), isRoot, isOther);
  }

  lemma SameChase(entries: seq<Entry>, root: Id, e: Entry)
    requires UniqueIds(entries) && IsRoot(entries, root) && e in entries
    ensures
      e.id.Some? && InThread(entries, root, e.id.value) && e.id != Some(root) <==>
      e.id.Some? && e.IsBranched() && BranchRoot(ById(Branched(entries)), e) == Some(root)
  {
    hide ById, InThread, BranchRoot, UniqueIds;
    BranchedById(entries);
    if e.id.Some? {
      TwoWays(entries, root, e);
    }
  }

  /** Where something is counted, the count is the thread's size without its root exactly if the root is in the
      transcript and all that is counted has ids. */
  lemma CountIsThreadSizeIff(entries: seq<Entry>, root: Id)
    requires UniqueIds(entries) && Descendants(Branched(entries), root) != []
    ensures
      |ThreadEntries(entries, root)| == 1 + |Descendants(Branched(entries), root)| <==>
      root in ById(entries) && forall e :: e in Descendants(Branched(entries), root) ==> e.id.Some?
  {
    hide ById, ThreadEntries, UniqueIds;
    var below := Descendants(Branched(entries), root);
    if root !in ById(entries) {
      MissingThread(entries, root);
    } else {
      CountedRootIsRoot(entries, root);
      ThreadIsRootAndDescendants(entries, root);
      var hasId, hasNone := (e: Entry) => e.id.Some?, (e: Entry) => e.id.None?;
      FilterSplits(below, hasId, hasNone);
      FilterElements(below, hasNone);
      if Filter(below, hasNone) != [] {
        assert Filter(below, hasNone)[0] in below;
      }
    }
  }

  lemma MissingThread(entries: seq<Entry>, root: Id)
    requires root !in ById(entries)
    ensures ThreadEntries(entries, root) == []
  {
  }

  lemma CountedRootIsRoot(entries: seq<Entry>, root: Id)
    requires UniqueIds(entries) && Descendants(Branched(entries), root) != [] && root in ById(entries)
    ensures IsRoot(entries, root)
  {
    hide ById, UniqueIds;
    var branched := Branched(entries);
    var e := Descendants(branched, root)[0];
    FilterElements(branched, (e: Entry) => BranchRoot(ById(branched), e) == Some(root));
    assert e in Descendants(branched, root);
    BranchedById(entries);
    var n := ChaseIsDescent(BranchedOf(ById(entries)), e, OwnId(e));
  }

  lemma {:induction false} FilterSplits<T>(s: seq<T>, f: T -> bool, g: T -> bool)
    requires forall x :: x in s ==> f(x) != g(x)
    ensures |Filter(s, f)| + |Filter(s, g)| == |s|
  {
    if s != [] {
      FilterSplits(s[..|s| - 1], f, g);
    }
  }

  lemma {:induction false} FilterNone<T>(s: seq<T>, keep: T -> bool)
    requires forall x :: x in s ==> !keep(x)
    ensures Filter(s, keep) == []
  {
    if s != [] {
      FilterNone(s[..|s| - 1], keep);
    }
  }

  lemma {:induction false} OneRoot(entries: seq<Entry>, root: Id)
    requires UniqueIds(entries) && root in ById(entries)
    ensures Filter(entries, (e: Entry) => e.id == Some(root)) == [ById(entries)[root]]
  {
    var front, last := entries[..|entries| - 1], entries[|entries| - 1];
    ByIdMeaning(entries);
    UniqueFront(entries);
    if last.id == Some(root) {
      FilterNone(front, (e: Entry) => e.id == Some(root));
    } else {
      OneRoot(front, root);
    }
  }

  // Every entry has one place ----------------------------------------------------------------------------------------

  /** The threads an entry is listed in, other than as the root. */
  ghost predicate ListedUnder(entries: seq<Entry>, root: Id, e: Entry) {
    IsRoot(entries, root) && e in ThreadEntries(entries, root) && e.id != Some(root)
  }

  /** With unique ids, an entry with an id is either a main entry, or listed below one root and no other. */
  lemma OnePlaceEach(entries: seq<Entry>, e: Entry)
    requires UniqueIds(entries) && e in entries && e.id.Some?
    ensures e in MainEntries(entries) <==> !exists root :: ListedUnder(entries, root, e)
    ensures forall r1, r2 :: ListedUnder(entries, r1, e) && ListedUnder(entries, r2, e) ==> r1 == r2
  {
    hide ById, InThread, UniqueIds, RootIn;
    var byId := ById(entries);
    FilterElements(entries, (x: Entry) => !IsThreadMessage(byId, x));
    forall root
      ensures ListedUnder(entries, root, e) <==> e.IsBranched() && RootIn(byId, e) == Some(root)
    {
      ListedIffRooted(entries, root, e);
    }
    if e !in MainEntries(entries) {
      assert ListedUnder(entries, RootIn(byId, e).value, e);
    }
  }

  lemma ListedIffRooted(entries: seq<Entry>, root: Id, e: Entry)
    requires UniqueIds(entries) && e in entries && e.id.Some?
    ensures ListedUnder(entries, root, e) <==> e.IsBranched() && RootIn(ById(entries), e) == Some(root)
  {
    hide ById, InThread, UniqueIds, BranchRoot;
    FilterElements(entries, (x: Entry) => x.id.Some? && InThread(entries, root, x.id.value));
    if RootIn(ById(entries), e).Some? {
      RootIsNotBranched(entries, e);
    }
    if IsRoot(entries, root) {
      TwoWays(entries, root, e);
    }
  }

  lemma RootIsNotBranched(entries: seq<Entry>, e: Entry)
    requires RootIn(ById(entries), e).Some?
    ensures IsRoot(entries, RootIn(ById(entries), e).value)
  {
    hide ById;
    var n := ChaseIsDescent(BranchedOf(ById(entries)), e, OwnId(e));
  }

  /** Nothing is lost from the main entries and the threads together exactly if every thread message has an id. */
  lemma NothingIsLostIff(entries: seq<Entry>)
    requires UniqueIds(entries)
    ensures
      (forall e :: e in entries ==> e in MainEntries(entries) || exists root :: ListedUnder(entries, root, e)) <==>
      (forall e :: e in entries && IsThreadMessage(ById(entries), e) ==> e.id.Some?)
  {
    hide ById, InThread, UniqueIds, RootIn;
    var byId := ById(entries);
    FilterElements(entries, (x: Entry) => !IsThreadMessage(byId, x));
    forall e | e in entries
      ensures e in MainEntries(entries) || (exists root :: ListedUnder(entries, root, e)) <==>
        !IsThreadMessage(byId, e) || e.id.Some?
    {
      if e.id.Some? {
        OnePlaceEach(entries, e);
      } else {
        forall root
          ensures !ListedUnder(entries, root, e)
        {
          FilterElements(entries, (x: Entry) => x.id.Some? && InThread(entries, root, x.id.value));
        }
      }
    }
  }

  /** A branched entry whose root is missing is counted, but it is in no thread: it stays a main entry. */
  lemma MissingRootsAreCounted(entries: seq<Entry>, e: Entry, root: Id)
    requires UniqueIds(entries) && e in entries && e.id.Some? && e.IsBranched()
    requires BranchRoot(ById(Branched(entries)), e) == Some(root) && root !in ById(entries)
    ensures e in Descendants(Branched(entries), root) && e in MainEntries(entries) && ThreadEntries(entries, root) == []
  {
    hide ById, BranchRoot;
    BranchedById(entries);
    FilterElements(entries, (x: Entry) => x.IsBranched());
    FilterElements(Branched(entries), (x: Entry) => BranchRoot(ById(Branched(entries)), x) == Some(root));
    FilterElements(entries, (x: Entry) => !IsThreadMessage(ById(entries), x));
  }
}
