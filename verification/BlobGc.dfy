/** The mark phase of the conversation blob collector: which blobs a conversation state still needs. */
module BlobGc {
  import opened Options
  import opened Sets

  type HexId = string
  type Bytes = seq<bv8>

  /** A decoded protobuf message, as far as the walk looks at it. */
  datatype Message = Message(typeName: string, fields: seq<Field>)

  /** The value of a field: blob ids where the metadata says so, nested messages (single, repeated or in a map), or
      anything else. */
  datatype Field =
    | Unset
    | BlobIds(protoFieldName: string, blobReferenceType: string, ids: seq<HexId>)
    | Messages(entries: seq<Message>)
    | Other

  const EDGES_NOT_WALKED := {
    "agent.v1.UserMessage.conversation_state_blob_id",
    "agent.v1.ConversationStateStructure.summary_archive",
    "agent.v1.ConversationStateStructure.summary_archives"
  }

  const ROOT_TYPE := "agent.v1.ConversationStateStructure"

  /** The blobs, and how they decode: which reference types name a message, and what a blob holds as such. */
  datatype Store = Store(
    blobs: map<HexId, Bytes>,
    isProtoType: string -> bool,
    decode: (string, Bytes) -> Option<Message>)

  /** A reference to a blob, as a value of a type. */
  datatype Ref = Ref(id: HexId, kind: string)

  // The references that a message makes, in the order they are met ------------------------------------------------

  function IdRefs(ids: seq<HexId>, kind: string): seq<Ref> {
    if ids == [] then [] else (if ids[0] == "" then [] else [Ref(ids[0], kind)]) + IdRefs(ids[1..], kind)
  }

  function FieldRefs(typeName: string, f: Field): seq<Ref>
    decreases f, 0
  {
    match f
    case BlobIds(name, kind, ids) => if typeName + "." + name in EDGES_NOT_WALKED then [] else IdRefs(ids, kind)
    case Messages(entries) => EntriesRefs(entries)
    case _ => []
  }

  function FieldsRefs(typeName: string, fields: seq<Field>): seq<Ref>
    decreases fields, 1
  {
    if fields == [] then [] else FieldRefs(typeName, fields[0]) + FieldsRefs(typeName, fields[1..])
  }

  function MessageRefs(m: Message): seq<Ref>
    decreases m, 2
  {
    FieldsRefs(m.typeName, m.fields)
  }

  function EntriesRefs(entries: seq<Message>): seq<Ref>
    decreases entries, 3
  {
    if entries == [] then [] else MessageRefs(entries[0]) + EntriesRefs(entries[1..])
  }

  // What a message refers to, said without the order ---------------------------------------------------------------

  predicate IsExcluded(edge: string) {
    || edge == "agent.v1.UserMessage.conversation_state_blob_id"
    || edge == "agent.v1.ConversationStateStructure.summary_archive"
    || edge == "agent.v1.ConversationStateStructure.summary_archives"
  }

  /** Some field, at any depth, holds the id as a blob of that type. */
  ghost predicate RefersTo(m: Message, r: Ref)
    decreases m, 1
  {
    exists i :: 0 <= i < |m.fields| && FieldRefersTo(m.typeName, m.fields[i], r)
  }

  ghost predicate FieldRefersTo(typeName: string, f: Field, r: Ref)
    decreases f, 0
  {
    match f
    case BlobIds(name, kind, ids) => r.id in ids && r.id != "" && r.kind == kind && !IsExcluded(typeName + "." + name)
    case Messages(entries) => exists j :: 0 <= j < |entries| && RefersTo(entries[j], r)
    case _ => false
  }

  lemma {:induction false} IdRefsIff(ids: seq<HexId>, kind: string, r: Ref)
    ensures r in IdRefs(ids, kind) <==> r.id in ids && r.id != "" && r.kind == kind
  {
    if ids != [] {
      IdRefsIff(ids[1..], kind, r);
    }
  }

  /** Every reference of a message is followed, of all its fields and all the messages in them, and no other. */
  lemma {:induction false} MessageRefsIff(m: Message, r: Ref)
    ensures r in MessageRefs(m) <==> RefersTo(m, r)
    decreases m, 2
  {
    hide FieldRefersTo, FieldRefs;
    FieldsRefsIff(m.typeName, m.fields, r);
  }

  lemma {:induction false} FieldsRefsIff(typeName: string, fields: seq<Field>, r: Ref)
    ensures r in FieldsRefs(typeName, fields) <==>
      exists i :: 0 <= i < |fields| && FieldRefersTo(typeName, fields[i], r)
    decreases fields, 1
  {
    hide FieldRefersTo, FieldRefs;
    if fields != [] {
      FieldRefsIff(typeName, fields[0], r);
      FieldsRefsIff(typeName, fields[1..], r);
      forall i | 0 <= i < |fields[1..]|
        ensures fields[1..][i] == fields[i + 1]
      {
      }
      if i :| 0 <= i < |fields| && FieldRefersTo(typeName, fields[i], r) {
        assert i > 0 ==> FieldRefersTo(typeName, fields[1..][i - 1], r);
      }
    }
  }

  lemma {:induction false} FieldRefsIff(typeName: string, f: Field, r: Ref)
    ensures r in FieldRefs(typeName, f) <==> FieldRefersTo(typeName, f, r)
    decreases f, 0
  {
    hide RefersTo, IdRefs, EntriesRefs;
    match f
    case BlobIds(name, kind, ids) => IdRefsIff(ids, kind, r);
    case Messages(entries) => EntriesRefsIff(entries, r);
    case _ =>
  }

  lemma {:induction false} EntriesRefsIff(entries: seq<Message>, r: Ref)
    ensures r in EntriesRefs(entries) <==> exists j :: 0 <= j < |entries| && RefersTo(entries[j], r)
    decreases entries, 3
  {
    hide RefersTo, MessageRefs;
    if entries != [] {
      MessageRefsIff(entries[0], r);
      EntriesRefsIff(entries[1..], r);
      forall j | 0 <= j < |entries[1..]|
        ensures entries[1..][j] == entries[j + 1]
      {
      }
      if j :| 0 <= j < |entries| && RefersTo(entries[j], r) {
        assert j > 0 ==> RefersTo(entries[1..][j - 1], r);
      }
    }
  }

  /** Nothing is followed at the three edges that are left out. */
  lemma ExcludedEdges(kind: string, ids: seq<HexId>)
    ensures FieldRefs("agent.v1.UserMessage", BlobIds("conversation_state_blob_id", kind, ids)) == []
    ensures FieldRefs("agent.v1.ConversationStateStructure", BlobIds("summary_archive", kind, ids)) == []
    ensures FieldRefs("agent.v1.ConversationStateStructure", BlobIds("summary_archives", kind, ids)) == []
  {
    EdgeNames();
    ExcludedEdge("agent.v1.UserMessage", "conversation_state_blob_id", kind, ids);
    ExcludedEdge("agent.v1.ConversationStateStructure", "summary_archive", kind, ids);
    ExcludedEdge("agent.v1.ConversationStateStructure", "summary_archives", kind, ids);
  }

  lemma ExcludedEdge(typeName: string, name: string, kind: string, ids: seq<HexId>)
    requires IsExcluded(typeName + "." + name)
    ensures FieldRefs(typeName, BlobIds(name, kind, ids)) == []
  {
  }

  lemma EdgeNames()
    ensures IsExcluded("agent.v1.UserMessage" + "." + "conversation_state_blob_id")
    ensures IsExcluded("agent.v1.ConversationStateStructure" + "." + "summary_archive")
    ensures IsExcluded("agent.v1.ConversationStateStructure" + "." + "summary_archives")
  {
    hide IsExcluded;
    UserMessageEdge();
    ArchiveEdge();
    ArchivesEdge();
  }

  lemma UserMessageEdge()
    ensures IsExcluded("agent.v1.UserMessage" + "." + "conversation_state_blob_id")
  {
    assert "agent.v1.UserMessage" + "." + "conversation_state_blob_id" ==
      "agent.v1.UserMessage.conversation_state_blob_id";
  }

  lemma ArchiveEdge()
    ensures IsExcluded("agent.v1.ConversationStateStructure" + "." + "summary_archive")
  {
    assert "agent.v1.ConversationStateStructure" + "." + "summary_archive" ==
      "agent.v1.ConversationStateStructure.summary_archive";
  }

  lemma ArchivesEdge()
    ensures IsExcluded("agent.v1.ConversationStateStructure" + "." + "summary_archives")
  {
    assert "agent.v1.ConversationStateStructure" + "." + "summary_archives" ==
      "agent.v1.ConversationStateStructure.summary_archives";
  }

  /** The references come in the order of the fields, of the entries in a field, and of the ids in a field. */
  lemma {:induction false} RefsInOrder(typeName: string, a: seq<Field>, b: seq<Field>)
    ensures MessageRefs(Message(typeName, a + b)) ==
      MessageRefs(Message(typeName, a)) + MessageRefs(Message(typeName, b))
  {
    hide FieldRefs;
    if a == [] {
      assert a + b == b;
    } else {
      RefsInOrder(typeName, a[1..], b);
      assert (a + b)[1..] == a[1..] + b;
    }
  }

  lemma {:induction false} EntriesInOrder(a: seq<Message>, b: seq<Message>)
    ensures EntriesRefs(a + b) == EntriesRefs(a) + EntriesRefs(b)
  {
    hide EntriesRefs;
    NoEntries();
    if a == [] {
      assert a + b == b;
    } else {
      EntriesInOrder(a[1..], b);
      FirstEntry(a);
      FirstEntry(a + b);
      assert (a + b)[1..] == a[1..] + b;
    }
  }

  lemma NoEntries()
    ensures EntriesRefs([]) == []
  {
  }

  lemma FirstEntry(entries: seq<Message>)
    requires entries != []
    ensures EntriesRefs(entries) == MessageRefs(entries[0]) + EntriesRefs(entries[1..])
  {
  }

  lemma {:induction false} IdsInOrder(a: seq<HexId>, b: seq<HexId>, kind: string)
    ensures IdRefs(a + b, kind) == IdRefs(a, kind) + IdRefs(b, kind)
  {
    hide IdRefs;
    if a == [] {
      assert a + b == b;
      NoIdRefs(kind);
    } else {
      IdsInOrder(a[1..], b, kind);
      IdRefsCons(a, kind);
      IdRefsCons(a + b, kind);
      assert (a + b)[1..] == a[1..] + b;
    }
  }

  // The walk -----------------------------------------------------------------------------------------------------

  /** What a reference leads to: nothing when its type is no message type, and None when it cannot be resolved. */
  function Target(s: Store, r: Ref): Option<seq<Ref>> {
    if !s.isProtoType(r.kind) then Some([])
    else if r.id !in s.blobs then None
    else
      match s.decode(r.kind, s.blobs[r.id])
      case None => None
      case Some(child) => Some(MessageRefs(child))
  }

  function Children(s: Store, r: Ref): seq<Ref> {
    match Target(s, r)
    case None => []
    case Some(refs) => refs
  }

  /** A message type names the blob, which is missing or does not decode as it. */
  predicate IsUnresolved(s: Store, r: Ref) {
    s.isProtoType(r.kind) && (r.id !in s.blobs || s.decode(r.kind, s.blobs[r.id]).None?)
  }

  /** What is counted is what cannot be resolved, and what is followed is every reference of a blob that decodes. */
  lemma TargetMeans(s: Store, r: Ref, c: Ref)
    ensures Target(s, r).None? <==> IsUnresolved(s, r)
    ensures c in Children(s, r) <==>
      && s.isProtoType(r.kind) && !IsUnresolved(s, r)
      && RefersTo(s.decode(r.kind, s.blobs[r.id]).value, c)
  {
    hide MessageRefs, RefersTo;
    if s.isProtoType(r.kind) && !IsUnresolved(s, r) {
      MessageRefsIff(s.decode(r.kind, s.blobs[r.id]).value, c);
    }
  }

  /** Which ids were reached, each with the type it was first reached as, and how many did not resolve. */
  datatype Walk = Walk(reachedAs: map<HexId, string>, unresolved: nat)

  function Reach(s: Store, w: Walk, r: Ref): Walk {
    Walk(w.reachedAs[r.id := r.kind], w.unresolved + if Target(s, r).None? then 1 else 0)
  }

  /** Follows references depth first: the children of a newly reached blob come before the references still to do. */
  function Visit(s: Store, w: Walk, todo: seq<Ref>): (r: Walk)
    ensures w.reachedAs.Keys <= r.reachedAs.Keys
    ensures forall id :: id in w.reachedAs ==> r.reachedAs[id] == w.reachedAs[id]
    decreases Unvisited(s, w), |todo|
  {
    hide Children, Unvisited, Target;
    if todo == [] then w
    else
      var r := todo[0];
      if r.id in w.reachedAs then Visit(s, w, todo[1..])
      else
        VisitTerminates(s, w, todo);
        Visit(s, Reach(s, w, r), Children(s, r) + todo[1..])
  }

  ghost function Unvisited(s: Store, w: Walk): nat { |s.blobs.Keys - w.reachedAs.Keys| }

  lemma ReachShrinks(s: Store, w: Walk, r: Ref)
    requires r.id !in w.reachedAs
    ensures r.id in s.blobs ==> Unvisited(s, Reach(s, w, r)) < Unvisited(s, w)
    ensures r.id !in s.blobs ==> Unvisited(s, Reach(s, w, r)) == Unvisited(s, w)
  {
    hide Target;
    assert Reach(s, w, r).reachedAs.Keys == w.reachedAs.Keys + {r.id};
    Shrinks(s.blobs.Keys, w.reachedAs.Keys, r.id);
  }

  /** Reaching a stored blob leaves fewer to reach; reaching any other adds nothing to do. */
  lemma VisitTerminates(s: Store, w: Walk, todo: seq<Ref>)
    requires todo != [] && todo[0].id !in w.reachedAs
    ensures
      var w' := Reach(s, w, todo[0]);
      || Unvisited(s, w') < Unvisited(s, w)
      || (Unvisited(s, w') == Unvisited(s, w) && |Children(s, todo[0]) + todo[1..]| < |todo|)
  {
    hide Children, Target, Reach, Unvisited;
    ReachShrinks(s, w, todo[0]);
    if todo[0].id !in s.blobs {
      MissingBlobsLeadNowhere(s, todo[0]);
    }
  }

  lemma MissingBlobsLeadNowhere(s: Store, r: Ref)
    requires r.id !in s.blobs
    ensures Children(s, r) == []
  {
    hide MessageRefs;
  }

  /** Doing one list after another is doing their concatenation. */
  lemma {:induction false} VisitConcat(s: Store, w: Walk, a: seq<Ref>, b: seq<Ref>)
    ensures Visit(s, w, a + b) == Visit(s, Visit(s, w, a), b)
    decreases Unvisited(s, w), |a|
  {
    hide Children, Target, Unvisited;
    if a == [] {
      assert a + b == b;
    } else {
      var r := a[0];
      assert (a + b)[0] == r && (a + b)[1..] == a[1..] + b;
      if r.id in w.reachedAs {
        VisitConcat(s, w, a[1..], b);
      } else {
        VisitTerminates(s, w, a);
        VisitConcat(s, Reach(s, w, r), Children(s, r) + a[1..], b);
        assert Children(s, r) + (a[1..] + b) == (Children(s, r) + a[1..]) + b;
      }
    }
  }

  lemma EmptyIdRefs(kind: string)
    ensures IdRefs([""], kind) == []
  {
  }

  lemma NoIdRefs(kind: string)
    ensures IdRefs([], kind) == []
  {
  }

  lemma TargetCases(s: Store, r: Ref)
    ensures !s.isProtoType(r.kind) ==> Target(s, r).Some? && Children(s, r) == []
    ensures s.isProtoType(r.kind) && r.id !in s.blobs ==> Target(s, r).None? && Children(s, r) == []
    ensures s.isProtoType(r.kind) && r.id in s.blobs ==>
      match s.decode(r.kind, s.blobs[r.id])
      case None => Target(s, r).None? && Children(s, r) == []
      case Some(child) => Target(s, r).Some? && Children(s, r) == MessageRefs(child)
  {
    hide MessageRefs;
  }

  lemma IdRefsCons(ids: seq<HexId>, kind: string)
    requires ids != []
    ensures IdRefs(ids, kind) == IdRefs([ids[0]], kind) + IdRefs(ids[1..], kind)
  {
    assert [ids[0]][1..] == [];
  }

  lemma VisitNothing(s: Store, w: Walk)
    ensures Visit(s, w, []) == w
  {
  }

  lemma VisitGrows(s: Store, w: Walk, todo: seq<Ref>)
    ensures Unvisited(s, Visit(s, w, todo)) <= Unvisited(s, w)
  {
    hide Visit;
    FewerAreLeft(s.blobs.Keys, w.reachedAs.Keys, Visit(s, w, todo).reachedAs.Keys);
  }

  lemma FewerAreLeft(all: set<HexId>, before: set<HexId>, after: set<HexId>)
    requires before <= after
    ensures |all - after| <= |all - before|
  {
    assert all - before == (all - after) + (all * (after - before));
  }

  lemma VisitOne(s: Store, w: Walk, r: Ref)
    requires r.id != ""
    ensures IdRefs([r.id], r.kind) == [r]
    ensures Visit(s, w, [r]) == if r.id in w.reachedAs then w else Visit(s, Reach(s, w, r), Children(s, r))
  {
    hide Children, Target;
    assert [r.id][1..] == [];
    assert [r][1..] == [];
    assert Children(s, r) + [] == Children(s, r);
  }

  /** The collector's own form: two visitors that call each other and fill a set and a counter. */
  class Collector {
    const s: Store
    var reachableHexIds: set<HexId>
    var unresolvedProtoRefs: nat
    ghost var reachedAs: map<HexId, string>

    ghost predicate Valid() reads this { reachableHexIds == reachedAs.Keys }

    ghost function State(): Walk reads this { Walk(reachedAs, unresolvedProtoRefs) }

    constructor (s: Store)
      ensures this.s == s && Valid() && State() == Walk(map[], 0)
    {
      this.s := s;
      reachableHexIds := {};
      unresolvedProtoRefs := 0;
      reachedAs := map[];
    }

    method VisitBlobReference(id: HexId, kind: string)
      requires Valid()
      modifies this
      ensures Valid()
      ensures State() == Visit(s, old(State()), IdRefs([id], kind))
      decreases Unvisited(s, State()), 0
    {
      hide MessageRefs, Visit, IdRefs, Children, Unvisited;
      ghost var w := State();
      if id == "" {
        EmptyIdRefs(kind);
        VisitNothing(s, w);
        return;
      }
      var r := Ref(id, kind);
      VisitOne(s, w, r);
      if id in reachableHexIds {
        return;
      }
      ReachShrinks(s, w, r);
      reachableHexIds := reachableHexIds + {id};
      reachedAs := reachedAs[id := kind];
      TargetCases(s, r);
      VisitNothing(s, Reach(s, w, r));
      if !s.isProtoType(kind) {
        return;
      }
      if id !in s.blobs {
        unresolvedProtoRefs := unresolvedProtoRefs + 1;
        return;
      }
      match s.decode(kind, s.blobs[id])
      case None =>
        unresolvedProtoRefs := unresolvedProtoRefs + 1;
      case Some(child) =>
        assert State() == Reach(s, w, r);
        VisitMessage(child);
    }

    method VisitMessage(m: Message)
      requires Valid()
      modifies this
      ensures Valid()
      ensures State() == Visit(s, old(State()), MessageRefs(m))
      decreases Unvisited(s, State()), 2, m
    {
      hide Visit, Target, Children, Unvisited;
      for i := 0 to |m.fields|
        invariant Valid() && Unvisited(s, State()) <= Unvisited(s, old(State()))
        invariant Visit(s, State(), FieldsRefs(m.typeName, m.fields[i..])) == Visit(s, old(State()), MessageRefs(m))
      {
        ghost var before := State();
        var f := m.fields[i];
        match f {
          case BlobIds(name, kind, ids) =>
            if m.typeName + "." + name !in EDGES_NOT_WALKED {
              VisitIds(ids, kind);
            } else {
              VisitNothing(s, State());
            }
          case Messages(entries) =>
            VisitEntries(entries);
          case _ =>
            VisitNothing(s, State());
        }
        assert State() == Visit(s, before, FieldRefs(m.typeName, f));
        VisitGrows(s, before, FieldRefs(m.typeName, f));
        assert m.fields[i..][0] == f && m.fields[i..][1..] == m.fields[i + 1..];
        VisitConcat(s, before, FieldRefs(m.typeName, f), FieldsRefs(m.typeName, m.fields[i + 1..]));
      }
      assert m.fields[|m.fields|..] == [];
      VisitNothing(s, State());
    }

    method VisitEntries(entries: seq<Message>)
      requires Valid()
      modifies this
      ensures Valid()
      ensures State() == Visit(s, old(State()), EntriesRefs(entries))
      decreases Unvisited(s, State()), 2, entries
    {
      hide Visit, MessageRefs, Target, Children, Unvisited;
      for j := 0 to |entries|
        invariant Valid() && Unvisited(s, State()) <= Unvisited(s, old(State()))
        invariant Visit(s, State(), EntriesRefs(entries[j..])) == Visit(s, old(State()), EntriesRefs(entries))
      {
        ghost var before := State();
        VisitMessage(entries[j]);
        VisitGrows(s, before, MessageRefs(entries[j]));
        assert entries[j..][0] == entries[j] && entries[j..][1..] == entries[j + 1..];
        VisitConcat(s, before, MessageRefs(entries[j]), EntriesRefs(entries[j + 1..]));
      }
      assert entries[|entries|..] == [];
      VisitNothing(s, State());
    }

    method VisitIds(ids: seq<HexId>, kind: string)
      requires Valid()
      modifies this
      ensures Valid()
      ensures State() == Visit(s, old(State()), IdRefs(ids, kind))
      decreases Unvisited(s, State()), 1
    {
      hide Visit, IdRefs, MessageRefs, Target, Children, Unvisited;
      assert ids[0..] == ids;
      for i := 0 to |ids|
        invariant Valid() && Unvisited(s, State()) <= Unvisited(s, old(State()))
        invariant Visit(s, State(), IdRefs(ids[i..], kind)) == Visit(s, old(State()), IdRefs(ids, kind))
      {
        ghost var before := State();
        VisitBlobReference(ids[i], kind);
        VisitGrows(s, before, IdRefs([ids[i]], kind));
        assert ids[i..][0] == ids[i] && ids[i..][1..] == ids[i + 1..];
        IdRefsCons(ids[i..], kind);
        VisitConcat(s, before, IdRefs([ids[i]], kind), IdRefs(ids[i + 1..], kind));
      }
      assert ids[|ids|..] == [];
      NoIdRefs(kind);
      VisitNothing(s, State());
    }
  }

  function Mark(s: Store, root: Message): Walk {
    Visit(s, Walk(map[], 0), MessageRefs(root))
  }

  /** None when the root blob does not decode. */
  method CollectReachableBlobHexIds(s: Store, rootBytes: Bytes) returns (r: Option<(set<HexId>, nat)>)
    ensures match s.decode(ROOT_TYPE, rootBytes)
      case None => r == None
      case Some(root) => r == Some((Mark(s, root).reachedAs.Keys, Mark(s, root).unresolved))
  {
    match s.decode(ROOT_TYPE, rootBytes)
    case None =>
      r := None;
    case Some(root) =>
      var collector := new Collector(s);
      collector.VisitMessage(root);
      r := Some((collector.reachableHexIds, collector.unresolvedProtoRefs));
  }

  // Exactness ----------------------------------------------------------------------------------------------------

  /** `r` is reached from the roots by following references, at most `n` of them. */
  ghost predicate ReachableIn(s: Store, roots: seq<Ref>, r: Ref, n: nat)
    decreases n
  {
    if n == 0 then r in roots else exists p :: ReachableIn(s, roots, p, n - 1) && r in Children(s, p)
  }

  ghost predicate Reachable(s: Store, roots: seq<Ref>, r: Ref) {
    exists n: nat :: ReachableIn(s, roots, r, n)
  }

  ghost predicate ClosedUnderReferences(s: Store, roots: seq<Ref>, all: iset<Ref>) {
    && (forall r :: r in roots ==> r in all)
    && (forall p, r :: p in all && r in Children(s, p) ==> r in all)
  }

  /** What is reachable lies in every set that is closed under references. */
  lemma {:induction false} ReachableIsLeast(s: Store, roots: seq<Ref>, all: iset<Ref>, r: Ref, n: nat)
    requires ClosedUnderReferences(s, roots, all) && ReachableIn(s, roots, r, n)
    ensures r in all
    decreases n
  {
    hide Children;
    if n > 0 {
      var p :| ReachableIn(s, roots, p, n - 1) && r in Children(s, p);
      ReachableIsLeast(s, roots, all, p, n - 1);
    }
  }

  lemma ReachableStep(s: Store, roots: seq<Ref>, p: Ref, r: Ref)
    requires Reachable(s, roots, p) && r in Children(s, p)
    ensures Reachable(s, roots, r)
  {
    hide Children;
    var n: nat :| ReachableIn(s, roots, p, n);
    assert ReachableIn(s, roots, r, n + 1);
  }

  ghost predicate NewlyReachedAreReachable(s: Store, roots: seq<Ref>, before: Walk, after: Walk) {
    forall id :: id in after.reachedAs && id !in before.reachedAs ==>
      Reachable(s, roots, Ref(id, after.reachedAs[id]))
  }

  lemma {:induction false} VisitIsSound(s: Store, roots: seq<Ref>, w: Walk, todo: seq<Ref>)
    requires forall r :: r in todo ==> Reachable(s, roots, r)
    ensures NewlyReachedAreReachable(s, roots, w, Visit(s, w, todo))
    decreases Unvisited(s, w), |todo|
  {
    hide Children, Target, Unvisited, Reachable;
    if todo != [] {
      var r := todo[0];
      if r.id in w.reachedAs {
        VisitIsSound(s, roots, w, todo[1..]);
      } else {
        VisitTerminates(s, w, todo);
        forall c | c in Children(s, r) ensures Reachable(s, roots, c) {
          ReachableStep(s, roots, r, c);
        }
        VisitIsSound(s, roots, Reach(s, w, r), Children(s, r) + todo[1..]);
      }
    }
  }

  ghost predicate NewlyReachedAreFollowed(s: Store, before: Walk, after: Walk) {
    forall id, c ::
      id in after.reachedAs && id !in before.reachedAs && c in Children(s, Ref(id, after.reachedAs[id])) ==>
      c.id in after.reachedAs
  }

  lemma {:induction false} VisitIsComplete(s: Store, w: Walk, todo: seq<Ref>)
    ensures forall r :: r in todo ==> r.id in Visit(s, w, todo).reachedAs
    ensures NewlyReachedAreFollowed(s, w, Visit(s, w, todo))
    decreases Unvisited(s, w), |todo|
  {
    hide Children, Target, Unvisited;
    if todo != [] {
      var r := todo[0];
      if r.id in w.reachedAs {
        VisitIsComplete(s, w, todo[1..]);
      } else {
        VisitTerminates(s, w, todo);
        var w' := Reach(s, w, r);
        VisitIsComplete(s, w', Children(s, r) + todo[1..]);
        var after := Visit(s, w, todo);
        assert after.reachedAs[r.id] == r.kind;
        forall c | c in Children(s, r) ensures c.id in after.reachedAs {
          assert c in Children(s, r) + todo[1..];
        }
        forall x | x in todo ensures x.id in after.reachedAs {
          assert x == r || x in Children(s, r) + todo[1..];
        }
      }
    }
  }

  /** The ids that were reached as a message but are missing or do not decode. */
  function Unresolved(s: Store, w: Walk): set<HexId> {
    set id | id in w.reachedAs && IsUnresolved(s, Ref(id, w.reachedAs[id]))
  }

  lemma {:induction false} VisitCountsUnresolved(s: Store, w: Walk, todo: seq<Ref>)
    requires w.unresolved == |Unresolved(s, w)|
    ensures Visit(s, w, todo).unresolved == |Unresolved(s, Visit(s, w, todo))|
    decreases Unvisited(s, w), |todo|
  {
    hide Children, Unvisited, Unresolved, Reach;
    if todo != [] {
      var r := todo[0];
      if r.id in w.reachedAs {
        VisitCountsUnresolved(s, w, todo[1..]);
      } else {
        VisitTerminates(s, w, todo);
        ReachCountsUnresolved(s, w, r);
        VisitCountsUnresolved(s, Reach(s, w, r), Children(s, r) + todo[1..]);
      }
    }
  }

  lemma ReachCountsUnresolved(s: Store, w: Walk, r: Ref)
    requires w.unresolved == |Unresolved(s, w)| && r.id !in w.reachedAs
    ensures Reach(s, w, r).unresolved == |Unresolved(s, Reach(s, w, r))|
  {
    TargetMeans(s, r, r);
    ReachedUnresolved(s, w, r);
    assert r.id !in Unresolved(s, w);
    hide Target, IsUnresolved, Unresolved;
  }

  lemma ReachedUnresolved(s: Store, w: Walk, r: Ref)
    requires r.id !in w.reachedAs
    ensures Unresolved(s, Reach(s, w, r)) == Unresolved(s, w) + if IsUnresolved(s, r) then {r.id} else {}
  {
    hide Target, IsUnresolved;
    var after := Reach(s, w, r);
    forall id
      ensures id in Unresolved(s, after) <==> id in Unresolved(s, w) || (id == r.id && IsUnresolved(s, r))
    {
      if id == r.id {
        assert Ref(id, after.reachedAs[id]) == r;
      }
    }
  }

  /** Whatever types an id is referenced as where the walk can go, it has the same children as each. */
  ghost predicate SameChildrenEach(s: Store, roots: seq<Ref>) {
    forall id, k, k' :: Reachable(s, roots, Ref(id, k)) && Reachable(s, roots, Ref(id, k')) ==>
      ChildIds(s, Ref(id, k)) == ChildIds(s, Ref(id, k'))
  }

  function ChildIds(s: Store, r: Ref): set<HexId> { set c | c in Children(s, r) :: c.id }

  /** In particular if no id is referenced as two types. */
  lemma OneTypeHasSameChildren(s: Store, roots: seq<Ref>)
    requires forall id, k, k' :: Reachable(s, roots, Ref(id, k)) && Reachable(s, roots, Ref(id, k')) ==> k == k'
    ensures SameChildrenEach(s, roots)
  {
    hide Reachable;
  }

  lemma {:induction false} ReachableIsMarked(s: Store, root: Message, r: Ref, n: nat)
    requires SameChildrenEach(s, MessageRefs(root))
    requires ReachableIn(s, MessageRefs(root), r, n)
    ensures r.id in Mark(s, root).reachedAs
    decreases n
  {
    hide Children, Visit, MessageRefs;
    var roots := MessageRefs(root);
    var w := Mark(s, root);
    VisitIsComplete(s, Walk(map[], 0), roots);
    if n > 0 {
      var p :| ReachableIn(s, roots, p, n - 1) && r in Children(s, p);
      ReachableIsMarked(s, root, p, n - 1);
      RootsAreReachable(s, roots);
      VisitIsSound(s, roots, Walk(map[], 0), roots);
      var met := Ref(p.id, w.reachedAs[p.id]);
      assert Reachable(s, roots, met) && Reachable(s, roots, Ref(p.id, p.kind));
      assert p == Ref(p.id, p.kind) && r.id in ChildIds(s, p);
      assert r.id in ChildIds(s, met);
    }
  }

  lemma RootsAreReachable(s: Store, roots: seq<Ref>)
    ensures forall r :: r in roots ==> Reachable(s, roots, r)
  {
    forall r | r in roots ensures Reachable(s, roots, r) {
      assert ReachableIn(s, roots, r, 0);
    }
  }

  /** The mark phase is exact: it returns the ids that are reachable, and counts those that do not resolve. */
  lemma MarkIsExact(s: Store, root: Message)
    requires SameChildrenEach(s, MessageRefs(root))
    ensures forall id :: id in Mark(s, root).reachedAs <==> exists k :: Reachable(s, MessageRefs(root), Ref(id, k))
    ensures Mark(s, root).unresolved == |Unresolved(s, Mark(s, root))|
  {
    hide Children, Visit, MessageRefs, Target;
    var roots := MessageRefs(root);
    var w := Mark(s, root);
    RootsAreReachable(s, roots);
    VisitIsSound(s, roots, Walk(map[], 0), roots);
    forall id, k | Reachable(s, roots, Ref(id, k)) ensures id in w.reachedAs {
      var n: nat :| ReachableIn(s, roots, Ref(id, k), n);
      ReachableIsMarked(s, root, Ref(id, k), n);
    }
    VisitCountsUnresolved(s, Walk(map[], 0), roots);
  }

  /** Whatever types an id is referenced as where the walk can go, it resolves as each or as none. */
  ghost predicate SameResolutionEach(s: Store, roots: seq<Ref>) {
    forall id, k, k' :: Reachable(s, roots, Ref(id, k)) && Reachable(s, roots, Ref(id, k')) ==>
      (IsUnresolved(s, Ref(id, k)) <==> IsUnresolved(s, Ref(id, k')))
  }

  /** Then, if nothing unresolved has been marked, every reference that is reachable resolves. */
  lemma EveryReferenceResolves(s: Store, root: Message)
    requires SameChildrenEach(s, MessageRefs(root)) && SameResolutionEach(s, MessageRefs(root))
    ensures Unresolved(s, Mark(s, root)) == {} <==>
      forall id, k :: Reachable(s, MessageRefs(root), Ref(id, k)) ==> !IsUnresolved(s, Ref(id, k))
  {
    hide Children, Visit, MessageRefs, Reachable, IsUnresolved, SameChildrenEach;
    var w, roots := Mark(s, root), MessageRefs(root);
    MarkIsExact(s, root);
    RootsAreReachable(s, roots);
    VisitIsSound(s, roots, Walk(map[], 0), roots);
    if Unresolved(s, w) == {} {
      forall id, k | Reachable(s, roots, Ref(id, k))
        ensures !IsUnresolved(s, Ref(id, k))
      {
        assert id in w.reachedAs && id !in Unresolved(s, w);
      }
    }
  }

  // What is marked, whatever the graph ------------------------------------------------------------------------------

  /** Reached in `n` steps by references of which each is followed as the type its id was first met as. */
  ghost predicate FollowedIn(s: Store, w: Walk, roots: seq<Ref>, id: HexId, n: nat)
    decreases n
  {
    if n == 0 then exists r :: r in roots && r.id == id
    else exists p :: p in w.reachedAs && FollowedIn(s, w, roots, p, n - 1) && id in ChildIds(s, Ref(p, w.reachedAs[p]))
  }

  ghost predicate Followed(s: Store, w: Walk, roots: seq<Ref>, id: HexId) {
    exists n: nat :: FollowedIn(s, w, roots, id, n)
  }

  /** Every newly reached id is one of those to do, or a child of one that was newly reached, as it was met first. */
  ghost predicate Founded(s: Store, before: Walk, after: Walk, todo: seq<Ref>, all: iset<HexId>) {
    && (forall r :: r in todo ==> r.id in all)
    && (forall p, id ::
        p in after.reachedAs && p !in before.reachedAs && p in all && id in ChildIds(s, Ref(p, after.reachedAs[p])) ==>
        id in all)
  }

  /** So what is newly reached lies in every set that has what is to do and is closed in that way. */
  lemma {:induction false} VisitIsFounded(s: Store, w: Walk, todo: seq<Ref>, all: iset<HexId>)
    requires Founded(s, w, Visit(s, w, todo), todo, all)
    ensures forall id :: id in Visit(s, w, todo).reachedAs && id !in w.reachedAs ==> id in all
    decreases Unvisited(s, w), |todo|
  {
    hide Children, Target, Unvisited;
    if todo != [] {
      var r := todo[0];
      if r.id in w.reachedAs {
        VisitIsFounded(s, w, todo[1..], all);
      } else {
        VisitTerminates(s, w, todo);
        var w' := Reach(s, w, r);
        var after := Visit(s, w', Children(s, r) + todo[1..]);
        assert after == Visit(s, w, todo) && after.reachedAs[r.id] == w'.reachedAs[r.id] == r.kind;
        assert r in todo && r == Ref(r.id, r.kind);
        forall c | c in Children(s, r)
          ensures c.id in all
        {
          assert c.id in ChildIds(s, Ref(r.id, after.reachedAs[r.id]));
        }
        VisitIsFounded(s, w', Children(s, r) + todo[1..], all);
      }
    }
  }

  lemma {:induction false} FollowedIsMarked(s: Store, root: Message, id: HexId, n: nat)
    requires FollowedIn(s, Mark(s, root), MessageRefs(root), id, n)
    ensures id in Mark(s, root).reachedAs
    decreases n
  {
    hide Children, Visit, MessageRefs;
    var w := Mark(s, root);
    VisitIsComplete(s, Walk(map[], 0), MessageRefs(root));
    if n > 0 {
      var p :| p in w.reachedAs && FollowedIn(s, w, MessageRefs(root), p, n - 1) &&
        id in ChildIds(s, Ref(p, w.reachedAs[p]));
      var c :| c in Children(s, Ref(p, w.reachedAs[p])) && c.id == id;
    }
  }

  /** On any graph at all, what is marked is what is reached by following each id as the type it was met as first. */
  lemma MarkFollowsFirstTypes(s: Store, root: Message)
    ensures forall id :: id in Mark(s, root).reachedAs <==> Followed(s, Mark(s, root), MessageRefs(root), id)
  {
    hide Children, Visit, MessageRefs, ChildIds;
    var w, roots := Mark(s, root), MessageRefs(root);
    var all := iset id | Followed(s, w, roots, id);
    forall id, n: nat | FollowedIn(s, w, roots, id, n)
      ensures id in w.reachedAs
    {
      FollowedIsMarked(s, root, id, n);
    }
    forall r | r in roots
      ensures r.id in all
    {
      assert FollowedIn(s, w, roots, r.id, 0);
    }
    forall p, id | p in w.reachedAs && p in all && id in ChildIds(s, Ref(p, w.reachedAs[p]))
      ensures id in all
    {
      var n: nat :| FollowedIn(s, w, roots, p, n);
      assert FollowedIn(s, w, roots, id, n + 1);
    }
    VisitIsFounded(s, Walk(map[], 0), roots, all);
  }

  /** The reference `p` is the only one, where the walk can go, that leads to `child`. */
  ghost predicate OnlyReferrer(s: Store, roots: seq<Ref>, p: Ref, child: HexId) {
    && Reachable(s, roots, p) && child in ChildIds(s, p)
    && (forall r :: r in roots ==> r.id != child)
    && (forall q :: Reachable(s, roots, q) && child in ChildIds(s, q) ==> q == p)
  }

  /** A child that only one reference leads to is marked exactly if the id of that reference was met first as its type:
      met first as another one, the id costs that child. */
  lemma OnlyReferrerDecides(s: Store, root: Message, p: Ref, child: HexId)
    requires OnlyReferrer(s, MessageRefs(root), p, child)
    ensures child in Mark(s, root).reachedAs <==>
      p.id in Mark(s, root).reachedAs && Mark(s, root).reachedAs[p.id] == p.kind
  {
    hide Children, Visit, MessageRefs, Reachable;
    var w, roots := Mark(s, root), MessageRefs(root);
    RootsAreReachable(s, roots);
    VisitIsComplete(s, Walk(map[], 0), roots);
    VisitIsSound(s, roots, Walk(map[], 0), roots);
    if p.id in w.reachedAs && w.reachedAs[p.id] == p.kind {
      var c :| c in Children(s, p) && c.id == child;
      assert p == Ref(p.id, w.reachedAs[p.id]);
    } else {
      var all := iset id | id in w.reachedAs && id != child;
      VisitIsFounded(s, Walk(map[], 0), roots, all);
    }
  }

  /** Blobs the walk does not reach have no say in it. */
  lemma {:induction false} VisitDependsOnReached(s: Store, s': Store, w: Walk, todo: seq<Ref>)
    requires s'.isProtoType == s.isProtoType && s'.decode == s.decode
    requires forall id :: id in Visit(s, w, todo).reachedAs ==>
      (id in s'.blobs <==> id in s.blobs) && (id in s.blobs ==> s'.blobs[id] == s.blobs[id])
    ensures Visit(s', w, todo) == Visit(s, w, todo)
    decreases Unvisited(s, w), |todo|
  {
    hide Children, Target, Unvisited;
    if todo != [] {
      var r := todo[0];
      if r.id in w.reachedAs {
        VisitDependsOnReached(s, s', w, todo[1..]);
      } else {
        VisitTerminates(s, w, todo);
        assert r.id in Reach(s, w, r).reachedAs;
        assert r.id in Visit(s, w, todo).reachedAs;
        SameTarget(s, s', r);
        VisitDependsOnReached(s, s', Reach(s, w, r), Children(s, r) + todo[1..]);
      }
    }
  }

  lemma SameTarget(s: Store, s': Store, r: Ref)
    requires s'.isProtoType == s.isProtoType && s'.decode == s.decode
    requires (r.id in s'.blobs <==> r.id in s.blobs) && (r.id in s.blobs ==> s'.blobs[r.id] == s.blobs[r.id])
    ensures Target(s', r) == Target(s, r) && Children(s', r) == Children(s, r)
  {
    hide MessageRefs;
  }

  // What an id referenced as two types does -----------------------------------------------------------------------

  const TURN_TYPE := "agent.v1.ConversationTurnStructure"
  const AGENT_TURN_TYPE := "agent.v1.AgentConversationTurnStructure"
  const USER_MESSAGE_TYPE := "agent.v1.UserMessage"

  /** A turn by an agent with one user message, in protobuf: field 1, of 3 bytes, which hold field 1, of 1 byte. */
  const TURN_BYTES: Bytes := [0x0A, 0x03, 0x0A, 0x01, 0x0B]

  /** How those bytes decode. Anything else is decoded to a message without references. */
  function DecodeTurn(kind: string, data: Bytes): Option<Message> {
    if kind == TURN_TYPE && data == TURN_BYTES then
      Some(Message(kind, [Messages([Message(AGENT_TURN_TYPE, [BlobIds("user_message", USER_MESSAGE_TYPE, ["0b"])])])]))
    else Some(Message(kind, []))
  }

  function TwoTypesStore(): Store { Store(map["0a" := TURN_BYTES, "0b" := []], kind => kind != "json", DecodeTurn) }

  function TwoTypesRoot(): Message {
    Message(ROOT_TYPE, [BlobIds("root_prompt_messages_json", "json", ["0a"]), BlobIds("turns", TURN_TYPE, ["0a"])])
  }

  /** "0a" is first met as a prompt message, which is JSON, so the turn it also is never gets followed, and its user
      message is missed. */
  lemma TwoTypesMissAChild()
    ensures
      var s, root := TwoTypesStore(), TwoTypesRoot();
      && !SameChildrenEach(s, MessageRefs(root))
      && Reachable(s, MessageRefs(root), Ref("0b", USER_MESSAGE_TYPE))
      && "0b" !in Mark(s, root).reachedAs
  {
    var s, root := TwoTypesStore(), TwoTypesRoot();
    var roots := [Ref("0a", "json"), Ref("0a", TURN_TYPE)];
    TwoTypesRefs();
    RootsAreReachable(s, roots);
    assert roots[0] in roots && roots[1] in roots;
    assert Reachable(s, roots, Ref("0a", "json")) && Reachable(s, roots, Ref("0a", TURN_TYPE));
    ReachableStep(s, roots, Ref("0a", TURN_TYPE), Ref("0b", USER_MESSAGE_TYPE));
    assert "0b" in ChildIds(s, Ref("0a", TURN_TYPE)) && "0b" !in ChildIds(s, Ref("0a", "json"));
    hide Reachable, MessageRefs, Children;
    var w := Reach(s, Walk(map[], 0), roots[0]);
    assert [] + roots[1..] == [roots[1]];
    assert [roots[1]][1..] == [];
    assert Visit(s, w, [roots[1]]) == w;
  }

  /** The same root, with the turn missing: it is met first as a prompt message, so that it is missing is not
      counted. */
  lemma TwoTypesHideAMissingBlob()
    ensures
      var s, root := TwoTypesStore().(blobs := map[]), TwoTypesRoot();
      && SameChildrenEach(s, MessageRefs(root))
      && Reachable(s, MessageRefs(root), Ref("0a", TURN_TYPE)) && IsUnresolved(s, Ref("0a", TURN_TYPE))
      && Mark(s, root).unresolved == 0
  {
    var s, root := TwoTypesStore().(blobs := map[]), TwoTypesRoot();
    var roots := [Ref("0a", "json"), Ref("0a", TURN_TYPE)];
    TwoTypesRefs();
    NothingLeadsOn(s, roots);
    RootsAreReachable(s, roots);
    assert roots[0] in roots && roots[1] in roots;
    hide Reachable, MessageRefs, Children;
    TargetMeans(s, roots[0], roots[0]);
    var w := Reach(s, Walk(map[], 0), roots[0]);
    assert Children(s, roots[0]) + roots[1..] == [roots[1]];
    assert [roots[1]][1..] == [];
    assert Visit(s, w, [roots[1]]) == w;
  }

  lemma NothingLeadsOn(s: Store, roots: seq<Ref>)
    requires s.blobs == map[]
    ensures forall r :: Children(s, r) == []
    ensures SameChildrenEach(s, roots)
  {
    forall r
      ensures Children(s, r) == []
    {
      MissingBlobsLeadNowhere(s, r);
    }
  }

  lemma WalkedEdges()
    ensures ROOT_TYPE + "." + "root_prompt_messages_json" !in EDGES_NOT_WALKED
    ensures ROOT_TYPE + "." + "turns" !in EDGES_NOT_WALKED
    ensures AGENT_TURN_TYPE + "." + "user_message" !in EDGES_NOT_WALKED
  {
    assert |ROOT_TYPE + "." + "root_prompt_messages_json"| == 61;
    assert |ROOT_TYPE + "." + "turns"| == 41;
    var walked := AGENT_TURN_TYPE + "." + "user_message";
    assert |walked| == 52 && walked[9] == AGENT_TURN_TYPE[9] == 'A';
    var archives := "agent.v1.ConversationStateStructure.summary_archives";
    assert |archives| == 52 && archives[9] == 'C';
    assert |"agent.v1.UserMessage.conversation_state_blob_id"| == 47;
    assert |"agent.v1.ConversationStateStructure.summary_archive"| == 51;
  }

  lemma OneIdField(name: string, kind: string, id: HexId, typeName: string)
    requires typeName + "." + name !in EDGES_NOT_WALKED && id != ""
    ensures FieldRefs(typeName, BlobIds(name, kind, [id])) == [Ref(id, kind)]
  {
    assert [id][1..] == [];
    assert IdRefs([id], kind) == [Ref(id, kind)] + IdRefs([], kind);
  }

  lemma OneMessageField(typeName: string, m: Message)
    ensures FieldRefs(typeName, Messages([m])) == MessageRefs(m)
  {
    assert [m][1..] == [];
    assert EntriesRefs([m]) == MessageRefs(m) + EntriesRefs([]);
  }

  lemma OneField(typeName: string, f: Field)
    ensures MessageRefs(Message(typeName, [f])) == FieldRefs(typeName, f)
  {
    assert [f][1..] == [];
    assert FieldsRefs(typeName, [f]) == FieldRefs(typeName, f) + FieldsRefs(typeName, []);
  }

  lemma TwoFields(typeName: string, f: Field, g: Field)
    ensures MessageRefs(Message(typeName, [f, g])) == FieldRefs(typeName, f) + FieldRefs(typeName, g)
  {
    assert [f, g][1..] == [g];
    OneField(typeName, g);
    assert FieldsRefs(typeName, [g]) == FieldRefs(typeName, g);
  }

  lemma TwoTypesRefs()
    ensures
      var s := TwoTypesStore();
      && MessageRefs(TwoTypesRoot()) == [Ref("0a", "json"), Ref("0a", TURN_TYPE)]
      && Children(s, Ref("0a", TURN_TYPE)) == [Ref("0b", USER_MESSAGE_TYPE)] && Children(s, Ref("0a", "json")) == []
  {
    WalkedEdges();
    OneIdField("root_prompt_messages_json", "json", "0a", ROOT_TYPE);
    OneIdField("turns", TURN_TYPE, "0a", ROOT_TYPE);
    OneIdField("user_message", USER_MESSAGE_TYPE, "0b", AGENT_TURN_TYPE);
    hide FieldRefs, MessageRefs;
    var turn := Message(AGENT_TURN_TYPE, [BlobIds("user_message", USER_MESSAGE_TYPE, ["0b"])]);
    OneField(AGENT_TURN_TYPE, BlobIds("user_message", USER_MESSAGE_TYPE, ["0b"]));
    OneMessageField(TURN_TYPE, turn);
    OneField(TURN_TYPE, Messages([turn]));
    TwoFields(ROOT_TYPE, TwoTypesRoot().fields[0], TwoTypesRoot().fields[1]);
  }
}
