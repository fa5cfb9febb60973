/**
 The library of saved workflows.  A save looks its parent up, builds the record and writes it later
 under the lock, so other saves and deletes may come in between; a delete moves the record into the
 trash.  Identifiers are drawn fresh; the hash of a program is any function of it.
 */
module WorkflowStore {
  import opened Lists
  import opened Graphs
  import opened PhasePrograms

  datatype WorkflowCreate = WorkflowCreate(name: string, description: string, program: Program,
                                           parentId: Option<string>, adaptationMethod: Option<string>,
                                           adaptationSummary: string)

  datatype SavedWorkflow = SavedWorkflow(id: string, name: string, description: string, program: Program,
                                         programHash: string, createdAt: string, parentId: Option<string>,
                                         parentHash: Option<string>, adaptationMethod: Option<string>,
                                         adaptationSummary: string)

  predicate IsHex(c: char) {
    '0' <= c <= '9' || 'a' <= c <= 'f'
  }

  predicate ValidId(id: string) {
    |id| == 19 && id[..3] == "wf_" && forall i :: 3 <= i < 19 ==> IsHex(id[i])
  }

  function Lookup(live: map<string, SavedWorkflow>, id: string): Option<SavedWorkflow> {
    if ValidId(id) && id in live then Some(live[id]) else None
  }

  predicate NamesParent(request: WorkflowCreate) {
    request.parentId.Some? && request.parentId.value != ""
  }

  /** The record a save will write, given the parent it found. */
  function Build(hash: Program -> string, request: WorkflowCreate, parent: Option<SavedWorkflow>, id: string,
                 createdAt: string): SavedWorkflow
  {
    SavedWorkflow(id, request.name, request.description, request.program, hash(request.program), createdAt,
                  if parent.Some? then Some(parent.value.id) else None,
                  if parent.Some? then Some(parent.value.programHash) else None,
                  request.adaptationMethod, request.adaptationSummary)
  }

  function FindParent(live: map<string, SavedWorkflow>, request: WorkflowCreate): Option<SavedWorkflow> {
    if NamesParent(request) then Lookup(live, request.parentId.value) else None
  }

  // ----- Atomic actions -----

  /** Disk, records under way, and what has been issued and written so far. */
  datatype View = View(live: map<string, SavedWorkflow>, trash: seq<SavedWorkflow>, underWay: set<SavedWorkflow>,
                       issued: set<string>, written: seq<SavedWorkflow>)

  const EMPTY := View(map[], [], {}, {}, [])

  datatype Action =
    | Prepare(request: WorkflowCreate, id: string, createdAt: string)
    | Write(record: SavedWorkflow)
    | Delete(id: string)

  predicate Enabled(v: View, a: Action) {
    match a
    case Prepare(_, id, _) => ValidId(id) && id !in v.issued
    case Write(record) => record in v.underWay
    case Delete(_) => true
  }

  function Apply(hash: Program -> string, v: View, a: Action): View {
    match a
    case Prepare(request, id, createdAt) =>
      var parent := FindParent(v.live, request);
      if NamesParent(request) && parent.None? then v
      else v.(underWay := v.underWay + {Build(hash, request, parent, id, createdAt)}, issued := v.issued + {id})
    case Write(record) =>
      v.(live := v.live[record.id := record], underWay := v.underWay - {record}, written := v.written + [record])
    case Delete(id) =>
      if Lookup(v.live, id).None? then v
      else v.(live := v.live - {id}, trash := v.trash + [v.live[id]])
  }

  // ----- The store object -----

  class Store {
    var live: map<string, SavedWorkflow>
    var trash: seq<SavedWorkflow>
    const hash: Program -> string

    constructor (hash: Program -> string)
      ensures live == EMPTY.live && trash == EMPTY.trash && this.hash == hash
    {
      this.hash := hash;
      live, trash := map[], [];
    }

    method Get(id: string) returns (r: Option<SavedWorkflow>)
      ensures r == Lookup(live, id)
      ensures r.Some? <==> ValidId(id) && id in live
      ensures r.Some? ==> r.value == live[id]
    {
      if !ValidId(id) || id !in live {
        return None;
      }
      r := Some(live[id]);
    }

    /** The part of a save before the lock: look the parent up and build the record. */
    method PrepareSave(request: WorkflowCreate, id: string, createdAt: string, ghost v: View)
      returns (r: Option<SavedWorkflow>)
      requires live == v.live
      ensures var v' := Apply(hash, v, Prepare(request, id, createdAt));
              if r.Some? then v'.underWay == v.underWay + {r.value} else v' == v
      ensures r.None? <==> NamesParent(request) && Lookup(live, request.parentId.value).None?
      ensures r.Some? ==> r.value == Build(hash, request, FindParent(live, request), id, createdAt)
    {
      var parent := None;
      if NamesParent(request) {
        parent := Get(request.parentId.value);
        if parent.None? {
          return None;
        }
      }
      r := Some(Build(hash, request, parent, id, createdAt));
    }

    /** The part of a save under the lock. */
    method WriteRecord(record: SavedWorkflow, ghost v: View)
      requires live == v.live && trash == v.trash
      modifies this
      ensures live == Apply(hash, v, Write(record)).live && trash == Apply(hash, v, Write(record)).trash
      ensures live == old(live)[record.id := record] && trash == old(trash)
    {
      live := live[record.id := record];
    }

    method DeleteRecord(id: string, ghost v: View) returns (deleted: bool)
      requires live == v.live && trash == v.trash
      modifies this
      ensures live == Apply(hash, v, Delete(id)).live && trash == Apply(hash, v, Delete(id)).trash
      ensures deleted <==> ValidId(id) && id in old(live)
      ensures deleted ==> live == old(live) - {id} && trash == old(trash) + [old(live)[id]]
      ensures !deleted ==> live == old(live) && trash == old(trash)
    {
      if !ValidId(id) || id !in live {
        return false;
      }
      trash := trash + [live[id]];
      live := live - {id};
      deleted := true;
    }
  }

  // ----- All interleavings -----

  function After(hash: Program -> string, trace: seq<Action>): View {
    if trace == [] then EMPTY else Apply(hash, After(hash, trace[..|trace| - 1]), trace[|trace| - 1])
  }

  ghost predicate Possible(hash: Program -> string, trace: seq<Action>) {
    trace == [] ||
    (Possible(hash, trace[..|trace| - 1]) && Enabled(After(hash, trace[..|trace| - 1]), trace[|trace| - 1]))
  }

  function RecordIds(records: seq<SavedWorkflow>): (ids: seq<string>)
    ensures |ids| == |records| && forall i :: 0 <= i < |records| ==> ids[i] == records[i].id
  {
    seq(|records|, i requires 0 <= i < |records| => records[i].id)
  }

  /** The parent a record names was written before and had the recorded hash. */
  ghost predicate ParentAmong(hash: Program -> string, record: SavedWorkflow, earlier: seq<SavedWorkflow>) {
    && record.programHash == hash(record.program)
    && (record.parentId.None? <==> record.parentHash.None?)
    && (record.parentId.Some? ==> exists parent :: parent in earlier && IsParent(hash, record, parent))
  }

  ghost predicate IsParent(hash: Program -> string, record: SavedWorkflow, parent: SavedWorkflow) {
    record.parentId == Some(parent.id) && record.parentHash == Some(hash(parent.program))
  }

  /** Every written record is on disk, live or in the trash, exactly as it was written. */
  ghost predicate KeepsRecords(v: View) {
    && (forall record :: record in v.written <==> (record.id in v.live && v.live[record.id] == record) || record in v.trash)
    && (forall id | id in v.live :: v.live[id].id == id)
    && (forall record | record in v.trash :: record.id !in v.live)
    && Distinct(RecordIds(v.written))
  }

  ghost predicate KeepsLineage(hash: Program -> string, v: View) {
    && (forall k :: 0 <= k < |v.written| ==> ParentAmong(hash, v.written[k], v.written[..k]))
    && (forall record | record in v.underWay :: ParentAmong(hash, record, v.written))
  }

  ghost predicate KeepsIds(v: View) {
    && (forall record | record in v.written :: record.id in v.issued)
    && (forall record | record in v.underWay :: record.id in v.issued && record.id !in RecordIds(v.written))
    && (forall r, r' | r in v.underWay && r' in v.underWay :: r.id == r'.id ==> r == r')
  }

  ghost predicate Kept(hash: Program -> string, v: View) {
    KeepsRecords(v) && KeepsLineage(hash, v) && KeepsIds(v)
  }

  lemma FoundParent(hash: Program -> string, v: View, request: WorkflowCreate, id: string, createdAt: string)
    requires Kept(hash, v)
    requires NamesParent(request) ==> FindParent(v.live, request).Some?
    ensures ParentAmong(hash, Build(hash, request, FindParent(v.live, request), id, createdAt), v.written)
  {
    var parent := FindParent(v.live, request);
    if parent.Some? {
      var found := parent.value;
      assert found in v.written;
      var k :| 0 <= k < |v.written| && v.written[k] == found;
      assert ParentAmong(hash, v.written[k], v.written[..k]);
      assert IsParent(hash, Build(hash, request, parent, id, createdAt), found);
    }
  }

  lemma PrepareKeeps(hash: Program -> string, v: View, a: Action)
    requires Kept(hash, v) && a.Prepare? && Enabled(v, a)
    ensures Kept(hash, Apply(hash, v, a))
  {
    var parent := FindParent(v.live, a.request);
    if !(NamesParent(a.request) && parent.None?) {
      FoundParent(hash, v, a.request, a.id, a.createdAt);
      forall k | 0 <= k < |v.written|
        ensures RecordIds(v.written)[k] in v.issued
      {
        assert v.written[k] in v.written;
      }
    }
  }

  lemma ParentAmongMore(hash: Program -> string, record: SavedWorkflow, earlier: seq<SavedWorkflow>, more: SavedWorkflow)
    requires ParentAmong(hash, record, earlier)
    ensures ParentAmong(hash, record, earlier + [more])
  {
    if record.parentId.Some? {
      var parent :| parent in earlier && IsParent(hash, record, parent);
      assert parent in earlier + [more];
    }
  }

  lemma WriteKeepsLineage(hash: Program -> string, v: View, a: Action)
    requires Kept(hash, v) && a.Write? && Enabled(v, a)
    ensures KeepsLineage(hash, Apply(hash, v, a))
  {
    var v' := Apply(hash, v, a);
    forall k | 0 <= k < |v'.written|
      ensures ParentAmong(hash, v'.written[k], v'.written[..k])
    {
      assert v'.written[..k] == if k < |v.written| then v.written[..k] else v.written;
    }
    forall record | record in v'.underWay
      ensures ParentAmong(hash, record, v'.written)
    {
      ParentAmongMore(hash, record, v.written, a.record);
    }
  }

  lemma WriteKeepsRecords(hash: Program -> string, v: View, a: Action)
    requires Kept(hash, v) && a.Write? && Enabled(v, a)
    ensures KeepsRecords(Apply(hash, v, a))
  {
    var v' := Apply(hash, v, a);
    assert RecordIds(v'.written) == RecordIds(v.written) + [a.record.id];
    NotYetWritten(v, a.record);
    forall record
      ensures record in v'.written <==> (record.id in v'.live && v'.live[record.id] == record) || record in v'.trash
    {
      assert record in v'.written <==> record in v.written || record == a.record;
    }
  }

  lemma NotYetWritten(v: View, record: SavedWorkflow)
    requires KeepsRecords(v) && KeepsIds(v) && record in v.underWay
    ensures record.id !in v.live
    ensures forall other | other in v.written :: other.id != record.id
  {
    forall other | other in v.written
      ensures other.id != record.id
    {
      var k :| 0 <= k < |v.written| && v.written[k] == other;
      assert RecordIds(v.written)[k] == other.id;
    }
    forall id | id in v.live
      ensures id != record.id
    {
      assert v.live[id] in v.written;
    }
  }

  lemma WriteKeepsIds(hash: Program -> string, v: View, a: Action)
    requires Kept(hash, v) && a.Write? && Enabled(v, a)
    ensures KeepsIds(Apply(hash, v, a))
  {
    var v' := Apply(hash, v, a);
    assert RecordIds(v'.written) == RecordIds(v.written) + [a.record.id];
    assert forall record :: record in v'.written <==> record in v.written || record == a.record;
  }

  lemma DeleteKeeps(hash: Program -> string, v: View, a: Action)
    requires Kept(hash, v) && a.Delete?
    ensures Kept(hash, Apply(hash, v, a))
  {
    var v' := Apply(hash, v, a);
    if Lookup(v.live, a.id).Some? {
      var gone := v.live[a.id];
      assert forall record :: record in v'.trash <==> record in v.trash || record == gone;
    }
  }

  /** Each save and each delete keeps every record, every hash and every parent link intact. */
  lemma StepKeeps(hash: Program -> string, v: View, a: Action)
    requires Kept(hash, v) && Enabled(v, a)
    ensures Kept(hash, Apply(hash, v, a))
  {
    match a
    case Prepare(_, _, _) => PrepareKeeps(hash, v, a);
    case Write(_) =>
      WriteKeepsRecords(hash, v, a);
      WriteKeepsLineage(hash, v, a);
      WriteKeepsIds(hash, v, a);
    case Delete(_) => DeleteKeeps(hash, v, a);
  }

  lemma {:induction false} ReachableKeeps(hash: Program -> string, trace: seq<Action>)
    requires Possible(hash, trace)
    ensures Kept(hash, After(hash, trace))
  {
    if trace != [] {
      ReachableKeeps(hash, trace[..|trace| - 1]);
      StepKeeps(hash, After(hash, trace[..|trace| - 1]), trace[|trace| - 1]);
    }
  }

  /** The record holds what the request asked for, under the id and time it was given. */
  predicate AskedFor(record: SavedWorkflow, a: Action) {
    && a.Prepare? && record.id == a.id && record.createdAt == a.createdAt
    && record.name == a.request.name && record.description == a.request.description
    && record.program == a.request.program && record.adaptationMethod == a.request.adaptationMethod
    && record.adaptationSummary == a.request.adaptationSummary
    && record.parentId == if NamesParent(a.request) then a.request.parentId else None
  }

  /** Every record written or under way is what some earlier request asked for. */
  lemma {:induction false} StoredAsRequested(hash: Program -> string, trace: seq<Action>, record: SavedWorkflow)
    requires Possible(hash, trace)
    requires record in After(hash, trace).written || record in After(hash, trace).underWay
    ensures exists i :: 0 <= i < |trace| && AskedFor(record, trace[i])
  {
    var n := |trace| - 1;
    var init := trace[..n];
    var v := After(hash, init);
    if record in v.written || record in v.underWay {
      StoredAsRequested(hash, init, record);
      var i :| 0 <= i < n && AskedFor(record, init[i]);
      assert AskedFor(record, trace[i]);
    } else {
      ReachableKeeps(hash, init);
      assert AskedFor(record, trace[n]);
    }
  }

  /** Over any interleaving, what was written once is never altered or lost. */
  lemma {:induction false} WrittenOnlyGrows(hash: Program -> string, trace: seq<Action>, n: nat)
    requires Possible(hash, trace) && n <= |trace|
    ensures After(hash, trace[..n]).written <= After(hash, trace).written
    ensures forall record | record in After(hash, trace[..n]).written ::
              var v := After(hash, trace);
              (record.id in v.live && v.live[record.id] == record) || record in v.trash
    decreases |trace|
  {
    ReachableKeeps(hash, trace);
    if n == |trace| {
      assert trace[..n] == trace;
    } else {
      var init := trace[..|trace| - 1];
      WrittenOnlyGrows(hash, init, n);
      assert init[..n] == trace[..n];
      assert After(hash, init).written <= After(hash, trace).written;
    }
    assert forall record | record in After(hash, trace[..n]).written :: record in After(hash, trace).written;
  }

  // ----- What is live and what is in the trash -----

  lemma {:induction false} IssuedAreValid(hash: Program -> string, trace: seq<Action>)
    requires Possible(hash, trace)
    ensures forall id | id in After(hash, trace).issued :: ValidId(id)
  {
    if trace != [] {
      IssuedAreValid(hash, trace[..|trace| - 1]);
    }
  }

  /** The record is live under its id and not in the trash, or the other way round and once. */
  ghost predicate Held(v: View, record: SavedWorkflow, deleted: bool) {
    if deleted then record.id !in v.live && multiset(v.trash)[record] == 1
    else record.id in v.live && v.live[record.id] == record && multiset(v.trash)[record] == 0
  }

  lemma WriteHolds(hash: Program -> string, v: View, record: SavedWorkflow)
    requires Kept(hash, v) && record in v.underWay
    ensures Held(Apply(hash, v, Write(record)), record, false)
  {
    NotYetWritten(v, record);
    assert record !in v.trash;
  }

  lemma DeleteHolds(hash: Program -> string, v: View, record: SavedWorkflow, deleted: bool, id: string)
    requires Kept(hash, v) && ValidId(record.id) && Held(v, record, deleted)
    ensures Held(Apply(hash, v, Delete(id)), record, deleted || id == record.id)
  {}

  lemma StepHolds(hash: Program -> string, v: View, record: SavedWorkflow, deleted: bool, a: Action)
    requires Kept(hash, v) && ValidId(record.id) && record in v.written && Held(v, record, deleted) && Enabled(v, a)
    ensures Held(Apply(hash, v, a), record, deleted || a == Delete(record.id))
  {
    match a
    case Prepare(_, _, _) =>
    case Write(other) =>
      NotYetWritten(v, other);
    case Delete(id) =>
      DeleteHolds(hash, v, record, deleted, id);
  }

  /** The record is written by `trace[i]`. */
  ghost predicate WrittenAt(trace: seq<Action>, i: nat, record: SavedWorkflow) {
    i < |trace| && trace[i] == Write(record)
  }

  ghost predicate DeletedAfter(trace: seq<Action>, i: nat, id: string) {
    exists j :: i < j < |trace| && trace[j] == Delete(id)
  }

  lemma DeletedInit(trace: seq<Action>, i: nat, id: string)
    requires i < |trace| - 1
    ensures DeletedAfter(trace, i, id) <==>
            DeletedAfter(trace[..|trace| - 1], i, id) || trace[|trace| - 1] == Delete(id)
  {
    var init := trace[..|trace| - 1];
    if j :| i < j < |init| && init[j] == Delete(id) {
      assert trace[j] == Delete(id);
    }
    if j :| i < j < |trace| && trace[j] == Delete(id) {
      assert j < |trace| - 1 ==> init[j] == Delete(id);
    }
  }

  lemma FirstHolds(hash: Program -> string, trace: seq<Action>, record: SavedWorkflow)
    requires Possible(hash, trace) && trace != [] && trace[|trace| - 1] == Write(record)
    ensures ValidId(record.id) && record in After(hash, trace).written && Held(After(hash, trace), record, false)
  {
    var init := trace[..|trace| - 1];
    ReachableKeeps(hash, init);
    IssuedAreValid(hash, init);
    WriteHolds(hash, After(hash, init), record);
  }

  /**
   Over any interleaving a written record is live, as written, exactly until the first delete of its
   id after the write; from then on it is in the trash, once.
   */
  lemma {:induction false} LiveUntilDeleted(hash: Program -> string, trace: seq<Action>, i: nat, record: SavedWorkflow)
    requires Possible(hash, trace) && WrittenAt(trace, i, record)
    ensures ValidId(record.id) && record in After(hash, trace).written
    ensures Held(After(hash, trace), record, DeletedAfter(trace, i, record.id))
  {
    var n := |trace| - 1;
    if i == n {
      FirstHolds(hash, trace, record);
    } else {
      LiveUntilDeleted(hash, trace[..n], i, record);
      ReachableKeeps(hash, trace[..n]);
      StepHolds(hash, After(hash, trace[..n]), record, DeletedAfter(trace[..n], i, record.id), trace[n]);
      DeletedInit(trace, i, record.id);
    }
  }

  lemma LiveIsHashed(hash: Program -> string, v: View, id: string)
    requires Kept(hash, v) && id in v.live
    ensures v.live[id].id == id && v.live[id].programHash == hash(v.live[id].program)
  {
    assert v.live[id] in v.written;
    var k :| 0 <= k < |v.written| && v.written[k] == v.live[id];
    assert ParentAmong(hash, v.written[k], v.written[..k]);
  }

  lemma BuiltAsAsked(hash: Program -> string, v: View, request: WorkflowCreate, id: string, createdAt: string)
    requires Kept(hash, v) && (NamesParent(request) ==> Lookup(v.live, request.parentId.value).Some?)
    ensures var record := Build(hash, request, FindParent(v.live, request), id, createdAt);
            && AskedFor(record, Prepare(request, id, createdAt)) && record.programHash == hash(request.program)
            && record.parentHash ==
               if NamesParent(request) then Some(hash(v.live[request.parentId.value].program)) else None
  {
    if NamesParent(request) {
      LiveIsHashed(hash, v, request.parentId.value);
    }
  }

  lemma PossibleNext(hash: Program -> string, trace: seq<Action>, a: Action)
    requires Possible(hash, trace) && Enabled(After(hash, trace), a)
    ensures Possible(hash, trace + [a]) && After(hash, trace + [a]) == Apply(hash, After(hash, trace), a)
  {
    assert (trace + [a])[..|trace|] == trace;
  }

  /** A save under a new id goes through from every state in which its parent, if it names one, is live. */
  lemma SaveGoesThrough(hash: Program -> string, trace: seq<Action>, request: WorkflowCreate, id: string, createdAt: string)
    requires Possible(hash, trace) && ValidId(id) && id !in After(hash, trace).issued
    requires NamesParent(request) ==> Lookup(After(hash, trace).live, request.parentId.value).Some?
    ensures var v := After(hash, trace);
            var record := Build(hash, request, FindParent(v.live, request), id, createdAt);
            var saved := trace + [Prepare(request, id, createdAt), Write(record)];
            && Possible(hash, saved) && Lookup(After(hash, saved).live, id) == Some(record)
            && AskedFor(record, Prepare(request, id, createdAt)) && record.programHash == hash(request.program)
            && record.parentHash ==
               if NamesParent(request) then Some(hash(v.live[request.parentId.value].program)) else None
  {
    var v := After(hash, trace);
    var record := Build(hash, request, FindParent(v.live, request), id, createdAt);
    var prepared := trace + [Prepare(request, id, createdAt)];
    var saved := trace + [Prepare(request, id, createdAt), Write(record)];
    PossibleNext(hash, trace, Prepare(request, id, createdAt));
    PossibleNext(hash, prepared, Write(record));
    assert saved == prepared + [Write(record)];
    ReachableKeeps(hash, trace);
    BuiltAsAsked(hash, v, request, id, createdAt);
  }

  // ----- Parent links form a forest -----

  /** The arrows from parents to children, in the order of writing. */
  function Links(written: seq<SavedWorkflow>): seq<Arrow<string>> {
    if written == [] then []
    else
      var last := written[|written| - 1];
      Links(written[..|written| - 1]) + if last.parentId.Some? then [Arrow(last.parentId.value, last.id)] else []
  }

  lemma {:induction false} LinkOf(written: seq<SavedWorkflow>, a: Arrow<string>) returns (k: nat)
    requires a in Links(written)
    ensures k < |written| && written[k].parentId == Some(a.src) && written[k].id == a.dst
  {
    var n := |written| - 1;
    if a in Links(written[..n]) {
      k := LinkOf(written[..n], a);
    } else {
      k := n;
    }
  }

  lemma {:induction false} LinkIsDrawn(written: seq<SavedWorkflow>, k: nat)
    requires k < |written| && written[k].parentId.Some?
    ensures Arrow(written[k].parentId.value, written[k].id) in Links(written)
  {
    var n := |written| - 1;
    if k < n {
      LinkIsDrawn(written[..n], k);
    }
  }

  lemma LinkFollowsWriting(hash: Program -> string, written: seq<SavedWorkflow>, a: Arrow<string>)
    requires forall k :: 0 <= k < |written| ==> ParentAmong(hash, written[k], written[..k])
    requires a in Links(written)
    ensures Before(RecordIds(written), a.src, a.dst)
  {
    var ids := RecordIds(written);
    var k := LinkOf(written, a);
    assert ParentAmong(hash, written[k], written[..k]);
    var parent :| parent in written[..k] && IsParent(hash, written[k], parent);
    var j :| 0 <= j < k && written[..k][j] == parent;
    assert ids[j] == a.src && ids[k] == a.dst;
  }

  lemma LinksRespectWriting(hash: Program -> string, v: View)
    requires KeepsLineage(hash, v)
    ensures Respects(RecordIds(v.written), Links(v.written))
  {
    forall a | a in Links(v.written)
      ensures Before(RecordIds(v.written), a.src, a.dst)
    {
      LinkFollowsWriting(hash, v.written, a);
    }
  }

  lemma OneParentEach(written: seq<SavedWorkflow>, a: Arrow<string>, b: Arrow<string>)
    requires Distinct(RecordIds(written)) && a in Links(written) && b in Links(written) && a.dst == b.dst
    ensures a == b
  {
    var k := LinkOf(written, a);
    var m := LinkOf(written, b);
    assert RecordIds(written)[k] == RecordIds(written)[m];
  }

  ghost predicate Forest(ids: seq<string>, links: seq<Arrow<string>>) {
    && Distinct(ids) && Respects(ids, links) && !Cyclic(links)
    && forall a, b | a in links && b in links && a.dst == b.dst :: a == b
  }

  lemma OrderedLinksAreForest(written: seq<SavedWorkflow>)
    requires Distinct(RecordIds(written)) && Respects(RecordIds(written), Links(written))
    ensures Forest(RecordIds(written), Links(written))
  {
    OrderedHasNoCycle(RecordIds(written), Links(written));
    forall a, b | a in Links(written) && b in Links(written) && a.dst == b.dst
      ensures a == b
    {
      OneParentEach(written, a, b);
    }
  }

  /**
   Parent links form a forest: each record names at most one parent, links follow the order of
   writing, and no chain of parents returns to its start.
   */
  lemma LineageIsForest(hash: Program -> string, trace: seq<Action>)
    requires Possible(hash, trace)
    ensures var written := After(hash, trace).written;
            && Forest(RecordIds(written), Links(written))
            && forall k :: 0 <= k < |written| && written[k].parentId.Some? ==>
                             Arrow(written[k].parentId.value, written[k].id) in Links(written)
  {
    var written := After(hash, trace).written;
    forall k | 0 <= k < |written| && written[k].parentId.Some?
      ensures Arrow(written[k].parentId.value, written[k].id) in Links(written)
    {
      LinkIsDrawn(written, k);
    }
    ReachableKeeps(hash, trace);
    LinksRespectWriting(hash, After(hash, trace));
    OrderedLinksAreForest(After(hash, trace).written);
  }
}
