/**
 * The slice of an OpenAPI document the transformers work on, the API descriptions they
 * correlate its operations with (`Helpers.OpenApiDocumentActions`), and the
 * collect-then-remove pass the excluding transformers share.
 */
module OpenApiDocuments {
  import opened Wrappers
  import opened Errors
  import opened Seqs
  import opened VersionMetadata

  // ---------------------------------------------------------------- the document

  datatype OperationType = Get | Put | Post | Delete | Options | Head | Patch | Trace

  /** The value of an operation's `x-aspnetcore-id` annotation. */
  datatype Annotation = StringAnnotation(id: string) | OtherAnnotation

  /** `OpenApiOperation`: its `x-aspnetcore-id` annotation, if any, and `Deprecated`. */
  datatype Operation = Operation(aspnetcoreId: Option<Annotation>, deprecated: bool)

  /** One entry of a path's `Operations` dictionary. */
  datatype OpEntry = OpEntry(key: OperationType, op: Operation)

  /** One entry of the document's `Paths` dictionary: the path and its operations, in order. */
  datatype PathEntry = PathEntry(key: string, operations: seq<OpEntry>)

  /** `OpenApiInfo`, as far as the transformers and the application's delegates see it. */
  datatype Info = Info(title: Option<string>, version: Option<string>, description: Option<string>)

  function OpKey(e: OpEntry): OperationType { e.key }

  function PathKey(p: PathEntry): string { p.key }

  /** Dictionaries: path keys are distinct, and so are each path's operation keys. */
  ghost predicate WellKeyed(paths: seq<PathEntry>) {
    && DistinctKeys(paths, PathKey)
    && forall i :: 0 <= i < |paths| ==> DistinctKeys(paths[i].operations, OpKey)
  }

  class OpenApiDocument {
    var info: Option<Info>
    var paths: seq<PathEntry>

    ghost predicate Valid()
      reads this
    {
      WellKeyed(paths)
    }

    constructor (info: Option<Info>, paths: seq<PathEntry>)
      requires WellKeyed(paths)
      ensures Valid() && this.info == info && this.paths == paths
    {
      this.info := info;
      this.paths := paths;
    }
  }

  // ---------------------------------------------------------------- API descriptions

  /** `RouteVersionEndpointMetadata`, the version tag of the legacy mapping API. */
  datatype RouteVersionEndpointMetadata = RouteVersionEndpointMetadata(
    version: Version,
    versionComparer: (Version, Version) -> bool)

  /** One item of an endpoint's metadata. */
  datatype EndpointMetadataItem =
    /** A version's `RouteVersionMetadata`, attached by the version-range composers. */
    | VersionTag(meta: RouteVersionMetadata)
    | LegacyVersionTag(legacy: RouteVersionEndpointMetadata)
    | OtherMetadata(id: nat)

  /** `ActionDescriptor`: its `Id` and its endpoint metadata. */
  datatype ActionDescriptor = ActionDescriptor(id: string, endpointMetadata: seq<EndpointMetadataItem>)

  /** `EndpointMetadata.OfType<IRouteVersionMetadata>()`. */
  function VersionTags(items: seq<EndpointMetadataItem>): (r: seq<RouteVersionMetadata>)
    ensures |r| <= |items|
    ensures |r| == 0 <==> forall i :: 0 <= i < |items| ==> !items[i].VersionTag?
  {
    if items == [] then []
    else
      var last := items[|items| - 1];
      VersionTags(items[..|items| - 1]) + (if last.VersionTag? then [last.meta] else [])
  }

  /** `EndpointMetadata.OfType<RouteVersionEndpointMetadata>()`. */
  function LegacyTags(items: seq<EndpointMetadataItem>): (r: seq<RouteVersionEndpointMetadata>)
    ensures |r| <= |items|
    ensures |r| == 0 <==> forall i :: 0 <= i < |items| ==> !items[i].LegacyVersionTag?
  {
    if items == [] then []
    else
      var last := items[|items| - 1];
      LegacyTags(items[..|items| - 1]) + (if last.LegacyVersionTag? then [last.legacy] else [])
  }

  /** The action descriptors of every description group's items, in order (`SelectMany`). */
  function Flatten(groups: seq<seq<ActionDescriptor>>): seq<ActionDescriptor> {
    if groups == [] then [] else Flatten(groups[..|groups| - 1]) + groups[|groups| - 1]
  }

  /** `this[a.Id] = a` for each action in turn: a later action replaces an earlier one's entry. */
  function ActionsMap(actions: seq<ActionDescriptor>): map<string, ActionDescriptor> {
    if actions == [] then map[]
    else
      var last := actions[|actions| - 1];
      ActionsMap(actions[..|actions| - 1])[last.id := last]
  }

  /** The map holds an entry for every id of the actions and no other. */
  lemma {:induction false} ActionsMapDomain(actions: seq<ActionDescriptor>, id: string)
    ensures id in ActionsMap(actions) <==> exists i :: 0 <= i < |actions| && actions[i].id == id
  {
    if actions != [] {
      var n := |actions| - 1;
      var init := actions[..n];
      ActionsMapDomain(init, id);
      if actions[n].id != id && exists i :: 0 <= i < |actions| && actions[i].id == id {
        var i :| 0 <= i < |actions| && actions[i].id == id;
        assert init[i] == actions[i];
      }
    }
  }

  /** Each id of the map maps to the last action that has it. */
  lemma {:induction false} ActionsMapLast(actions: seq<ActionDescriptor>, id: string)
    requires id in ActionsMap(actions)
    ensures exists i :: (0 <= i < |actions| && actions[i].id == id
      && ActionsMap(actions)[id] == actions[i]
      && forall j :: i < j < |actions| ==> actions[j].id != id)
  {
    var n := |actions| - 1;
    var init := actions[..n];
    if actions[n].id != id {
      ActionsMapLast(init, id);
      var i :| 0 <= i < |init| && init[i].id == id && ActionsMap(init)[id] == init[i]
        && forall j :: i < j < |init| ==> init[j].id != id;
      assert actions[i] == init[i];
    }
  }

  /**
   * The map holds an entry for every id of the actions and no other, and each id maps to the
   * last action that has it.
   */
  lemma ActionsMapLastWins(actions: seq<ActionDescriptor>, id: string)
    ensures id in ActionsMap(actions) <==> exists i :: 0 <= i < |actions| && actions[i].id == id
    ensures id in ActionsMap(actions) ==> exists i :: (0 <= i < |actions| && actions[i].id == id
      && ActionsMap(actions)[id] == actions[i]
      && forall j :: i < j < |actions| ==> actions[j].id != id)
  {
    ActionsMapDomain(actions, id);
    if id in ActionsMap(actions) {
      ActionsMapLast(actions, id);
    }
  }

  /** `new OpenApiDocumentActions(ctx)`: the id-to-action map of every description group. */
  method DocumentActions(groups: seq<seq<ActionDescriptor>>) returns (actions: map<string, ActionDescriptor>)
    ensures actions == ActionsMap(Flatten(groups))
  {
    actions := map[];
    for g := 0 to |groups|
      invariant actions == ActionsMap(Flatten(groups[..g]))
    {
      assert groups[..g + 1][..g] == groups[..g];
      actions := AddGroupActions(actions, Flatten(groups[..g]), groups[g]);
    }
    assert groups[..|groups|] == groups;
  }

  /** The inner loop over one description group: its actions are entered in turn. */
  method AddGroupActions(actions: map<string, ActionDescriptor>, ghost before: seq<ActionDescriptor>, group: seq<ActionDescriptor>)
    returns (r: map<string, ActionDescriptor>)
    requires actions == ActionsMap(before)
    ensures r == ActionsMap(before + group)
  {
    r := actions;
    assert before + group[..0] == before;
    for k := 0 to |group|
      invariant r == ActionsMap(before + group[..k])
    {
      var a := group[k];
      assert (before + group[..k + 1])[..|before| + k] == before + group[..k];
      r := r[a.id := a];
    }
    assert group[..|group|] == group;
  }

  /**
   * `TryGetAction(op, out action)`: the action whose id is the operation's string
   * `x-aspnetcore-id` annotation, if the map has one.
   */
  function TryGetAction(actions: map<string, ActionDescriptor>, op: Operation): (r: Option<ActionDescriptor>)
    ensures r.Some? <==> (op.aspnetcoreId.Some? && op.aspnetcoreId.value.StringAnnotation?
      && op.aspnetcoreId.value.id in actions)
    ensures r.Some? ==> r.value == actions[op.aspnetcoreId.value.id]
  {
    match op.aspnetcoreId
    case Some(StringAnnotation(id)) => if id in actions then Some(actions[id]) else None
    case _ => None
  }

  /**
   * Against the map of a document's description groups, an operation resolves exactly when
   * its string annotation is the id of some described action, and it then resolves to the
   * last action with that id.
   */
  lemma TryGetActionResolves(groups: seq<seq<ActionDescriptor>>, op: Operation)
    ensures var all := Flatten(groups);
      var r := TryGetAction(ActionsMap(all), op);
      && (r.Some? <==> (op.aspnetcoreId.Some? && op.aspnetcoreId.value.StringAnnotation?
            && exists i :: 0 <= i < |all| && all[i].id == op.aspnetcoreId.value.id))
      && (r.Some? ==> exists i :: (0 <= i < |all| && all[i] == r.value
            && r.value.id == op.aspnetcoreId.value.id
            && forall j :: i < j < |all| ==> all[j].id != r.value.id))
  {
    if op.aspnetcoreId.Some? && op.aspnetcoreId.value.StringAnnotation? {
      ActionsMapLastWins(Flatten(groups), op.aspnetcoreId.value.id);
    }
  }

  // ---------------------------------------------------------------- collect, then remove

  /** What an excluding transformer decides for an operation; `Fail` is an exception. */
  datatype Verdict = Keep | Drop | Throw(error: TransformError)

  /** No operation of `ops` makes the verdict throw. */
  predicate OpsSucceed(ops: seq<OpEntry>, verdict: Operation -> Verdict) {
    forall j :: 0 <= j < |ops| ==> !verdict(ops[j].op).Throw?
  }

  predicate PathsSucceed(paths: seq<PathEntry>, verdict: Operation -> Verdict) {
    forall i :: 0 <= i < |paths| ==> OpsSucceed(paths[i].operations, verdict)
  }

  /** The path with its dropped operations removed. */
  function StripPath(p: PathEntry, verdict: Operation -> Verdict): PathEntry {
    p.(operations := Filter(p.operations, Kept(verdict)))
  }

  /** The operations a verdict keeps, and those it drops. */
  function Kept(verdict: Operation -> Verdict): OpEntry -> bool {
    (e: OpEntry) => !verdict(e.op).Drop?
  }

  function IsDropped(verdict: Operation -> Verdict): OpEntry -> bool {
    (e: OpEntry) => verdict(e.op).Drop?
  }

  function StripEach(paths: seq<PathEntry>, verdict: Operation -> Verdict): (r: seq<PathEntry>)
    ensures |r| == |paths|
    ensures forall i :: 0 <= i < |paths| ==> r[i] == StripPath(paths[i], verdict)
  {
    seq(|paths|, i requires 0 <= i < |paths| => StripPath(paths[i], verdict))
  }

  /** A path that still has operations. */
  predicate NonEmpty(p: PathEntry) {
    |p.operations| > 0
  }

  /** The document's paths after a pass that throws nowhere. */
  function Pruned(paths: seq<PathEntry>, verdict: Operation -> Verdict): seq<PathEntry> {
    Filter(StripEach(paths, verdict), NonEmpty)
  }

  /** Stripping a path keeps its key and leaves its operation keys distinct. */
  lemma StripEachWellKeyed(paths: seq<PathEntry>, verdict: Operation -> Verdict)
    requires WellKeyed(paths)
    ensures WellKeyed(StripEach(paths, verdict))
    ensures Keys(StripEach(paths, verdict), PathKey) == Keys(paths, PathKey)
  {
    var r := StripEach(paths, verdict);
    forall i | 0 <= i < |r| ensures DistinctKeys(r[i].operations, OpKey) {
      FilterDistinctKeys(paths[i].operations, OpKey, Kept(verdict));
    }
  }

  function IsEmpty(p: PathEntry): bool {
    !NonEmpty(p)
  }

  /**
   * The inner loop of the pass over one path: the keys of its dropped operations, in order,
   * or the index of the first operation whose verdict throws.
   */
  method CollectDroppedKeys(ops: seq<OpEntry>, verdict: Operation -> Verdict)
    returns (throwsAt: Option<nat>, opKeysToRemove: seq<OperationType>)
    ensures throwsAt.None? <==> OpsSucceed(ops, verdict)
    ensures throwsAt.None? ==> opKeysToRemove == Keys(Filter(ops, IsDropped(verdict)), OpKey)
    ensures throwsAt.Some? ==>
      throwsAt.value < |ops| && OpsSucceed(ops[..throwsAt.value], verdict) && verdict(ops[throwsAt.value].op).Throw?
  {
    opKeysToRemove := [];
    for j := 0 to |ops|
      invariant OpsSucceed(ops[..j], verdict)
      invariant opKeysToRemove == Keys(Filter(ops[..j], IsDropped(verdict)), OpKey)
    {
      var e := ops[j];
      var v := verdict(e.op);
      if v.Throw? {
        return Some(j), opKeysToRemove;
      }
      assert ops[..j + 1] == ops[..j] + [e];
      FilterAppend(ops[..j], [e], IsDropped(verdict));
      if v.Drop? {
        opKeysToRemove := opKeysToRemove + [e.key];
      }
    }
    assert ops[..|ops|] == ops;
    throwsAt := None;
  }

  /** Stripping one more path extends the stripped prefix and its empty paths' keys. */
  lemma StripEachSnoc(paths: seq<PathEntry>, verdict: Operation -> Verdict, i: nat, current: seq<PathEntry>)
    requires i < |paths|
    requires current == StripEach(paths[..i], verdict) + paths[i..]
    ensures current[i := StripPath(paths[i], verdict)] == StripEach(paths[..i + 1], verdict) + paths[i + 1..]
    ensures StripEach(paths[..i + 1], verdict) == StripEach(paths[..i], verdict) + [StripPath(paths[i], verdict)]
    ensures Keys(Filter(StripEach(paths[..i + 1], verdict), IsEmpty), PathKey)
      == Keys(Filter(StripEach(paths[..i], verdict), IsEmpty), PathKey)
        + (if IsEmpty(StripPath(paths[i], verdict)) then [paths[i].key] else [])
    ensures PathsSucceed(paths[..i], verdict) && OpsSucceed(paths[i].operations, verdict)
      ==> PathsSucceed(paths[..i + 1], verdict)
  {
    assert paths[..i + 1] == paths[..i] + [paths[i]];
    assert StripEach(paths[..i + 1], verdict) == StripEach(paths[..i], verdict) + [StripPath(paths[i], verdict)];
    assert current[i := StripPath(paths[i], verdict)] == StripEach(paths[..i + 1], verdict) + paths[i + 1..];
    FilterAppend(StripEach(paths[..i], verdict), [StripPath(paths[i], verdict)], IsEmpty);
  }

  /** Removing the collected keys of the empty stripped paths leaves the pruned document. */
  lemma RemoveEmptyPaths(paths: seq<PathEntry>, verdict: Operation -> Verdict, keep: PathEntry -> bool)
    requires WellKeyed(paths)
    requires forall p :: keep(p) <==> p.key !in Keys(Filter(StripEach(paths, verdict), IsEmpty), PathKey)
    ensures Filter(StripEach(paths, verdict), keep) == Pruned(paths, verdict)
    ensures WellKeyed(Pruned(paths, verdict))
  {
    var stripped := StripEach(paths, verdict);
    StripEachWellKeyed(paths, verdict);
    RemoveCollectedKeys(stripped, PathKey, IsEmpty, keep);
    FilterAgree(stripped, keep, NonEmpty);
    FilterDistinctKeys(stripped, PathKey, NonEmpty);
    var pruned := Pruned(paths, verdict);
    forall i | 0 <= i < |pruned| ensures DistinctKeys(pruned[i].operations, OpKey) {
      FilterMember(stripped, NonEmpty, pruned[i]);
    }
  }

  /** The verdict of operation `j` of path `i` throws, and no verdict before it does. */
  predicate PruneThrowsAt(paths: seq<PathEntry>, verdict: Operation -> Verdict, i: int, j: int) {
    && 0 <= i < |paths| && 0 <= j < |paths[i].operations|
    && PathsSucceed(paths[..i], verdict)
    && OpsSucceed(paths[i].operations[..j], verdict)
    && verdict(paths[i].operations[j].op).Throw?
  }

  /** A verdict that throws anywhere makes the whole pass throw. */
  lemma PruneThrowsAtFails(paths: seq<PathEntry>, verdict: Operation -> Verdict, i: int, j: int)
    requires PruneThrowsAt(paths, verdict, i, j)
    ensures !PathsSucceed(paths, verdict)
  {
    assert !OpsSucceed(paths[i].operations, verdict);
  }

  /** Removing the collected keys from a path's operations removes exactly the dropped ones. */
  method RemoveDroppedOperations(ops: seq<OpEntry>, verdict: Operation -> Verdict, opKeysToRemove: seq<OperationType>)
    returns (remaining: seq<OpEntry>)
    requires DistinctKeys(ops, OpKey)
    requires opKeysToRemove == Keys(Filter(ops, IsDropped(verdict)), OpKey)
    ensures remaining == Filter(ops, Kept(verdict))
  {
    var keepOp := (e: OpEntry) => e.key !in opKeysToRemove;
    remaining := Filter(ops, keepOp);
    RemoveCollectedKeys(ops, OpKey, IsDropped(verdict), keepOp);
    FilterAgree(ops, keepOp, Kept(verdict));
  }

  /**
   * One path's turn in the pass: its dropped operations removed, or the index of the first
   * operation whose verdict throws.
   */
  method StripOperations(path: PathEntry, verdict: Operation -> Verdict) returns (throwsAt: Option<nat>, stripped: PathEntry)
    requires DistinctKeys(path.operations, OpKey)
    ensures throwsAt.None? <==> OpsSucceed(path.operations, verdict)
    ensures throwsAt.None? ==> stripped == StripPath(path, verdict)
    ensures throwsAt.Some? ==>
      && throwsAt.value < |path.operations| && OpsSucceed(path.operations[..throwsAt.value], verdict)
      && verdict(path.operations[throwsAt.value].op).Throw?
  {
    var opKeysToRemove;
    throwsAt, opKeysToRemove := CollectDroppedKeys(path.operations, verdict);
    stripped := path;
    if throwsAt.None? {
      var remaining := RemoveDroppedOperations(path.operations, verdict, opKeysToRemove);
      stripped := path.(operations := remaining);
    }
  }

  /** Removing the collected path keys from the stripped paths removes exactly the empty ones. */
  method RemovePathKeys(ghost paths: seq<PathEntry>, verdict: Operation -> Verdict, stripped: seq<PathEntry>, pathKeysToRemove: seq<string>)
    returns (r: seq<PathEntry>)
    requires WellKeyed(paths) && stripped == StripEach(paths, verdict)
    requires pathKeysToRemove == Keys(Filter(stripped, IsEmpty), PathKey)
    ensures r == Pruned(paths, verdict) && WellKeyed(r)
  {
    var keepPath := (p: PathEntry) => p.key !in pathKeysToRemove;
    RemoveEmptyPaths(paths, verdict, keepPath);
    r := Filter(stripped, keepPath);
  }

  /**
   * The shared pass of the excluding transformers: for each path in turn, collect the keys
   * of its dropped operations and remove them; then remove every path left without
   * operations. A verdict that throws ends the pass there: earlier paths have lost their
   * dropped operations, but no path has been removed yet.
   */
  method PruneOperations(doc: OpenApiDocument, verdict: Operation -> Verdict) returns (r: Outcome<TransformError>)
    requires doc.Valid()
    modifies doc
    ensures doc.info == old(doc.info)
    ensures r.Pass? <==> PathsSucceed(old(doc.paths), verdict)
    ensures r.Pass? ==> doc.paths == Pruned(old(doc.paths), verdict) && doc.Valid()
    ensures r.Fail? ==> exists i, j ::
      && PruneThrowsAt(old(doc.paths), verdict, i, j)
      && verdict(old(doc.paths)[i].operations[j].op) == Throw(r.error)
      && doc.paths == StripEach(old(doc.paths)[..i], verdict) + old(doc.paths)[i..]
  {
    ghost var paths0 := doc.paths;
    var pathKeysToRemove: seq<string> := [];
    for i := 0 to |doc.paths|
      invariant |doc.paths| == |paths0| && doc.info == old(doc.info)
      invariant PathsSucceed(paths0[..i], verdict)
      invariant doc.paths == StripEach(paths0[..i], verdict) + paths0[i..]
      invariant pathKeysToRemove == Keys(Filter(StripEach(paths0[..i], verdict), IsEmpty), PathKey)
    {
      var path := doc.paths[i];
      assert path == paths0[i];
      var throwsAt, stripped := StripOperations(path, verdict);
      if throwsAt.Some? {
        assert PruneThrowsAt(paths0, verdict, i, throwsAt.value);
        PruneThrowsAtFails(paths0, verdict, i, throwsAt.value);
        return Fail(verdict(path.operations[throwsAt.value].op).error);
      }
      StripEachSnoc(paths0, verdict, i, doc.paths);
      doc.paths := doc.paths[i := stripped];
      if |stripped.operations| == 0 {
        pathKeysToRemove := pathKeysToRemove + [path.key];
      }
    }
    assert paths0[..|paths0|] == paths0;
    doc.paths := RemovePathKeys(paths0, verdict, doc.paths, pathKeysToRemove);
    r := Pass;
  }

  /**
   * After a pass that throws nowhere, a path key keeps an operation exactly when the
   * operation was under that key and its verdict was not `Drop`; and no path is left empty.
   */
  lemma PrunedMember(paths: seq<PathEntry>, verdict: Operation -> Verdict, k: string, e: OpEntry)
    ensures forall i :: 0 <= i < |Pruned(paths, verdict)| ==> NonEmpty(Pruned(paths, verdict)[i])
    ensures (exists i :: 0 <= i < |Pruned(paths, verdict)| && Pruned(paths, verdict)[i].key == k
               && e in Pruned(paths, verdict)[i].operations)
      <==> (exists i :: 0 <= i < |paths| && paths[i].key == k && e in paths[i].operations)
           && !verdict(e.op).Drop?
  {
    var stripped := StripEach(paths, verdict);
    var pruned := Pruned(paths, verdict);
    var keep := Kept(verdict);
    if exists i :: 0 <= i < |pruned| && pruned[i].key == k && e in pruned[i].operations {
      var i :| 0 <= i < |pruned| && pruned[i].key == k && e in pruned[i].operations;
      FilterMember(stripped, NonEmpty, pruned[i]);
      var j :| 0 <= j < |stripped| && stripped[j] == pruned[i];
      FilterMember(paths[j].operations, keep, e);
    }
    if (exists i :: 0 <= i < |paths| && paths[i].key == k && e in paths[i].operations) && !verdict(e.op).Drop? {
      var i :| 0 <= i < |paths| && paths[i].key == k && e in paths[i].operations;
      FilterMember(paths[i].operations, keep, e);
      assert e in stripped[i].operations;
      FilterMember(stripped, NonEmpty, stripped[i]);
      var m :| 0 <= m < |pruned| && pruned[m] == stripped[i];
    }
  }

  /**
   * A pass whose verdict never throws is idempotent: once the dropped operations and the
   * empty paths are gone, a second pass finds nothing to remove.
   */
  lemma PrunedIdempotent(paths: seq<PathEntry>, verdict: Operation -> Verdict)
    ensures Pruned(Pruned(paths, verdict), verdict) == Pruned(paths, verdict)
  {
    var stripped := StripEach(paths, verdict);
    var pruned := Pruned(paths, verdict);
    forall i | 0 <= i < |pruned| ensures StripPath(pruned[i], verdict) == pruned[i] {
      FilterMember(stripped, NonEmpty, pruned[i]);
      var j :| 0 <= j < |stripped| && stripped[j] == pruned[i];
      FilterIdempotent(paths[j].operations, Kept(verdict));
    }
    assert StripEach(pruned, verdict) == pruned;
    FilterIdempotent(stripped, NonEmpty);
  }
}
