/**
 * The document transformers `AddVersionedOpenApi` installs, and the two an application can add
 * itself: each is given the document and the API descriptions of the application, seen
 * through the id-to-action map of `Helpers.OpenApiDocumentActions`.
 */
module Transformers {
  import opened Wrappers
  import opened Errors
  import opened Seqs
  import opened Features
  import opened VersionMetadata
  import opened OpenApiDocuments

  // ---------------------------------------------------------------- exclude inapplicable

  /** A version tag of an endpoint marks it as part of the target version of the document. */
  predicate TagMatches(tag: RouteVersionMetadata, target: RouteVersionMetadata) {
    SameSet(tag.UntypedSet(), target.versionSet) && tag.IsVersion(target.BoxedVersion())
  }

  /**
   * `ExcludeInapplicableOperationsTransformer`'s decision for one operation: an operation
   * whose action is not found stays; one without version tags stays only when unversioned
   * endpoints are included; a tagged one stays when some tag is of the document's set and
   * version.
   */
  function InapplicableVerdict(
    actions: map<string, ActionDescriptor>, target: RouteVersionMetadata, includeUnversioned: bool, op: Operation)
    : (v: Verdict)
    ensures !v.Throw?
  {
    match TryGetAction(actions, op)
    case None => Keep
    case Some(action) =>
      var tags := VersionTags(action.endpointMetadata);
      if |tags| == 0 then
        if includeUnversioned then Keep else Drop
      else if exists k :: 0 <= k < |tags| && TagMatches(tags[k], target) then Keep
      else Drop
  }

  function Inapplicable(actions: map<string, ActionDescriptor>, target: RouteVersionMetadata, includeUnversioned: bool)
    : Operation -> Verdict
  {
    (op: Operation) => InapplicableVerdict(actions, target, includeUnversioned, op)
  }

  /** `ExcludeInapplicableOperationsTransformer.TransformAsync`. */
  method ExcludeInapplicableTransform(
    doc: OpenApiDocument, groups: seq<seq<ActionDescriptor>>, target: RouteVersionMetadata, includeUnversioned: bool)
    requires doc.Valid()
    modifies doc
    ensures doc.Valid() && doc.info == old(doc.info)
    ensures doc.paths == Pruned(old(doc.paths), Inapplicable(ActionsMap(Flatten(groups)), target, includeUnversioned))
  {
    var docActions := DocumentActions(groups);
    assert PathsSucceed(doc.paths, Inapplicable(docActions, target, includeUnversioned));
    var r := PruneOperations(doc, Inapplicable(docActions, target, includeUnversioned));
  }

  /**
   * When an operation belongs in the document of `target`: its action is not described, or
   * the action has no version tag and unversioned endpoints are included, or one of its tags
   * is of the document's set and has the document's version (compared by value, whatever
   * comparer the set was built with).
   */
  predicate Applicable(
    actions: map<string, ActionDescriptor>, target: RouteVersionMetadata, includeUnversioned: bool, op: Operation)
  {
    var action := TryGetAction(actions, op);
    || action.None?
    || (|VersionTags(action.value.endpointMetadata)| == 0 && includeUnversioned)
    || (exists j :: 0 <= j < |VersionTags(action.value.endpointMetadata)|
          && SameSet(VersionTags(action.value.endpointMetadata)[j].versionSet, target.versionSet)
          && VersionTags(action.value.endpointMetadata)[j].version == target.version)
  }

  /** The transformer keeps exactly the applicable operations and drops the others. */
  lemma InapplicableVerdictMeaning(
    actions: map<string, ActionDescriptor>, target: RouteVersionMetadata, includeUnversioned: bool, op: Operation)
    ensures InapplicableVerdict(actions, target, includeUnversioned, op)
      == if Applicable(actions, target, includeUnversioned, op) then Keep else Drop
  {
    var action := TryGetAction(actions, op);
    if action.Some? {
      var tags := VersionTags(action.value.endpointMetadata);
      forall j | 0 <= j < |tags|
        ensures TagMatches(tags[j], target)
          <==> SameSet(tags[j].versionSet, target.versionSet) && tags[j].version == target.version
      {
      }
    }
  }

  /**
   * After the transformer, an operation is under a path key exactly when it was there before
   * and it is applicable to the document's version.
   */
  lemma ExcludeInapplicableSurvivors(
    paths: seq<PathEntry>, groups: seq<seq<ActionDescriptor>>, target: RouteVersionMetadata,
    includeUnversioned: bool, k: string, e: OpEntry)
    ensures var actions := ActionsMap(Flatten(groups));
      var after := Pruned(paths, Inapplicable(actions, target, includeUnversioned));
      (exists i :: 0 <= i < |after| && after[i].key == k && e in after[i].operations)
      <==> (
        && (exists i :: 0 <= i < |paths| && paths[i].key == k && e in paths[i].operations)
        && Applicable(actions, target, includeUnversioned, e.op))
  {
    var actions := ActionsMap(Flatten(groups));
    PrunedMember(paths, Inapplicable(actions, target, includeUnversioned), k, e);
    InapplicableVerdictMeaning(actions, target, includeUnversioned, e.op);
  }

  /** An operation whose action is not described survives the transformer. */
  lemma ExcludeInapplicableKeepsUndescribed(
    paths: seq<PathEntry>, groups: seq<seq<ActionDescriptor>>, target: RouteVersionMetadata,
    includeUnversioned: bool, i: nat, e: OpEntry)
    requires i < |paths| && e in paths[i].operations
    requires TryGetAction(ActionsMap(Flatten(groups)), e.op).None?
    ensures var after := Pruned(paths, Inapplicable(ActionsMap(Flatten(groups)), target, includeUnversioned));
      exists m :: 0 <= m < |after| && after[m].key == paths[i].key && e in after[m].operations
  {
    ExcludeInapplicableSurvivors(paths, groups, target, includeUnversioned, paths[i].key, e);
  }

  /** Running the transformer a second time leaves the document as the first run left it. */
  lemma ExcludeInapplicableIdempotent(
    paths: seq<PathEntry>, groups: seq<seq<ActionDescriptor>>, target: RouteVersionMetadata, includeUnversioned: bool)
    ensures var verdict := Inapplicable(ActionsMap(Flatten(groups)), target, includeUnversioned);
      Pruned(Pruned(paths, verdict), verdict) == Pruned(paths, verdict)
  {
    PrunedIdempotent(paths, Inapplicable(ActionsMap(Flatten(groups)), target, includeUnversioned));
  }

  // ---------------------------------------------------------------- exclude versioned

  /** `ExcludeVersionedOperationsTransformer`: drop what resolves to an action with any version tag. */
  function VersionedVerdict(actions: map<string, ActionDescriptor>, op: Operation): (v: Verdict)
    ensures !v.Throw?
  {
    match TryGetAction(actions, op)
    case None => Keep
    case Some(action) => if |VersionTags(action.endpointMetadata)| > 0 then Drop else Keep
  }

  function Versioned(actions: map<string, ActionDescriptor>): Operation -> Verdict {
    (op: Operation) => VersionedVerdict(actions, op)
  }

  /** `ExcludeVersionedOperationsTransformer.TransformAsync`. */
  method ExcludeVersionedTransform(doc: OpenApiDocument, groups: seq<seq<ActionDescriptor>>)
    requires doc.Valid()
    modifies doc
    ensures doc.Valid() && doc.info == old(doc.info)
    ensures doc.paths == Pruned(old(doc.paths), Versioned(ActionsMap(Flatten(groups))))
  {
    var docActions := DocumentActions(groups);
    assert PathsSucceed(doc.paths, Versioned(docActions));
    var r := PruneOperations(doc, Versioned(docActions));
  }

  /** An operation that resolves to an action carrying a version tag, of any set or version. */
  predicate ResolvesVersioned(actions: map<string, ActionDescriptor>, op: Operation) {
    var action := TryGetAction(actions, op);
    action.Some? && exists j :: 0 <= j < |action.value.endpointMetadata| && action.value.endpointMetadata[j].VersionTag?
  }

  /**
   * After the transformer, an operation is under a path key exactly when it was there and does
   * not resolve to a versioned action; so no versioned operation and no empty path is left.
   */
  lemma ExcludeVersionedSurvivors(paths: seq<PathEntry>, groups: seq<seq<ActionDescriptor>>, k: string, e: OpEntry)
    ensures var actions := ActionsMap(Flatten(groups));
      var after := Pruned(paths, Versioned(actions));
      && ((exists i :: 0 <= i < |after| && after[i].key == k && e in after[i].operations)
          <==> ((exists i :: 0 <= i < |paths| && paths[i].key == k && e in paths[i].operations)
                && !ResolvesVersioned(actions, e.op)))
      && (forall i :: 0 <= i < |after| ==> |after[i].operations| > 0)
  {
    PrunedMember(paths, Versioned(ActionsMap(Flatten(groups))), k, e);
  }

  /** No operation left after the transformer resolves to a versioned action. */
  lemma ExcludeVersionedLeavesNone(paths: seq<PathEntry>, groups: seq<seq<ActionDescriptor>>, i: nat, e: OpEntry)
    requires var after := Pruned(paths, Versioned(ActionsMap(Flatten(groups))));
      i < |after| && e in after[i].operations
    ensures !ResolvesVersioned(ActionsMap(Flatten(groups)), e.op)
  {
    var after := Pruned(paths, Versioned(ActionsMap(Flatten(groups))));
    ExcludeVersionedSurvivors(paths, groups, after[i].key, e);
  }

  /** A second run changes nothing. */
  lemma ExcludeVersionedIdempotent(paths: seq<PathEntry>, groups: seq<seq<ActionDescriptor>>)
    ensures var verdict := Versioned(ActionsMap(Flatten(groups)));
      Pruned(Pruned(paths, verdict), verdict) == Pruned(paths, verdict)
  {
    PrunedIdempotent(paths, Versioned(ActionsMap(Flatten(groups))));
  }

  // ---------------------------------------------------------------- mark sunsetted

  /** What `MarkSunsettedOperationsTransformer` does with one operation. */
  datatype Mark = Leave | Deprecate | MarkFail(error: TransformError)

  /**
   * An operation is deprecated when its action has exactly one version tag and that tag's
   * version has exactly one sunset. `SingleOrDefault` throws on a second tag, and on a second
   * sunset; an operation whose action is not found is left alone.
   */
  function SunsetMark(actions: map<string, ActionDescriptor>, op: Operation): (m: Mark)
    ensures m.MarkFail? ==> m.error == MoreThanOneElement
  {
    match TryGetAction(actions, op)
    case None => Leave
    case Some(action) =>
      var tags := VersionTags(action.endpointMetadata);
      if |tags| > 1 then MarkFail(MoreThanOneElement)
      else if |tags| == 0 then Leave
      else
        var sunsets := tags[0].GetFeatures(SunsetKind);
        if |sunsets| > 1 then MarkFail(MoreThanOneElement)
        else if |sunsets| == 1 then Deprecate
        else Leave
  }

  /** The operation after its mark is applied. */
  function MarkOp(actions: map<string, ActionDescriptor>, e: OpEntry): OpEntry {
    if SunsetMark(actions, e.op).Deprecate? then e.(op := e.op.(deprecated := true)) else e
  }

  function MarkOps(actions: map<string, ActionDescriptor>, ops: seq<OpEntry>): (r: seq<OpEntry>)
    ensures |r| == |ops| && forall j :: 0 <= j < |ops| ==> r[j] == MarkOp(actions, ops[j])
  {
    seq(|ops|, j requires 0 <= j < |ops| => MarkOp(actions, ops[j]))
  }

  function MarkPaths(actions: map<string, ActionDescriptor>, paths: seq<PathEntry>): (r: seq<PathEntry>)
    ensures |r| == |paths| && forall i :: 0 <= i < |paths| ==> r[i] == paths[i].(operations := MarkOps(actions, paths[i].operations))
  {
    seq(|paths|, i requires 0 <= i < |paths| => paths[i].(operations := MarkOps(actions, paths[i].operations)))
  }

  predicate MarksSucceed(actions: map<string, ActionDescriptor>, ops: seq<OpEntry>) {
    forall j :: 0 <= j < |ops| ==> !SunsetMark(actions, ops[j].op).MarkFail?
  }

  predicate AllMarksSucceed(actions: map<string, ActionDescriptor>, paths: seq<PathEntry>) {
    forall i :: 0 <= i < |paths| ==> MarksSucceed(actions, paths[i].operations)
  }

  /**
   * Marking one more operation extends the marked prefix: a deprecated operation is updated
   * in place, and any other is already as its mark leaves it.
   */
  lemma MarkOpsStep(actions: map<string, ActionDescriptor>, ops: seq<OpEntry>, j: nat, marked: seq<OpEntry>)
    requires j < |ops| && marked == MarkOps(actions, ops[..j]) + ops[j..]
    requires MarksSucceed(actions, ops[..j]) && !SunsetMark(actions, ops[j].op).MarkFail?
    ensures MarksSucceed(actions, ops[..j + 1])
    ensures SunsetMark(actions, ops[j].op).Deprecate? ==>
      marked[j := ops[j].(op := ops[j].op.(deprecated := true))] == MarkOps(actions, ops[..j + 1]) + ops[j + 1..]
    ensures !SunsetMark(actions, ops[j].op).Deprecate? ==> marked == MarkOps(actions, ops[..j + 1]) + ops[j + 1..]
  {
    assert ops[..j + 1] == ops[..j] + [ops[j]];
    assert marked[j := MarkOp(actions, ops[j])] == MarkOps(actions, ops[..j + 1]) + ops[j + 1..];
    if !SunsetMark(actions, ops[j].op).Deprecate? {
      assert marked[j := MarkOp(actions, ops[j])] == marked;
    }
  }

  /**
   * The inner loop over one path's operations: the operations with their marks applied, or
   * the index of the first operation whose mark throws, with the operations before it marked.
   */
  method MarkOperations(actions: map<string, ActionDescriptor>, ops: seq<OpEntry>)
    returns (throwsAt: Option<nat>, marked: seq<OpEntry>)
    ensures throwsAt.None? <==> MarksSucceed(actions, ops)
    ensures throwsAt.None? ==> marked == MarkOps(actions, ops)
    ensures throwsAt.Some? ==>
      && throwsAt.value < |ops| && MarksSucceed(actions, ops[..throwsAt.value])
      && SunsetMark(actions, ops[throwsAt.value].op).MarkFail?
      && marked == MarkOps(actions, ops[..throwsAt.value]) + ops[throwsAt.value..]
  {
    marked := ops;
    assert ops[..0] == [];
    for j := 0 to |ops|
      invariant MarksSucceed(actions, ops[..j])
      invariant marked == MarkOps(actions, ops[..j]) + ops[j..]
    {
      var e := ops[j];
      var m := SunsetMark(actions, e.op);
      if m.MarkFail? {
        return Some(j), marked;
      }
      MarkOpsStep(actions, ops, j, marked);
      if m.Deprecate? {
        marked := marked[j := e.(op := e.op.(deprecated := true))];
      }
    }
    assert ops[..|ops|] == ops;
    throwsAt := None;
  }

  /** The mark of operation `j` of path `i` throws, and none before it does. */
  predicate MarkThrowsAt(actions: map<string, ActionDescriptor>, paths: seq<PathEntry>, i: int, j: int) {
    && 0 <= i < |paths| && 0 <= j < |paths[i].operations|
    && AllMarksSucceed(actions, paths[..i])
    && MarksSucceed(actions, paths[i].operations[..j])
    && SunsetMark(actions, paths[i].operations[j].op).MarkFail?
  }

  /** The paths with every operation before operation `j` of path `i` marked. */
  function MarkedUpTo(actions: map<string, ActionDescriptor>, paths: seq<PathEntry>, i: nat, j: nat): seq<PathEntry>
    requires i < |paths| && j <= |paths[i].operations|
  {
    MarkPaths(actions, paths[..i])
      + [paths[i].(operations := MarkOps(actions, paths[i].operations[..j]) + paths[i].operations[j..])]
      + paths[i + 1..]
  }

  /**
   * `MarkSunsettedOperationsTransformer.TransformAsync`: sets `Deprecated` in place, path by
   * path. An exception leaves the operations visited before it marked.
   */
  method MarkSunsettedTransform(doc: OpenApiDocument, groups: seq<seq<ActionDescriptor>>)
    returns (r: Outcome<TransformError>)
    requires doc.Valid()
    modifies doc
    ensures doc.info == old(doc.info)
    ensures r.Pass? <==> AllMarksSucceed(ActionsMap(Flatten(groups)), old(doc.paths))
    ensures r.Pass? ==> doc.paths == MarkPaths(ActionsMap(Flatten(groups)), old(doc.paths))
    ensures r.Fail? ==> r.error == MoreThanOneElement && exists i, j ::
      MarkThrowsAt(ActionsMap(Flatten(groups)), old(doc.paths), i, j)
      && doc.paths == MarkedUpTo(ActionsMap(Flatten(groups)), old(doc.paths), i, j)
  {
    var docActions := DocumentActions(groups);
    ghost var paths0 := doc.paths;
    for i := 0 to |doc.paths|
      invariant |doc.paths| == |paths0| && doc.info == old(doc.info)
      invariant AllMarksSucceed(docActions, paths0[..i])
      invariant doc.paths == MarkPaths(docActions, paths0[..i]) + paths0[i..]
    {
      var path := doc.paths[i];
      assert path == paths0[i];
      var throwsAt, marked := MarkOperations(docActions, path.operations);
      MarkPathsSnoc(docActions, paths0, i, doc.paths, marked);
      doc.paths := doc.paths[i := path.(operations := marked)];
      if throwsAt.Some? {
        assert MarkThrowsAt(docActions, paths0, i, throwsAt.value);
        assert doc.paths == MarkedUpTo(docActions, paths0, i, throwsAt.value);
        return Fail(SunsetMark(docActions, path.operations[throwsAt.value].op).error);
      }
      assert AllMarksSucceed(docActions, paths0[..i + 1]) by {
        assert paths0[..i + 1] == paths0[..i] + [path];
      }
    }
    assert paths0[..|paths0|] == paths0;
    r := Pass;
  }

  /** Writing the marked operations of path `i` back extends the marked prefix, or records a partial path. */
  lemma MarkPathsSnoc(
    actions: map<string, ActionDescriptor>, paths: seq<PathEntry>, i: nat, current: seq<PathEntry>, marked: seq<OpEntry>)
    requires i < |paths|
    requires current == MarkPaths(actions, paths[..i]) + paths[i..]
    ensures marked == MarkOps(actions, paths[i].operations) ==>
      current[i := paths[i].(operations := marked)] == MarkPaths(actions, paths[..i + 1]) + paths[i + 1..]
    ensures current[i := paths[i].(operations := marked)]
      == MarkPaths(actions, paths[..i]) + [paths[i].(operations := marked)] + paths[i + 1..]
  {
    assert current[i := paths[i].(operations := marked)]
      == MarkPaths(actions, paths[..i]) + [paths[i].(operations := marked)] + paths[i + 1..];
    if marked == MarkOps(actions, paths[i].operations) {
      assert MarkPaths(actions, paths[..i + 1]) == MarkPaths(actions, paths[..i]) + [paths[i].(operations := marked)];
    }
  }

  /**
   * Marking keeps every path and operation key in place and never clears `Deprecated`; an
   * operation ends up deprecated exactly when it was, or when its action has a single version
   * tag whose version has a single sunset.
   */
  lemma MarkPathsShape(actions: map<string, ActionDescriptor>, paths: seq<PathEntry>, i: nat, j: nat)
    requires i < |paths| && j < |paths[i].operations|
    ensures var after := MarkPaths(actions, paths)[i].operations[j];
      var before := paths[i].operations[j];
      var action := TryGetAction(actions, before.op);
      && MarkPaths(actions, paths)[i].key == paths[i].key
      && |MarkPaths(actions, paths)[i].operations| == |paths[i].operations|
      && after.key == before.key
      && after.op.aspnetcoreId == before.op.aspnetcoreId
      && (after.op.deprecated <==> (
            || before.op.deprecated
            || (action.Some? && |VersionTags(action.value.endpointMetadata)| == 1
                && |VersionTags(action.value.endpointMetadata)[0].GetFeatures(SunsetKind)| == 1)))
  {
  }

  /** Marking twice is marking once: the mark does not depend on `Deprecated`. */
  lemma {:induction false} MarkPathsIdempotent(actions: map<string, ActionDescriptor>, paths: seq<PathEntry>)
    ensures MarkPaths(actions, MarkPaths(actions, paths)) == MarkPaths(actions, paths)
    ensures AllMarksSucceed(actions, MarkPaths(actions, paths)) <==> AllMarksSucceed(actions, paths)
  {
    var once := MarkPaths(actions, paths);
    forall i | 0 <= i < |paths|
      ensures MarkOps(actions, once[i].operations) == once[i].operations
      ensures MarksSucceed(actions, once[i].operations) <==> MarksSucceed(actions, paths[i].operations)
    {
      forall j | 0 <= j < |paths[i].operations|
        ensures SunsetMark(actions, once[i].operations[j].op) == SunsetMark(actions, paths[i].operations[j].op)
      {
        assert once[i].operations[j].op.aspnetcoreId == paths[i].operations[j].op.aspnetcoreId;
      }
    }
  }

  // ---------------------------------------------------------------- document info

  /** `new OpenApiInfo()`: nothing set. */
  const EmptyInfo := Info(None, None, None)

  /**
   * The info delegates run in order on the info, skipping any feature that is not one (none
   * are: the list is of the info kind).
   */
  function RunInfoDelegates(fs: seq<Feature>, runInfo: nat -> (Info -> Info), info: Info): Info {
    if fs == [] then info
    else
      var before := RunInfoDelegates(fs[..|fs| - 1], runInfo, info);
      var f := fs[|fs| - 1];
      if f.ConfigureOpenApiInfo? then runInfo(f.delegateId)(before) else before
  }

  /** The delegates of two registrations run as those of the first, then those of the second. */
  lemma {:induction false} RunInfoDelegatesAppend(a: seq<Feature>, b: seq<Feature>, runInfo: nat -> (Info -> Info), info: Info)
    ensures RunInfoDelegates(a + b, runInfo, info) == RunInfoDelegates(b, runInfo, RunInfoDelegates(a, runInfo, info))
    decreases |b|
  {
    if b == [] {
      assert a + b == a;
    } else {
      var n := |b| - 1;
      assert (a + b)[..|a + b| - 1] == a + b[..n];
      RunInfoDelegatesAppend(a, b[..n], runInfo, info);
    }
  }

  /** The info the transformer starts its delegates from: the document's own or a new one, with the slug as version. */
  function VersionedInfo(info: Option<Info>, meta: RouteVersionMetadata): (r: Info)
    ensures r.version == Some(meta.versionSet.slug(meta.version))
    ensures info.Some? ==> r.title == info.value.title && r.description == info.value.description
    ensures info.None? ==> r.title.None? && r.description.None?
  {
    (if info.Some? then info.value else EmptyInfo).(version := Some(meta.versionSet.slug(meta.version)))
  }

  /**
   * `DocumentInfoTransformer.TransformAsync`: creates the info when absent, sets its version
   * to the plain slug of the version, then runs the version's info delegates in registration
   * order.
   */
  method DocumentInfoTransform(doc: OpenApiDocument, meta: RouteVersionMetadata, runInfo: nat -> (Info -> Info))
    modifies doc
    ensures doc.paths == old(doc.paths)
    ensures doc.info == Some(RunInfoDelegates(meta.GetFeatures(OpenApiInfoKind), runInfo, VersionedInfo(old(doc.info), meta)))
  {
    if doc.info == None {
      doc.info := Some(EmptyInfo);
    }
    var info := doc.info.value.(version := Some(meta.versionSet.slug(meta.version)));
    doc.info := Some(info);
    var delegates := meta.GetFeatures(OpenApiInfoKind);
    for k := 0 to |delegates|
      invariant doc.paths == old(doc.paths)
      invariant doc.info == Some(RunInfoDelegates(delegates[..k], runInfo, VersionedInfo(old(doc.info), meta)))
    {
      assert delegates[..k + 1][..k] == delegates[..k];
      var f := delegates[k];
      if f.ConfigureOpenApiInfo? {
        doc.info := Some(runInfo(f.delegateId)(doc.info.value));
      }
    }
    assert delegates[..|delegates|] == delegates;
  }

  /**
   * Without info delegates the document's version is the plain slug (not the named slug of
   * the document), and a title or description the document had is kept.
   */
  lemma DocumentInfoWithoutDelegates(info: Option<Info>, meta: RouteVersionMetadata, runInfo: nat -> (Info -> Info))
    requires meta.GetFeatures(OpenApiInfoKind) == []
    ensures var r := RunInfoDelegates(meta.GetFeatures(OpenApiInfoKind), runInfo, VersionedInfo(info, meta));
      && r.version == Some(meta.versionSet.slug(meta.version))
      && (info.Some? ==> r.title == info.value.title && r.description == info.value.description)
  {
  }

  /**
   * A delegate registered last sees the version already set, so it may override it: the
   * result is that delegate applied to what the earlier ones produced.
   */
  lemma LastInfoDelegateWins(fs: seq<Feature>, id: nat, info: Option<Info>, meta: RouteVersionMetadata, runInfo: nat -> (Info -> Info))
    ensures RunInfoDelegates(fs + [ConfigureOpenApiInfo(id)], runInfo, VersionedInfo(info, meta))
      == runInfo(id)(RunInfoDelegates(fs, runInfo, VersionedInfo(info, meta)))
  {
    RunInfoDelegatesAppend(fs, [ConfigureOpenApiInfo(id)], runInfo, VersionedInfo(info, meta));
  }
}
