/**
 * `RemoveInapplicableOperationsTransformer<T>`, the transformer of the earlier OpenAPI wiring.
 * It reads the `RouteVersionEndpointMetadata` tags of the legacy mapping API, asks each tag's
 * own equality comparer, always keeps unversioned operations, and builds its id-to-action map
 * with `ToDictionary`, which throws on a repeated id.
 */
module LegacyTransformer {
  import opened Wrappers
  import opened Errors
  import opened Seqs
  import opened VersionMetadata
  import opened OpenApiDocuments

  function ActionId(a: ActionDescriptor): string { a.id }

  /**
   * `ToDictionary(d => d.Id)` over every description group's actions: the id-to-action map,
   * or an `ArgumentException` for the first action whose id an earlier action already had.
   */
  method ActionsById(groups: seq<seq<ActionDescriptor>>) returns (r: Result<map<string, ActionDescriptor>, TransformError>)
    ensures r.Success? <==> DistinctKeys(Flatten(groups), ActionId)
    ensures r.Success? ==> r.value == ActionsMap(Flatten(groups))
    ensures r.Failure? ==> exists i, j :: (
      && 0 <= i < j < |Flatten(groups)|
      && Flatten(groups)[i].id == Flatten(groups)[j].id
      && DistinctKeys(Flatten(groups)[..j], ActionId)
      && r.error == DuplicateKey(Flatten(groups)[j].id))
  {
    var all := Flatten(groups);
    var dict: map<string, ActionDescriptor> := map[];
    for k := 0 to |all|
      invariant DistinctKeys(all[..k], ActionId)
      invariant dict == ActionsMap(all[..k])
    {
      var a := all[k];
      ActionsMapDomain(all[..k], a.id);
      if a.id in dict {
        var i :| 0 <= i < k && all[..k][i].id == a.id;
        assert all[i].id == all[k].id;
        return Failure(DuplicateKey(a.id));
      }
      forall i | 0 <= i < k ensures ActionId(all[i]) != ActionId(all[k]) {
        assert all[..k][i] == all[i];
      }
      DistinctKeysSnoc(all, k, ActionId);
      assert all[..k + 1][..k] == all[..k];
      dict := dict[a.id := a];
    }
    assert all[..|all|] == all;
    r := Success(dict);
  }

  /**
   * With distinct ids the map sends each described id to the one action that has it, and knows
   * no other id.
   */
  lemma ActionsByIdLookup(groups: seq<seq<ActionDescriptor>>, i: nat, id: string)
    requires DistinctKeys(Flatten(groups), ActionId)
    requires i < |Flatten(groups)|
    ensures Flatten(groups)[i].id in ActionsMap(Flatten(groups))
    ensures ActionsMap(Flatten(groups))[Flatten(groups)[i].id] == Flatten(groups)[i]
    ensures id in ActionsMap(Flatten(groups)) <==> exists m :: 0 <= m < |Flatten(groups)| && Flatten(groups)[m].id == id
  {
    var all := Flatten(groups);
    ActionsMapDomain(all, id);
    ActionsMapDomain(all, all[i].id);
    ActionsMapLast(all, all[i].id);
    var m :| 0 <= m < |all| && all[m].id == all[i].id && ActionsMap(all)[all[i].id] == all[m]
      && forall j :: m < j < |all| ==> all[j].id != all[i].id;
    assert ActionId(all[m]) == ActionId(all[i]);
    assert m == i;
  }

  /**
   * The decision for one operation: with a string id found in the map, an action with more
   * than one legacy tag throws (`SingleOrDefault`), and one with exactly one tag is removed
   * when the tag's comparer says its version is not the document's. Everything else stays.
   */
  function LegacyVerdict(actionsById: map<string, ActionDescriptor>, version: Version, op: Operation): (v: Verdict)
    ensures v.Throw? ==> v.error == MoreThanOneElement
  {
    match TryGetAction(actionsById, op)
    case None => Keep
    case Some(action) =>
      var tags := LegacyTags(action.endpointMetadata);
      if |tags| > 1 then Throw(MoreThanOneElement)
      else if |tags| == 1 && !tags[0].versionComparer(tags[0].version, version) then Drop
      else Keep
  }

  function Legacy(actionsById: map<string, ActionDescriptor>, version: Version): Operation -> Verdict {
    (op: Operation) => LegacyVerdict(actionsById, version, op)
  }

  /** `RemoveInapplicableOperationsTransformer.TransformAsync`. */
  method RemoveInapplicableTransform(doc: OpenApiDocument, groups: seq<seq<ActionDescriptor>>, version: Version)
    returns (r: Outcome<TransformError>)
    requires doc.Valid()
    modifies doc
    ensures doc.info == old(doc.info)
    ensures !DistinctKeys(Flatten(groups), ActionId) ==>
      r.Fail? && r.error.DuplicateKey? && doc.paths == old(doc.paths)
    ensures DistinctKeys(Flatten(groups), ActionId) ==>
      var verdict := Legacy(ActionsMap(Flatten(groups)), version);
      && (r.Pass? <==> PathsSucceed(old(doc.paths), verdict))
      && (r.Pass? ==> doc.paths == Pruned(old(doc.paths), verdict) && doc.Valid())
      && (r.Fail? ==> r.error == MoreThanOneElement && exists i :: (
            && 0 <= i < |old(doc.paths)| && PathsSucceed(old(doc.paths)[..i], verdict)
            && !OpsSucceed(old(doc.paths)[i].operations, verdict)
            && doc.paths == StripEach(old(doc.paths)[..i], verdict) + old(doc.paths)[i..]))
  {
    var actionsById := ActionsById(groups);
    if actionsById.Failure? {
      return Fail(actionsById.error);
    }
    r := PruneOperations(doc, Legacy(actionsById.value, version));
  }

  /**
   * After a pass that does not throw, an operation is under a path key exactly when it was
   * there and it is not one whose single legacy tag's comparer rejects the document's
   * version: operations with no legacy tag, including those tagged by the current API, stay.
   */
  lemma RemoveInapplicableSurvivors(
    paths: seq<PathEntry>, actionsById: map<string, ActionDescriptor>, version: Version, k: string, e: OpEntry)
    ensures var after := Pruned(paths, Legacy(actionsById, version));
      var action := TryGetAction(actionsById, e.op);
      (exists i :: 0 <= i < |after| && after[i].key == k && e in after[i].operations)
      <==> (
        && (exists i :: 0 <= i < |paths| && paths[i].key == k && e in paths[i].operations)
        && !(&& action.Some? && |LegacyTags(action.value.endpointMetadata)| == 1
             && !LegacyTags(action.value.endpointMetadata)[0].versionComparer(
                  LegacyTags(action.value.endpointMetadata)[0].version, version)))
  {
    PrunedMember(paths, Legacy(actionsById, version), k, e);
  }

  /**
   * An operation without a legacy tag is kept whatever the version, and never makes the pass
   * throw: there is no switch to drop unversioned operations.
   */
  lemma LegacyKeepsUnversioned(actionsById: map<string, ActionDescriptor>, version: Version, op: Operation)
    requires var action := TryGetAction(actionsById, op);
      action.None? || forall j :: 0 <= j < |action.value.endpointMetadata| ==> !action.value.endpointMetadata[j].LegacyVersionTag?
    ensures LegacyVerdict(actionsById, version, op) == Keep
  {
  }

  /** A second pass over the result of one that did not throw changes nothing. */
  lemma RemoveInapplicableIdempotent(paths: seq<PathEntry>, actionsById: map<string, ActionDescriptor>, version: Version)
    ensures Pruned(Pruned(paths, Legacy(actionsById, version)), Legacy(actionsById, version))
      == Pruned(paths, Legacy(actionsById, version))
  {
    PrunedIdempotent(paths, Legacy(actionsById, version));
  }
}
