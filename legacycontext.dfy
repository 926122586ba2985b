/**
 * `VersionedRouteContext<T>`, the earlier form of the range composer. It validates ranges the
 * same way but builds each version's context from the version's own conventions only: an
 * enclosing group contributes its prefix and nothing else.
 */
module LegacyRouteContext {
  import opened Wrappers
  import opened Errors
  import opened VersionMetadata
  import opened VersionSets
  import opened Routing
  import opened RangeExpansion
  import VersionedRoutes

  /** The context of one version: no group conventions, no group finally-conventions. */
  function LegacyContext(vs: RouteVersionSet, outerPrefix: Option<RoutePattern>, meta: RouteVersionMetadata, v: Version): GroupContext {
    GroupContext(
      Combine(outerPrefix, Parse(vs.GetSlug(v))),
      [AttachMetadata(meta)] + meta.conventions,
      meta.finallyConventions)
  }

  /**
   * The legacy context is the current one for a group that carries only a prefix: whatever
   * conventions the enclosing group has, the legacy composer behaves as if it had none.
   */
  lemma LegacyContextIgnoresGroupConventions(
    vs: RouteVersionSet, group: GroupContext, meta: RouteVersionMetadata, v: Version)
    ensures LegacyContext(vs, Some(group.prefix), meta, v)
      == VersionedRoutes.VersionContext(vs, Some(GroupContext(group.prefix, [], [])), meta, v)
    ensures LegacyContext(vs, None, meta, v) == VersionedRoutes.VersionContext(vs, None, meta, v)
  {
    assert [AttachMetadata(meta)] + [] + meta.conventions == [AttachMetadata(meta)] + meta.conventions;
    assert [] + meta.finallyConventions == meta.finallyConventions;
  }

  /** The legacy `Builder`: collects the data sources mapped into one range. */
  class LegacyBuilder {
    const outer: EndpointRouteBuilder<LegacyDataSource>
    var dataSources: seq<NestedSource>

    constructor (outer: EndpointRouteBuilder<LegacyDataSource>)
      ensures this.outer == outer && dataSources == []
    {
      this.outer := outer;
      dataSources := [];
    }

    method AddDataSource(ds: NestedSource)
      modifies this
      ensures dataSources == old(dataSources) + [ds]
    {
      dataSources := dataSources + [ds];
    }
  }

  /** The legacy data source of one version range. */
  class LegacyDataSource {
    const vs: RouteVersionSet
    const builder: LegacyBuilder
    const from: Version
    const to: Option<Version>
    var changeTokenDataSource: CompositeEndpointDataSource?

    constructor (vs: RouteVersionSet, builder: LegacyBuilder, from: Version, to: Option<Version>)
      ensures this.vs == vs && this.builder == builder && this.from == from && this.to == to
      ensures changeTokenDataSource == null
    {
      this.vs := vs;
      this.builder := builder;
      this.from := from;
      this.to := to;
      changeTokenDataSource := null;
    }

    function Admit(): Version -> bool {
      v => InRange(vs, v, from, to)
    }

    function ContextOf(outerPrefix: Option<RoutePattern>): (RouteVersionMetadata, Version) -> GroupContext {
      (meta, v) => LegacyContext(vs, outerPrefix, meta, v)
    }

    /**
     * `GetEndpoints(outerPrefix)`. The source looks up every version's metadata before the
     * range test; for a built set that lookup cannot fail, so only admitted versions matter.
     */
    method GetEndpoints(outerPrefix: Option<RoutePattern>) returns (list: seq<Endpoint>)
      requires vs.Valid()
      ensures list == Expand(vs, vs.Enumerate(), Admit(), ContextOf(outerPrefix), builder.dataSources)
    {
      VersionedRoutes.ValidRegistered(vs);
      list := CollectEndpoints(vs, vs.Enumerate(), Admit(), ContextOf(outerPrefix), builder.dataSources);
    }

    method Endpoints() returns (list: seq<Endpoint>)
      requires vs.Valid()
      ensures list == Expand(vs, vs.Enumerate(), Admit(), ContextOf(None), builder.dataSources)
    {
      list := GetEndpoints(None);
    }

    /** `GetGroupedEndpoints(groupCtx)`: only the group's prefix is passed on. */
    method GetGroupedEndpoints(group: GroupContext) returns (list: seq<Endpoint>)
      requires vs.Valid()
      ensures list == Expand(vs, vs.Enumerate(), Admit(), ContextOf(Some(group.prefix)), builder.dataSources)
    {
      list := GetEndpoints(Some(group.prefix));
    }

    /** `GetChangeToken()`: the same none / one / memoised-composite rule as the current composer. */
    method GetChangeToken() returns (token: ChangeToken)
      modifies this
      ensures |builder.dataSources| == 0 ==> token == NullChangeToken
      ensures |builder.dataSources| == 1 ==> token == builder.dataSources[0].changeToken
      ensures |builder.dataSources| < 2 ==> changeTokenDataSource == old(changeTokenDataSource)
      ensures |builder.dataSources| >= 2 ==>
        && changeTokenDataSource != null
        && token == CompositeToken(changeTokenDataSource)
        && (old(changeTokenDataSource) != null ==> changeTokenDataSource == old(changeTokenDataSource))
        && (old(changeTokenDataSource) == null ==>
              fresh(changeTokenDataSource) && changeTokenDataSource.sources == builder.dataSources)
    {
      if |builder.dataSources| == 0 {
        token := NullChangeToken;
      } else if |builder.dataSources| == 1 {
        token := builder.dataSources[0].changeToken;
      } else {
        if changeTokenDataSource == null {
          changeTokenDataSource := new CompositeEndpointDataSource(builder.dataSources);
        }
        token := CompositeToken(changeTokenDataSource);
      }
    }
  }

  /**
   * Grouped legacy endpoints are the current composer's endpoints for the same group stripped
   * of its conventions; ungrouped ones are the current composer's.
   */
  lemma LegacyEndpointsDropGroupConventions(
    vs: RouteVersionSet, from: Version, to: Option<Version>, group: GroupContext, sources: seq<NestedSource>)
    requires Registered(vs, vs.Enumerate())
    ensures
      var admit := (v: Version) => InRange(vs, v, from, to);
      Expand(vs, vs.Enumerate(), admit, (meta, v) => LegacyContext(vs, Some(group.prefix), meta, v), sources)
      == Expand(vs, vs.Enumerate(), admit,
           (meta, v) => VersionedRoutes.VersionContext(vs, Some(GroupContext(group.prefix, [], [])), meta, v), sources)
  {
    var admit := (v: Version) => InRange(vs, v, from, to);
    var legacy := (meta, v) => LegacyContext(vs, Some(group.prefix), meta, v);
    var current := (meta, v) => VersionedRoutes.VersionContext(vs, Some(GroupContext(group.prefix, [], [])), meta, v);
    forall meta, v ensures legacy(meta, v) == current(meta, v) {
      LegacyContextIgnoresGroupConventions(vs, group, meta, v);
    }
    ExpandAgree(vs, vs.Enumerate(), admit, legacy, current, sources);
  }

  /** `VersionedRouteContext<T>(outer, versions)`. */
  class VersionedRouteContext {
    const outer: EndpointRouteBuilder<LegacyDataSource>
    const vs: RouteVersionSet

    constructor (outer: EndpointRouteBuilder<LegacyDataSource>, vs: RouteVersionSet)
      ensures this.outer == outer && this.vs == vs
    {
      this.outer := outer;
      this.vs := vs;
    }

    /** `MakeBuilder(from, to)`: the same checks, in the same order, as the current composer. */
    method MakeBuilder(from: Version, to: Option<Version>) returns (r: Result<LegacyBuilder, SetupError>)
      modifies outer
      ensures ValidateRange(vs, from, to).Fail? ==>
        r == Failure(ValidateRange(vs, from, to).error) && outer.dataSources == old(outer.dataSources)
      ensures ValidateRange(vs, from, to).Pass? ==>
        && r.Success? && fresh(r.value) && r.value.outer == outer && r.value.dataSources == []
        && |outer.dataSources| == |old(outer.dataSources)| + 1
        && outer.dataSources[..|old(outer.dataSources)|] == old(outer.dataSources)
        && var ds := outer.dataSources[|old(outer.dataSources)|];
          ds.vs == vs && ds.builder == r.value && ds.from == from && ds.to == to
          && ds.changeTokenDataSource == null
    {
      var check := ValidateRange(vs, from, to);
      if check.Fail? {
        return Failure(check.error);
      }
      var builder := new LegacyBuilder(outer);
      var ds := new LegacyDataSource(vs, builder, from, to);
      outer.dataSources := outer.dataSources + [ds];
      r := Success(builder);
    }

    method From(from: Version) returns (r: Result<LegacyBuilder, SetupError>)
      modifies outer
      ensures ValidateRange(vs, from, None).Fail? ==>
        r == Failure(ValidateRange(vs, from, None).error) && outer.dataSources == old(outer.dataSources)
      ensures ValidateRange(vs, from, None).Pass? ==>
        && r.Success? && fresh(r.value) && r.value.outer == outer && r.value.dataSources == []
        && |outer.dataSources| == |old(outer.dataSources)| + 1
        && outer.dataSources[..|old(outer.dataSources)|] == old(outer.dataSources)
        && var ds := outer.dataSources[|old(outer.dataSources)|];
          ds.vs == vs && ds.builder == r.value && ds.from == from && ds.to == None
          && ds.changeTokenDataSource == null
    {
      r := MakeBuilder(from, None);
    }

    method Between(from: Version, to: Version) returns (r: Result<LegacyBuilder, SetupError>)
      modifies outer
      ensures ValidateRange(vs, from, Some(to)).Fail? ==>
        r == Failure(ValidateRange(vs, from, Some(to)).error) && outer.dataSources == old(outer.dataSources)
      ensures ValidateRange(vs, from, Some(to)).Pass? ==>
        && r.Success? && fresh(r.value) && r.value.outer == outer && r.value.dataSources == []
        && |outer.dataSources| == |old(outer.dataSources)| + 1
        && outer.dataSources[..|old(outer.dataSources)|] == old(outer.dataSources)
        && var ds := outer.dataSources[|old(outer.dataSources)|];
          ds.vs == vs && ds.builder == r.value && ds.from == from && ds.to == Some(to)
          && ds.changeTokenDataSource == null
    {
      r := MakeBuilder(from, Some(to));
    }
  }
}
