/**
 * `VersionedRouteBuilder<T>` (`app.WithVersions(set)`): maps routes into a range of versions.
 * Each `From`/`Between` call registers one data source with the application; that data source
 * expands the routes mapped into the range once per admitted version.
 */
module VersionedRoutes {
  import opened Wrappers
  import opened Errors
  import opened VersionMetadata
  import opened VersionSets
  import opened Routing
  import opened RangeExpansion

  function GroupPrefix(group: Option<GroupContext>): Option<RoutePattern> {
    if group.Some? then Some(group.value.prefix) else None
  }

  function GroupConventions(group: Option<GroupContext>): seq<Convention> {
    if group.Some? then group.value.conventions else []
  }

  function GroupFinallyConventions(group: Option<GroupContext>): seq<Convention> {
    if group.Some? then group.value.finallyConventions else []
  }

  /** The `RouteGroupContext` a version's endpoints are built under. */
  function VersionContext(vs: RouteVersionSet, group: Option<GroupContext>, meta: RouteVersionMetadata, v: Version): GroupContext {
    GroupContext(
      Combine(GroupPrefix(group), Parse(vs.GetSlug(v))),
      [AttachMetadata(meta)] + GroupConventions(group) + meta.conventions,
      GroupFinallyConventions(group) + meta.finallyConventions)
  }

  /**
   * A version's context layers its parts: the prefix is the group's prefix followed by the
   * version's slug; the metadata-attaching convention comes first, then the group's
   * conventions, then the version's; the group's finally-conventions precede the version's.
   */
  lemma VersionContextLayers(vs: RouteVersionSet, group: Option<GroupContext>, meta: RouteVersionMetadata, v: Version)
    ensures var ctx := VersionContext(vs, group, meta, v);
      var p, g, gf := GroupPrefix(group), GroupConventions(group), GroupFinallyConventions(group);
      && (p.None? ==> ctx.prefix == Parse(vs.GetSlug(v)))
      && (p.Some? ==> ctx.prefix[..|p.value|] == p.value && ctx.prefix[|p.value|..] == Parse(vs.GetSlug(v)))
      && |ctx.conventions| == 1 + |g| + |meta.conventions|
      && ctx.conventions[0] == AttachMetadata(meta)
      && ctx.conventions[1..1 + |g|] == g
      && ctx.conventions[1 + |g|..] == meta.conventions
      && ctx.finallyConventions[..|gf|] == gf
      && ctx.finallyConventions[|gf|..] == meta.finallyConventions
  {
    var ctx := VersionContext(vs, group, meta, v);
    var g := GroupConventions(group);
    assert ctx.conventions == [AttachMetadata(meta)] + g + meta.conventions;
    assert ctx.conventions[1..] == g + meta.conventions;
    assert ctx.conventions[1..1 + |g|] == (g + meta.conventions)[..|g|];
  }

  lemma ValidRegistered(vs: RouteVersionSet)
    requires vs.Valid()
    ensures Registered(vs, vs.Enumerate())
  {
    forall i | 0 <= i < |vs.Enumerate()| ensures vs.Enumerate()[i] in vs.versions {
      var v := vs.order[i];
      assert v in vs.order;
      assert v in vs.versions <==> v in vs.order;
    }
  }

  /** The `IEndpointRouteBuilder` handed out for one version range; collects its data sources. */
  class InternalBuilder {
    const outer: EndpointRouteBuilder<DataSource>
    var dataSources: seq<NestedSource>

    constructor (outer: EndpointRouteBuilder<DataSource>)
      ensures this.outer == outer && dataSources == []
    {
      this.outer := outer;
      dataSources := [];
    }

    /** `DataSources.Add`: what mapping a route or a group into the range does. */
    method AddDataSource(ds: NestedSource)
      modifies this
      ensures dataSources == old(dataSources) + [ds]
    {
      dataSources := dataSources + [ds];
    }
  }

  /** The data source registered with the application for one version range. */
  class DataSource {
    const vs: RouteVersionSet
    const builder: InternalBuilder
    const from: Version
    const to: Option<Version>
    /** The composite built on the first request for a change token over several sources. */
    var changeTokenDataSource: CompositeEndpointDataSource?

    constructor (vs: RouteVersionSet, builder: InternalBuilder, from: Version, to: Option<Version>)
      ensures this.vs == vs && this.builder == builder && this.from == from && this.to == to
      ensures changeTokenDataSource == null
    {
      this.vs := vs;
      this.builder := builder;
      this.from := from;
      this.to := to;
      changeTokenDataSource := null;
    }

    function Admit(): Version -> bool {
      v => InRange(vs, v, from, to)
    }

    function ContextOf(group: Option<GroupContext>): (RouteVersionMetadata, Version) -> GroupContext {
      (meta, v) => VersionContext(vs, group, meta, v)
    }

    /**
     * `GetEndpoints(groupCtx)`: for each version of the set in enumeration order that lies in
     * the range, the endpoints of every nested source under that version's context.
     */
    method GetEndpoints(group: Option<GroupContext>) returns (list: seq<Endpoint>)
      requires vs.Valid()
      ensures list == Expand(vs, vs.Enumerate(), Admit(), ContextOf(group), builder.dataSources)
    {
      ValidRegistered(vs);
      list := CollectEndpoints(vs, vs.Enumerate(), Admit(), ContextOf(group), builder.dataSources);
    }

    /** `Endpoints`: the endpoints when mapped directly on the application. */
    method Endpoints() returns (list: seq<Endpoint>)
      requires vs.Valid()
      ensures list == Expand(vs, vs.Enumerate(), Admit(), ContextOf(None), builder.dataSources)
    {
      list := GetEndpoints(None);
    }

    /** `GetGroupedEndpoints(groupCtx)`: the endpoints when mapped inside a route group. */
    method GetGroupedEndpoints(group: GroupContext) returns (list: seq<Endpoint>)
      requires vs.Valid()
      ensures list == Expand(vs, vs.Enumerate(), Admit(), ContextOf(Some(group)), builder.dataSources)
    {
      list := GetEndpoints(Some(group));
    }

    /**
     * `GetChangeToken()`: none for no nested source, the source's own for one, and for more a
     * composite built on the first call and reused afterwards.
     */
    method GetChangeToken() returns (token: ChangeToken)
      modifies this
      ensures |builder.dataSources| == 0 ==> token == NullChangeToken
      ensures |builder.dataSources| == 1 ==> token == builder.dataSources[0].changeToken
      ensures |builder.dataSources| < 2 ==> changeTokenDataSource == old(changeTokenDataSource)
      ensures |builder.dataSources| >= 2 ==>
        && changeTokenDataSource != null
        && token == CompositeToken(changeTokenDataSource)
        && (old(changeTokenDataSource) != null ==> changeTokenDataSource == old(changeTokenDataSource))
        && (old(changeTokenDataSource) == null ==>
              fresh(changeTokenDataSource) && changeTokenDataSource.sources == builder.dataSources)
    {
      if |builder.dataSources| == 0 {
        token := NullChangeToken;
      } else if |builder.dataSources| == 1 {
        token := builder.dataSources[0].changeToken;
      } else {
        if changeTokenDataSource == null {
          changeTokenDataSource := new CompositeEndpointDataSource(builder.dataSources);
        }
        token := CompositeToken(changeTokenDataSource);
      }
    }
  }

  /** `VersionedRouteBuilder<T>(outer, set)`. */
  class VersionedRouteBuilder {
    const outer: EndpointRouteBuilder<DataSource>
    const vs: RouteVersionSet

    constructor (outer: EndpointRouteBuilder<DataSource>, vs: RouteVersionSet)
      ensures this.outer == outer && this.vs == vs
    {
      this.outer := outer;
      this.vs := vs;
    }

    /**
     * `MakeBuilder(from, to)`: on a valid range, registers one new data source for it with the
     * application and returns the range's empty builder; on an invalid one, throws and
     * registers nothing.
     */
    method MakeBuilder(from: Version, to: Option<Version>) returns (r: Result<InternalBuilder, SetupError>)
      modifies outer
      ensures ValidateRange(vs, from, to).Fail? ==>
        r == Failure(ValidateRange(vs, from, to).error) && outer.dataSources == old(outer.dataSources)
      ensures ValidateRange(vs, from, to).Pass? ==>
        && r.Success? && fresh(r.value) && r.value.outer == outer && r.value.dataSources == []
        && |outer.dataSources| == |old(outer.dataSources)| + 1
        && outer.dataSources[..|old(outer.dataSources)|] == old(outer.dataSources)
        && var ds := outer.dataSources[|old(outer.dataSources)|];
          ds.vs == vs && ds.builder == r.value && ds.from == from && ds.to == to
          && ds.changeTokenDataSource == null
    {
      var check := ValidateRange(vs, from, to);
      if check.Fail? {
        return Failure(check.error);
      }
      var builder := new InternalBuilder(outer);
      var ds := new DataSource(vs, builder, from, to);
      outer.dataSources := outer.dataSources + [ds];
      r := Success(builder);
    }

    /** `From(from)`: the open range of `from` and every later version. */
    method From(from: Version) returns (r: Result<InternalBuilder, SetupError>)
      modifies outer
      ensures ValidateRange(vs, from, None).Fail? ==>
        r == Failure(ValidateRange(vs, from, None).error) && outer.dataSources == old(outer.dataSources)
      ensures ValidateRange(vs, from, None).Pass? ==>
        && r.Success? && fresh(r.value) && r.value.outer == outer && r.value.dataSources == []
        && |outer.dataSources| == |old(outer.dataSources)| + 1
        && outer.dataSources[..|old(outer.dataSources)|] == old(outer.dataSources)
        && var ds := outer.dataSources[|old(outer.dataSources)|];
          ds.vs == vs && ds.builder == r.value && ds.from == from && ds.to == None
          && ds.changeTokenDataSource == null
    {
      r := MakeBuilder(from, None);
    }

    /** `Between(from, to)`: the closed range from `from` to `to`. */
    method Between(from: Version, to: Version) returns (r: Result<InternalBuilder, SetupError>)
      modifies outer
      ensures ValidateRange(vs, from, Some(to)).Fail? ==>
        r == Failure(ValidateRange(vs, from, Some(to)).error) && outer.dataSources == old(outer.dataSources)
      ensures ValidateRange(vs, from, Some(to)).Pass? ==>
        && r.Success? && fresh(r.value) && r.value.outer == outer && r.value.dataSources == []
        && |outer.dataSources| == |old(outer.dataSources)| + 1
        && outer.dataSources[..|old(outer.dataSources)|] == old(outer.dataSources)
        && var ds := outer.dataSources[|old(outer.dataSources)|];
          ds.vs == vs && ds.builder == r.value && ds.from == from && ds.to == Some(to)
          && ds.changeTokenDataSource == null
    {
      r := MakeBuilder(from, Some(to));
    }
  }

  /** `app.WithVersions(set)`: pairs the route builder with the set; nothing is checked. */
  method WithVersions(outer: EndpointRouteBuilder<DataSource>, vs: RouteVersionSet) returns (r: VersionedRouteBuilder)
    ensures fresh(r) && r.outer == outer && r.vs == vs
  {
    r := new VersionedRouteBuilder(outer, vs);
  }
}
