/**
 * The ASP.NET Core routing pieces the composers work with, kept abstract: route patterns as
 * segment lists, route-group contexts, nested endpoint data sources and change tokens.
 */
module Routing {
  import opened Wrappers
  import opened Text
  import opened VersionMetadata

  /** A route pattern as its literal segments. */
  type RoutePattern = seq<string>

  /** `RoutePatternFactory.Parse` of a literal path: its non-empty '/'-separated segments. */
  function Parse(s: string): (r: RoutePattern)
    ensures forall k :: 0 <= k < |r| ==> r[k] != [] && IndexOf(r[k], "/") == -1
    decreases |s|
  {
    var i := IndexOf(s, "/");
    if i == -1 then (if s == [] then [] else [s])
    else
      var head := s[..i];
      assert IndexOf(head, "/") == -1 by {
        forall j ensures !OccursAt(head, "/", j) {
          if OccursAt(head, "/", j) {
            assert s[j..j + 1] == head[j..j + 1];
            assert OccursAt(s, "/", j);
          }
        }
      }
      (if head == [] then [] else [head]) + Parse(s[i + 1..])
  }

  /** `RoutePatternFactory.Combine(left, right)`: `right` alone when there is no left part. */
  function Combine(left: Option<RoutePattern>, right: RoutePattern): (r: RoutePattern)
    ensures left.None? ==> r == right
    ensures left.Some? ==> |r| == |left.value| + |right| && r[..|left.value|] == left.value && r[|left.value|..] == right
  {
    match left
    case None => right
    case Some(l) => l + right
  }

  /** `RouteGroupContext`: the prefix and conventions a group hands to its data sources. */
  datatype GroupContext = GroupContext(
    prefix: RoutePattern,
    conventions: seq<Convention>,
    finallyConventions: seq<Convention>)

  /** A built endpoint: its route pattern, the conventions applied to it, and its handler. */
  datatype Endpoint = Endpoint(
    routePattern: RoutePattern,
    conventions: seq<Convention>,
    finallyConventions: seq<Convention>,
    handler: nat)

  /**
   * `CompositeEndpointDataSource` over a snapshot of data sources; only its identity
   * matters here.
   */
  class CompositeEndpointDataSource {
    const sources: seq<NestedSource>

    constructor (sources: seq<NestedSource>)
      ensures this.sources == sources
    {
      this.sources := sources;
    }
  }

  /** `IChangeToken`. */
  datatype ChangeToken =
    | NullChangeToken
    /** The token of a data source mapped into a version range. */
    | SourceToken(sourceId: nat)
    /** The token of a composite data source. */
    | CompositeToken(composite: CompositeEndpointDataSource)

  /**
   * An `EndpointDataSource` registered inside a version range (by `MapGet`, `MapGroup`, ...):
   * what endpoints it yields for a group context, and its change token.
   */
  datatype NestedSource = NestedSource(
    getGroupedEndpoints: GroupContext -> seq<Endpoint>,
    changeToken: ChangeToken)

  /**
   * `IEndpointRouteBuilder` of the application (or of an enclosing group), over the kind `S`
   * of data source registered with it.
   */
  class EndpointRouteBuilder<S> {
    /** `DataSources`: every endpoint data source registered with this builder. */
    var dataSources: seq<S>

    constructor ()
      ensures dataSources == []
    {
      dataSources := [];
    }
  }
}
