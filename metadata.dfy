/**
 * `RouteVersionMetadata<T>` and its `IRouteVersionMetadata` views: what a built version set
 * knows about one of its versions.
 */
module VersionMetadata {
  import opened Wrappers
  import opened Seqs
  import opened Features

  /** API versions are `int`, the version type every caller of the library in view uses. */
  type Version = int

  /**
   * `Comparer<int>.Default.Compare`: the natural order, reported as -1, 0 or 1
   * (`int.CompareTo`).
   */
  function DefaultCompare(a: Version, b: Version): (r: int)
    ensures r == 0 <==> a == b
    ensures r < 0 <==> a < b
    ensures r > 0 <==> a > b
  {
    if a < b then -1 else if a == b then 0 else 1
  }

  /**
   * The non-generic `IComparer.Compare` of `Comparer<int>.Default`, on boxed values that may
   * be `null`: `null` orders before any value and equals only `null`.
   */
  function BoxedCompare(a: Option<Version>, b: Option<Version>): (r: int)
    ensures r == 0 <==> a == b
  {
    match (a, b)
    case (None, None) => 0
    case (None, Some(_)) => -1
    case (Some(_), None) => 1
    case (Some(x), Some(y)) => DefaultCompare(x, y)
  }

  /**
   * What a version's metadata knows of its set: the set's identity (.NET compares sets by
   * reference; `id` stands for that reference), its optional name, its slug function and the
   * comparer it was built with.
   */
  datatype VersionSetRef = VersionSetRef(
    id: nat,
    name: Option<string>,
    slug: Version -> string,
    comparer: (Version, Version) -> int)

  /** Two references denote the same `RouteVersionSet` object. */
  predicate SameSet(a: VersionSetRef, b: VersionSetRef) {
    a.id == b.id
  }

  /** An endpoint filter added through `AddEndpointFilter`. */
  datatype EndpointFilter =
    | SunsetEndpointFilter(sunset: SunsetFeature)
    | UserFilter(id: nat)

  /** An `Action<EndpointBuilder>` applied to each endpoint built for a version. */
  datatype Convention =
    /** `b => b.Metadata.Add(meta)`: tags the endpoint with the version's metadata. */
    | AttachMetadata(meta: RouteVersionMetadata)
    /** The convention `AddEndpointFilter(filter)` registers. */
    | AddFilter(filter: EndpointFilter)
    /** Any other application convention. */
    | UserConvention(id: nat)

  datatype RouteVersionMetadata = RouteVersionMetadata(
    versionSet: VersionSetRef,
    version: Version,
    features: map<FeatureKind, seq<Feature>>,
    conventions: seq<Convention>,
    finallyConventions: seq<Convention>)
  {
    /**
     * `GetFeatures<F>()`: the features filed under kind `k`, narrowed to that kind
     * (`OfType<F>`); none when the kind was never added.
     */
    function GetFeatures(k: FeatureKind): (r: seq<Feature>)
      ensures AllOfKind(r, k)
      ensures k !in features ==> r == []
      ensures WellFiled(features) && k in features ==> r == features[k]
    {
      if k in features then
        var r := Filter(features[k], (f: Feature) => KindOf(f) == k);
        if WellFiled(features) then
          FilterAll(features[k], (f: Feature) => KindOf(f) == k);
          r
        else r
      else []
    }

    /** `IRouteVersionMetadata.Version`: the version, boxed. */
    function BoxedVersion(): (r: Option<Version>)
      ensures r.Some? && r.value == version
    {
      Some(version)
    }

    /** `IRouteVersionMetadata.Set`: the set, seen through the untyped interface. */
    function UntypedSet(): (r: VersionSetRef)
      ensures SameSet(r, versionSet) && r.slug == versionSet.slug && r.comparer == versionSet.comparer
    {
      versionSet
    }

    /**
     * `IRouteVersionMetadata.Comparer`: always `Comparer<int>.Default`, whatever comparer
     * the set was built with.
     */
    function Comparer(): (compare: (Option<Version>, Option<Version>) -> int)
      ensures forall a, b :: compare(a, b) == BoxedCompare(a, b)
    {
      BoxedCompare
    }

    /** `IsVersion(v)`: `Comparer.Compare(Version, v) is 0`. */
    function IsVersion(v: Option<Version>): (r: bool)
      ensures r <==> v == Some(version)
    {
      Comparer()(BoxedVersion(), v) == 0
    }
  }

  /**
   * `IsVersion` ignores the set's comparer: under a comparer that calls every pair equal,
   * a version still is not `IsVersion` of a different one.
   */
  lemma IsVersionIgnoresSetComparer(meta: RouteVersionMetadata, other: Version)
    requires other != meta.version
    requires forall a, b :: meta.versionSet.comparer(a, b) == 0
    ensures meta.versionSet.comparer(meta.version, other) == 0
    ensures !meta.IsVersion(Some(other))
  {
  }
}
