/**
 * The features a version can carry (`RouteVersionMetadataBuilder.WithFeature`), filed by
 * their kind. .NET files a feature under `typeof(F)`; here the kind is an explicit tag.
 */
module Features {
  import opened Wrappers
  import HttpDate

  /** An absolute URI, in its `Uri.ToString()` form. */
  type Uri = string

  /** The request an endpoint filter runs for; only passed through to user functions. */
  datatype HttpContext = HttpContext(requestMethod: string, requestPath: string)

  /**
   * `SunsetFeature`: the instant a version is retired, and an optional function giving a
   * link to a page about it (a function that returns `null` is `None` here).
   */
  datatype SunsetFeature = SunsetFeature(
    at: HttpDate.DateTime,
    link: Option<HttpContext -> Option<Uri>>,
    linkMediaType: Option<string>)

  /** The .NET type a feature is filed under. */
  datatype FeatureKind =
    | SunsetKind
    /** `RouteVersioningOpenApiExtensions.ConfigureOpenApiOptionsDelegate` */
    | OpenApiOptionsKind
    /** `DocumentInfoTransformer<T>.ConfigureInfoDelegate` */
    | OpenApiInfoKind
    /** Any other application-defined feature type. */
    | CustomKind(typeName: string)

  /**
   * A feature value. Application delegates are identified by `delegateId`; what they do is
   * supplied to the operations that run them.
   */
  datatype Feature =
    | Sunset(sunset: SunsetFeature)
    | ConfigureOpenApiOptions(delegateId: nat)
    | ConfigureOpenApiInfo(delegateId: nat)
    | Custom(typeName: string, value: int)

  function KindOf(f: Feature): FeatureKind {
    match f
    case Sunset(_) => SunsetKind
    case ConfigureOpenApiOptions(_) => OpenApiOptionsKind
    case ConfigureOpenApiInfo(_) => OpenApiInfoKind
    case Custom(t, _) => CustomKind(t)
  }

  /** Every feature in `fs` is of kind `k`. */
  predicate AllOfKind(fs: seq<Feature>, k: FeatureKind) {
    forall i :: 0 <= i < |fs| ==> KindOf(fs[i]) == k
  }

  /**
   * A kind-keyed multimap as `WithFeature` leaves it: each list is non-empty (it is created
   * with its first feature) and holds features of its own kind.
   */
  predicate WellFiled(features: map<FeatureKind, seq<Feature>>) {
    forall k :: k in features ==> |features[k]| > 0 && AllOfKind(features[k], k)
  }
}
