/** `RouteVersionMetadataBuilder<T>`: collects one version's features and conventions. */
module MetadataBuilders {
  import opened Seqs
  import opened Features
  import opened VersionMetadata

  /** The features of kind `k` in `history`, in the order they were added. */
  function FeaturesOfKind(history: seq<Feature>, k: FeatureKind): (r: seq<Feature>)
    ensures AllOfKind(r, k)
    ensures |r| <= |history|
  {
    Filter(history, (f: Feature) => KindOf(f) == k)
  }

  /** The features of a kind in two histories one after the other. */
  lemma FeaturesOfKindAppend(a: seq<Feature>, b: seq<Feature>, k: FeatureKind)
    ensures FeaturesOfKind(a + b, k) == FeaturesOfKind(a, k) + FeaturesOfKind(b, k)
  {
    FilterAppend(a, b, (f: Feature) => KindOf(f) == k);
  }

  /**
   * The multimap after `WithFeature(f)`: `f` is appended to the list of its own kind, which
   * is created with `f` as its only element the first time; other kinds are untouched.
   */
  function AddFeature(features: map<FeatureKind, seq<Feature>>, f: Feature): (r: map<FeatureKind, seq<Feature>>)
    ensures r.Keys == features.Keys + {KindOf(f)}
    ensures KindOf(f) !in features ==> r[KindOf(f)] == [f]
    ensures KindOf(f) in features ==> r[KindOf(f)] == features[KindOf(f)] + [f]
    ensures forall k :: k in features && k != KindOf(f) ==> r[k] == features[k]
  {
    var k := KindOf(f);
    if k in features then features[k := features[k] + [f]] else features[k := [f]]
  }

  /** The multimap built by adding each feature of `history` in turn to an empty one. */
  function FileAll(history: seq<Feature>): map<FeatureKind, seq<Feature>>
  {
    if history == [] then map[]
    else AddFeature(FileAll(history[..|history| - 1]), history[|history| - 1])
  }

  /**
   * Filing a history feature by feature leaves under each kind exactly that kind's features,
   * in insertion order, and files no kind that was never added.
   */
  lemma {:induction false} FileAllIsFilter(history: seq<Feature>)
    ensures forall k :: k in FileAll(history) <==> FeaturesOfKind(history, k) != []
    ensures forall k :: k in FileAll(history) ==> FileAll(history)[k] == FeaturesOfKind(history, k)
    ensures WellFiled(FileAll(history))
  {
    if history != [] {
      var init, f := history[..|history| - 1], history[|history| - 1];
      assert history == init + [f];
      FileAllIsFilter(init);
      forall k
        ensures FeaturesOfKind(history, k)
          == FeaturesOfKind(init, k) + (if KindOf(f) == k then [f] else [])
      {
        FeaturesOfKindAppend(init, [f], k);
      }
    }
  }

  class RouteVersionMetadataBuilder {
    const version: Version
    var features: map<FeatureKind, seq<Feature>>
    var conventions: seq<Convention>
    var finallyConventions: seq<Convention>
    /** Every feature passed to `WithFeature`, in call order. */
    ghost var history: seq<Feature>

    ghost predicate Valid()
      reads this
    {
      features == FileAll(history)
    }

    constructor (version: Version)
      ensures Valid() && this.version == version
      ensures history == [] && features == map[]
      ensures conventions == [] && finallyConventions == []
    {
      this.version := version;
      features := map[];
      conventions := [];
      finallyConventions := [];
      history := [];
    }

    /** `WithFeature<F>(feature)`: files the feature under its kind and returns this builder. */
    method WithFeature(f: Feature) returns (r: RouteVersionMetadataBuilder)
      requires Valid()
      modifies this
      ensures Valid() && r == this
      ensures history == old(history) + [f]
      ensures features == AddFeature(old(features), f)
      ensures conventions == old(conventions) && finallyConventions == old(finallyConventions)
    {
      var key := KindOf(f);
      if key in features {
        features := features[key := features[key] + [f]];
      } else {
        features := features[key := [f]];
      }
      history := history + [f];
      assert history[..|history| - 1] == old(history);
      r := this;
    }

    /** `IEndpointConventionBuilder.Add`: appends to the conventions only. */
    method Add(c: Convention)
      modifies this
      ensures conventions == old(conventions) + [c]
      ensures finallyConventions == old(finallyConventions)
      ensures features == old(features) && history == old(history)
    {
      conventions := conventions + [c];
    }

    /** `IEndpointConventionBuilder.Finally`: appends to the finally-conventions only. */
    method Finally(c: Convention)
      modifies this
      ensures finallyConventions == old(finallyConventions) + [c]
      ensures conventions == old(conventions)
      ensures features == old(features) && history == old(history)
    {
      finallyConventions := finallyConventions + [c];
    }

    /**
     * `Build(set)`: the metadata of this version in `set`. Its `GetFeatures(k)` answers every
     * feature of kind `k` passed to `WithFeature`, in call order.
     */
    function Build(versionSet: VersionSetRef): (r: RouteVersionMetadata)
      requires Valid()
      reads this
      ensures r.versionSet == versionSet && r.version == version
      ensures r.conventions == conventions && r.finallyConventions == finallyConventions
      ensures WellFiled(r.features)
      ensures forall k :: r.GetFeatures(k) == FeaturesOfKind(history, k)
    {
      FileAllIsFilter(history);
      RouteVersionMetadata(versionSet, version, features, conventions, finallyConventions)
    }
  }
}
