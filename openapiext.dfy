/**
 * `RouteVersioningOpenApiExtensions`: one OpenAPI document per version of a set, each with its
 * transformer pipeline, and the helpers that file per-version OpenAPI configuration as
 * features or add the optional transformers.
 */
module OpenApiRegistration {
  import opened Wrappers
  import opened Seqs
  import opened Features
  import opened VersionMetadata
  import opened VersionSets
  import opened MetadataBuilders
  import opened OpenApiDocuments
  import opened Transformers

  /** A document transformer as registered: which one, with the arguments it was built with. */
  datatype TransformerSpec =
    | DocumentInfoT(meta: RouteVersionMetadata)
    | ExcludeInapplicableT(meta: RouteVersionMetadata, includeUnversioned: bool)
    | MarkSunsettedT
    | ExcludeVersionedT
    /** A transformer the application adds itself. */
    | UserTransformer(id: nat)

  /**
   * `OpenApiOptions`, as far as its document transformers go. Options delegates of the
   * application can only add transformers; `runOptions(id)` is what delegate `id` adds.
   */
  class OpenApiOptions {
    var transformers: seq<TransformerSpec>

    constructor ()
      ensures transformers == []
    {
      transformers := [];
    }

    method AddDocumentTransformer(t: TransformerSpec)
      modifies this
      ensures transformers == old(transformers) + [t]
    {
      transformers := transformers + [t];
    }
  }

  /** `ExcludeVersionedOperations(options)`: one more transformer, at the end. */
  method ExcludeVersionedOperations(options: OpenApiOptions) returns (r: OpenApiOptions)
    modifies options
    ensures r == options && options.transformers == old(options.transformers) + [ExcludeVersionedT]
  {
    options.AddDocumentTransformer(ExcludeVersionedT);
    r := options;
  }

  /** `MarkSunsettedOperations(options)`: one more transformer, at the end. */
  method MarkSunsettedOperations(options: OpenApiOptions) returns (r: OpenApiOptions)
    modifies options
    ensures r == options && options.transformers == old(options.transformers) + [MarkSunsettedT]
  {
    options.AddDocumentTransformer(MarkSunsettedT);
    r := options;
  }

  /** `ConfigureOpenApiOptions(builder, configure)`: a feature of the options-delegate kind. */
  method ConfigureOpenApiOptions(b: RouteVersionMetadataBuilder, delegateId: nat) returns (r: RouteVersionMetadataBuilder)
    requires b.Valid()
    modifies b
    ensures r == b && b.Valid()
    ensures b.history == old(b.history) + [Features.ConfigureOpenApiOptions(delegateId)]
    ensures b.conventions == old(b.conventions) && b.finallyConventions == old(b.finallyConventions)
  {
    r := b.WithFeature(Features.ConfigureOpenApiOptions(delegateId));
  }

  /** `ConfigureOpenApiInfo(builder, configure)`: a feature of the info-delegate kind. */
  method ConfigureOpenApiInfo(b: RouteVersionMetadataBuilder, delegateId: nat) returns (r: RouteVersionMetadataBuilder)
    requires b.Valid()
    modifies b
    ensures r == b && b.Valid()
    ensures b.history == old(b.history) + [Features.ConfigureOpenApiInfo(delegateId)]
    ensures b.conventions == old(b.conventions) && b.finallyConventions == old(b.finallyConventions)
  {
    r := b.WithFeature(Features.ConfigureOpenApiInfo(delegateId));
  }

  /**
   * Configuring a version's options or info adds the delegate, last, to the features of that
   * kind and to no other kind.
   */
  lemma {:induction false} ConfigureDelegateRecorded(history: seq<Feature>, f: Feature, k: FeatureKind)
    requires f.ConfigureOpenApiOptions? || f.ConfigureOpenApiInfo?
    ensures FeaturesOfKind(history + [f], KindOf(f)) == FeaturesOfKind(history, KindOf(f)) + [f]
    ensures k != KindOf(f) ==> FeaturesOfKind(history + [f], k) == FeaturesOfKind(history, k)
  {
    FilterAppend(history, [f], (g: Feature) => KindOf(g) == KindOf(f));
    FilterAppend(history, [f], (g: Feature) => KindOf(g) == k);
  }

  // ---------------------------------------------------------------- the pipeline of a document

  /** The transformers a version's options delegates add, delegate by delegate. */
  function OptionsDelegates(fs: seq<Feature>, runOptions: nat -> seq<TransformerSpec>): seq<TransformerSpec> {
    if fs == [] then []
    else
      var f := fs[|fs| - 1];
      OptionsDelegates(fs[..|fs| - 1], runOptions) + (if f.ConfigureOpenApiOptions? then runOptions(f.delegateId) else [])
  }

  lemma {:induction false} OptionsDelegatesAppend(a: seq<Feature>, b: seq<Feature>, runOptions: nat -> seq<TransformerSpec>)
    ensures OptionsDelegates(a + b, runOptions) == OptionsDelegates(a, runOptions) + OptionsDelegates(b, runOptions)
    decreases |b|
  {
    if b == [] {
      assert a + b == a;
    } else {
      var n := |b| - 1;
      assert (a + b)[..|a + b| - 1] == a + b[..n];
      OptionsDelegatesAppend(a, b[..n], runOptions);
    }
  }

  /** The transformers the global `configure` adds, if there is one. */
  function GlobalDelegate(configure: Option<nat>, runOptions: nat -> seq<TransformerSpec>): seq<TransformerSpec> {
    if configure.Some? then runOptions(configure.value) else []
  }

  /** A version document's pipeline, as its options callback leaves it. */
  function DocumentPipeline(
    meta: RouteVersionMetadata, includeUnversioned: bool, configure: Option<nat>, runOptions: nat -> seq<TransformerSpec>)
    : seq<TransformerSpec>
  {
    [DocumentInfoT(meta), ExcludeInapplicableT(meta, includeUnversioned), MarkSunsettedT]
      + OptionsDelegates(meta.GetFeatures(OpenApiOptionsKind), runOptions)
      + GlobalDelegate(configure, runOptions)
  }

  /** The `foreach` over a version's options delegates: each adds its transformers in turn. */
  method RunOptionsDelegates(options: OpenApiOptions, delegates: seq<Feature>, runOptions: nat -> seq<TransformerSpec>)
    modifies options
    ensures options.transformers == old(options.transformers) + OptionsDelegates(delegates, runOptions)
  {
    ghost var base := options.transformers;
    for k := 0 to |delegates|
      invariant options.transformers == base + OptionsDelegates(delegates[..k], runOptions)
    {
      OptionsDelegatesSnoc(delegates, k, runOptions);
      var f := delegates[k];
      if f.ConfigureOpenApiOptions? {
        options.transformers := options.transformers + runOptions(f.delegateId);
      }
    }
    assert delegates[..|delegates|] == delegates;
  }

  /** The options callback `AddVersionedOpenApi` registers for one version. */
  method ConfigureOptions(
    options: OpenApiOptions, meta: RouteVersionMetadata, includeUnversioned: bool,
    configure: Option<nat>, runOptions: nat -> seq<TransformerSpec>)
    modifies options
    ensures options.transformers == old(options.transformers) + DocumentPipeline(meta, includeUnversioned, configure, runOptions)
  {
    ghost var t0 := options.transformers;
    ghost var head := [DocumentInfoT(meta), ExcludeInapplicableT(meta, includeUnversioned), MarkSunsettedT];
    options.AddDocumentTransformer(DocumentInfoT(meta));
    options.AddDocumentTransformer(ExcludeInapplicableT(meta, includeUnversioned));
    options.AddDocumentTransformer(MarkSunsettedT);
    assert options.transformers == t0 + head;
    ghost var delegated := OptionsDelegates(meta.GetFeatures(OpenApiOptionsKind), runOptions);
    RunOptionsDelegates(options, meta.GetFeatures(OpenApiOptionsKind), runOptions);
    assert options.transformers == t0 + head + delegated;
    if configure.Some? {
      options.transformers := options.transformers + runOptions(configure.value);
    }
    assert options.transformers == t0 + head + delegated + GlobalDelegate(configure, runOptions);
    assert t0 + head + delegated + GlobalDelegate(configure, runOptions)
      == t0 + (head + delegated + GlobalDelegate(configure, runOptions));
  }

  /**
   * The pipeline of every version document starts with the info transformer, then the
   * exclusion for that version with the caller's flag, then the sunset marking; the version's
   * own options delegates follow in registration order, and the global `configure` comes last.
   */
  lemma PipelineOrder(
    meta: RouteVersionMetadata, includeUnversioned: bool, configure: Option<nat>, runOptions: nat -> seq<TransformerSpec>)
    ensures var p := DocumentPipeline(meta, includeUnversioned, configure, runOptions);
      var g := GlobalDelegate(configure, runOptions);
      && |p| >= 3 + |g|
      && p[0] == DocumentInfoT(meta)
      && p[1] == ExcludeInapplicableT(meta, includeUnversioned)
      && p[2] == MarkSunsettedT
      && p[3..|p| - |g|] == OptionsDelegates(meta.GetFeatures(OpenApiOptionsKind), runOptions)
      && p[|p| - |g|..] == g
  {
    var p := DocumentPipeline(meta, includeUnversioned, configure, runOptions);
    var d := OptionsDelegates(meta.GetFeatures(OpenApiOptionsKind), runOptions);
    var g := GlobalDelegate(configure, runOptions);
    assert p == [DocumentInfoT(meta), ExcludeInapplicableT(meta, includeUnversioned), MarkSunsettedT] + d + g;
    assert p[3..|p| - |g|] == d;
  }

  /**
   * A version's pipeline holds the transformers of exactly that version's options delegates,
   * in the order they were configured: one more `ConfigureOpenApiOptions` call on the version
   * adds that delegate's transformers after the earlier delegates' (and so, by
   * `PipelineOrder`, just before the global ones).
   */
  lemma OneMoreOptionsDelegate(history: seq<Feature>, id: nat, runOptions: nat -> seq<TransformerSpec>)
    ensures OptionsDelegates(FeaturesOfKind(history + [Features.ConfigureOpenApiOptions(id)], OpenApiOptionsKind), runOptions)
      == OptionsDelegates(FeaturesOfKind(history, OpenApiOptionsKind), runOptions) + runOptions(id)
  {
    var f := Features.ConfigureOpenApiOptions(id);
    ConfigureDelegateRecorded(history, f, OpenApiOptionsKind);
    OptionsDelegatesAppend(FeaturesOfKind(history, OpenApiOptionsKind), [f], runOptions);
    assert OptionsDelegates([f], runOptions) == runOptions(id);
  }

  /** One more delegate feature: its transformers, if it is an options delegate, follow the earlier ones. */
  lemma OptionsDelegatesSnoc(fs: seq<Feature>, k: nat, runOptions: nat -> seq<TransformerSpec>)
    requires k < |fs|
    ensures OptionsDelegates(fs[..k + 1], runOptions)
      == OptionsDelegates(fs[..k], runOptions) + (if fs[k].ConfigureOpenApiOptions? then runOptions(fs[k].delegateId) else [])
  {
    assert fs[..k + 1][..k] == fs[..k];
  }

  // ---------------------------------------------------------------- registering the documents

  /** One `services.AddOpenApi(documentName, configureOptions)` call, with the options it yields. */
  datatype DocumentRegistration = DocumentRegistration(name: string, transformers: seq<TransformerSpec>)

  /** The application's service collection, as far as OpenAPI documents go. */
  class ServiceCollection {
    var documents: seq<DocumentRegistration>

    constructor ()
      ensures documents == []
    {
      documents := [];
    }

    method AddOpenApi(name: string, transformers: seq<TransformerSpec>)
      modifies this
      ensures documents == old(documents) + [DocumentRegistration(name, transformers)]
    {
      documents := documents + [DocumentRegistration(name, transformers)];
    }
  }

  /** The documents registered for the given versions of a set, in order. */
  function Registrations(
    vs: RouteVersionSet, versions: seq<Version>, includeUnversioned: bool,
    configure: Option<nat>, runOptions: nat -> seq<TransformerSpec>)
    : (r: seq<DocumentRegistration>)
    requires forall i :: 0 <= i < |versions| ==> versions[i] in vs.versions
    ensures |r| == |versions|
    ensures forall i :: 0 <= i < |versions| ==> r[i] == DocumentRegistration(
      vs.GetNamedSlug(versions[i]),
      DocumentPipeline(vs.versions[versions[i]], includeUnversioned, configure, runOptions))
  {
    seq(|versions|, i requires 0 <= i < |versions| =>
      DocumentRegistration(
        vs.GetNamedSlug(versions[i]),
        DocumentPipeline(vs.versions[versions[i]], includeUnversioned, configure, runOptions)))
  }

  /**
   * `AddVersionedOpenApi(services, versions, configure, includeUnversionedEndpoints)`: for
   * each version, in the set's order, a document named by the version's named slug.
   */
  method AddVersionedOpenApi(
    services: ServiceCollection, vs: RouteVersionSet, configure: Option<nat>,
    includeUnversioned: bool, runOptions: nat -> seq<TransformerSpec>)
    returns (r: ServiceCollection)
    requires vs.Valid()
    modifies services
    ensures r == services
    ensures services.documents == old(services.documents)
      + Registrations(vs, vs.Enumerate(), includeUnversioned, configure, runOptions)
  {
    ghost var before := services.documents;
    var versions := vs.Enumerate();
    for i := 0 to |versions|
      invariant services.documents == before + Registrations(vs, versions[..i], includeUnversioned, configure, runOptions)
    {
      var version := versions[i];
      var meta := vs.GetMetadata(version).value;
      var options := new OpenApiOptions();
      ConfigureOptions(options, meta, includeUnversioned, configure, runOptions);
      assert options.transformers == DocumentPipeline(meta, includeUnversioned, configure, runOptions);
      assert versions[..i + 1] == versions[..i] + [version];
      services.AddOpenApi(vs.GetNamedSlug(version), options.transformers);
      assert Registrations(vs, versions[..i + 1], includeUnversioned, configure, runOptions)
        == Registrations(vs, versions[..i], includeUnversioned, configure, runOptions)
          + [DocumentRegistration(vs.GetNamedSlug(version), DocumentPipeline(meta, includeUnversioned, configure, runOptions))];
    }
    assert versions[..|versions|] == versions;
    r := services;
  }

  /** The overload with defaults: no global `configure`, unversioned endpoints included. */
  method AddVersionedOpenApiDefault(services: ServiceCollection, vs: RouteVersionSet, runOptions: nat -> seq<TransformerSpec>)
    returns (r: ServiceCollection)
    requires vs.Valid()
    modifies services
    ensures r == services
    ensures services.documents == old(services.documents) + Registrations(vs, vs.Enumerate(), true, None, runOptions)
  {
    r := AddVersionedOpenApi(services, vs, None, true, runOptions);
  }

  /**
   * With an injective slug function the documents of one set have distinct names, and each is
   * the named slug of its own version, whose metadata its transformers are built with.
   */
  lemma RegistrationsDistinct(
    vs: RouteVersionSet, includeUnversioned: bool, configure: Option<nat>, runOptions: nat -> seq<TransformerSpec>)
    requires vs.Valid()
    requires forall x, y :: vs.ref.slug(x) == vs.ref.slug(y) ==> x == y
    ensures var docs := Registrations(vs, vs.Enumerate(), includeUnversioned, configure, runOptions);
      && (forall i, j :: 0 <= i < j < |docs| ==> docs[i].name != docs[j].name)
      && (forall i :: 0 <= i < |docs| ==>
            docs[i].transformers[0] == DocumentInfoT(vs.versions[vs.Enumerate()[i]])
            && vs.versions[vs.Enumerate()[i]].version == vs.Enumerate()[i])
  {
    var order := vs.Enumerate();
    var docs := Registrations(vs, order, includeUnversioned, configure, runOptions);
    forall i, j | 0 <= i < j < |docs| ensures docs[i].name != docs[j].name {
      if docs[i].name == docs[j].name {
        NamedSlugInjective(vs, order[i], order[j]);
      }
    }
  }

  /**
   * The info transformer of a version's document sets the document's version to the set's
   * plain slug of that version, even when the document is named by the set's name too.
   */
  lemma DocumentVersionIsPlainSlug(vs: RouteVersionSet, v: Version, info: Option<Info>)
    requires vs.Valid() && v in vs.versions
    ensures VersionedInfo(info, vs.versions[v]).version == Some(vs.GetSlug(v))
    ensures vs.ref.name.Some? ==> vs.GetNamedSlug(v) == vs.ref.name.value + "-" + vs.GetSlug(v)
  {
  }
}
