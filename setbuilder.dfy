/**
 * `RouteVersionSetBuilder<T>`: registers the versions of a set, each with its own metadata
 * builder, sets the slug and comparer policies, and builds the immutable `RouteVersionSet`.
 */
module SetBuilders {
  import opened Wrappers
  import opened Errors
  import opened Text
  import opened Seqs
  import opened Features
  import opened VersionMetadata
  import opened VersionSets
  import opened MetadataBuilders

  /** The default slug: `$"v{v}"`. */
  function DefaultSlug(v: Version): string {
    "v" + IntToString(v)
  }

  /** The placeholder a slug pattern must contain exactly once. */
  const Placeholder: string := "{0}"

  /** `pattern` contains the placeholder exactly once, at `i`. */
  ghost predicate SingleAt(pattern: string, i: int) {
    OccursAt(pattern, Placeholder, i) && forall j :: OccursAt(pattern, Placeholder, j) ==> j == i
  }

  /**
   * The checks of `WithSlug(pattern)`: an `ArgumentException` on "pattern" when there is no
   * placeholder, and another when the first and the last placeholder differ.
   */
  function ValidateSlugPattern(pattern: string): (r: Outcome<SetupError>)
    ensures r.Pass? <==> exists i :: SingleAt(pattern, i)
    ensures r.Fail? ==> r.error.InvalidArgument? && r.error.paramName == "pattern"
    ensures (forall j :: !OccursAt(pattern, Placeholder, j))
      ==> r == Fail(InvalidArgument("pattern", "The specified pattern must include the version placeholder \"{0}\"."))
  {
    var first := IndexOf(pattern, Placeholder);
    if first == -1 then
      Fail(InvalidArgument("pattern", "The specified pattern must include the version placeholder \"{0}\"."))
    else if first != LastIndexOf(pattern, Placeholder) then
      assert !SingleAt(pattern, first);
      Fail(InvalidArgument("pattern", "The specified pattern must include a single version placeholder \"{0}\"."))
    else
      assert SingleAt(pattern, first);
      Pass
  }

  /**
   * `String.Format(pattern, v)` for a pattern whose only braces are its placeholders: the
   * first placeholder is replaced by the version's string form. A pattern without one is
   * returned as it is.
   */
  function FormatPattern(pattern: string, v: Version): string {
    var i := IndexOf(pattern, Placeholder);
    if i == -1 then pattern else pattern[..i] + IntToString(v) + pattern[i + |Placeholder|..]
  }

  /**
   * An accepted pattern is some `pre + "{0}" + post`, and its slug of `v` is
   * `pre + v + post`.
   */
  lemma FormatAccepted(pattern: string, v: Version)
    requires ValidateSlugPattern(pattern).Pass?
    ensures exists i :: (SingleAt(pattern, i)
      && FormatPattern(pattern, v) == pattern[..i] + IntToString(v) + pattern[i + 3..]
      && pattern == pattern[..i] + Placeholder + pattern[i + 3..])
  {
    var i :| SingleAt(pattern, i);
    assert IndexOf(pattern, Placeholder) == i;
    assert pattern == pattern[..i] + pattern[i..i + 3] + pattern[i + 3..];
  }

  /** `pre + "{0}" + post`, with no other placeholder, is accepted and formats to `pre + v + post`. */
  lemma FormatSubstitutes(pre: string, post: string, v: Version)
    requires forall j :: OccursAt(pre + Placeholder + post, Placeholder, j) ==> j == |pre|
    ensures ValidateSlugPattern(pre + Placeholder + post).Pass?
    ensures FormatPattern(pre + Placeholder + post, v) == pre + IntToString(v) + post
  {
    var p := pre + Placeholder + post;
    assert p[|pre|..|pre| + 3] == Placeholder;
    assert SingleAt(p, |pre|);
    assert IndexOf(p, Placeholder) == |pre|;
    assert p[..|pre|] == pre && p[|pre| + 3..] == post;
  }

  /** Under an accepted pattern, different versions get different slugs. */
  lemma FormatPatternInjective(pattern: string, a: Version, b: Version)
    requires ValidateSlugPattern(pattern).Pass?
    requires FormatPattern(pattern, a) == FormatPattern(pattern, b)
    ensures a == b
  {
    FormatAccepted(pattern, a);
    var i :| SingleAt(pattern, i);
    assert IndexOf(pattern, Placeholder) == i;
    var pre, post := pattern[..i], pattern[i + 3..];
    var sa, sb := IntToString(a), IntToString(b);
    var s := FormatPattern(pattern, a);
    assert s == pre + sa + post && s == pre + sb + post;
    assert |sa| == |sb|;
    assert sa == s[|pre|..|pre| + |sa|] == sb;
    IntToStringInjective(a, b);
  }

  /** The default slug is the pattern `"v{0}"`. */
  lemma DefaultSlugIsPattern(v: Version)
    ensures ValidateSlugPattern("v{0}").Pass?
    ensures FormatPattern("v{0}", v) == DefaultSlug(v)
  {
    var p := "v" + Placeholder + "";
    assert p == "v{0}";
    forall j | OccursAt(p, Placeholder, j) ensures j == 1 {
      assert p[j..j + 3][0] == p[j] == '{';
    }
    FormatSubstitutes("v", "", v);
  }

  /** `WithSlug("{0}-id")` gives version 1 the slug "1-id". */
  lemma SuffixPatternExample()
    ensures ValidateSlugPattern("{0}-id").Pass?
    ensures FormatPattern("{0}-id", 1) == "1-id"
  {
    var p := "" + Placeholder + "-id";
    assert p == "{0}-id";
    forall j | OccursAt(p, Placeholder, j) ensures j == 0 {
      assert p[j..j + 3][0] == p[j] == '{';
    }
    FormatSubstitutes("", "-id", 1);
    assert IntToString(1) == "1";
  }

  /** A pattern without the placeholder, or with two of them, is refused. */
  lemma RejectedPatterns()
    ensures ValidateSlugPattern("v") == Fail(InvalidArgument("pattern", "The specified pattern must include the version placeholder \"{0}\"."))
    ensures ValidateSlugPattern("{0}{0}").Fail?
  {
    forall j ensures !OccursAt("v", Placeholder, j) { }
    assert OccursAt("{0}{0}", Placeholder, 0) && OccursAt("{0}{0}", Placeholder, 3);
  }

  /** One call the `configure` callback makes on the new version's metadata builder. */
  datatype ConfigureStep =
    | WithFeatureStep(feature: Feature)
    | AddStep(convention: Convention)
    | FinallyStep(convention: Convention)

  /** The features `steps` add, in order. */
  function StepFeatures(steps: seq<ConfigureStep>): seq<Feature> {
    if steps == [] then []
    else
      var last := steps[|steps| - 1];
      StepFeatures(steps[..|steps| - 1]) + (if last.WithFeatureStep? then [last.feature] else [])
  }

  /** The conventions `steps` add, in order. */
  function StepConventions(steps: seq<ConfigureStep>): seq<Convention> {
    if steps == [] then []
    else
      var last := steps[|steps| - 1];
      StepConventions(steps[..|steps| - 1]) + (if last.AddStep? then [last.convention] else [])
  }

  /** The finally-conventions `steps` add, in order. */
  function StepFinally(steps: seq<ConfigureStep>): seq<Convention> {
    if steps == [] then []
    else
      var last := steps[|steps| - 1];
      StepFinally(steps[..|steps| - 1]) + (if last.FinallyStep? then [last.convention] else [])
  }

  /**
   * The steps' features of a kind are the features of that kind they add: a configure
   * callback's feature calls reach `GetFeatures` in call order.
   */
  lemma {:induction false} StepFeaturesOfKind(steps: seq<ConfigureStep>, k: FeatureKind, i: nat)
    requires i < |steps| && steps[i].WithFeatureStep? && KindOf(steps[i].feature) == k
    ensures steps[i].feature in FeaturesOfKind(StepFeatures(steps), k)
  {
    var n := |steps| - 1;
    var tail: seq<Feature> := if steps[n].WithFeatureStep? then [steps[n].feature] else [];
    assert StepFeatures(steps) == StepFeatures(steps[..n]) + tail;
    FeaturesOfKindAppend(StepFeatures(steps[..n]), tail, k);
    if i < n {
      assert steps[..n][i] == steps[i];
      StepFeaturesOfKind(steps[..n], k, i);
    } else {
      assert FeaturesOfKind(tail, k) == [steps[i].feature];
    }
  }

  /** One more step adds its own feature or convention after the earlier steps' ones. */
  lemma StepsSnoc(steps: seq<ConfigureStep>, i: nat)
    requires i < |steps|
    ensures StepFeatures(steps[..i + 1])
      == StepFeatures(steps[..i]) + (if steps[i].WithFeatureStep? then [steps[i].feature] else [])
    ensures StepConventions(steps[..i + 1])
      == StepConventions(steps[..i]) + (if steps[i].AddStep? then [steps[i].convention] else [])
    ensures StepFinally(steps[..i + 1])
      == StepFinally(steps[..i]) + (if steps[i].FinallyStep? then [steps[i].convention] else [])
  {
    assert steps[..i + 1][..i] == steps[..i];
  }

  /** One call of the `configure` callback on the builder. */
  method ApplyStep(b: RouteVersionMetadataBuilder, step: ConfigureStep)
    requires b.Valid()
    modifies b
    ensures b.Valid()
    ensures b.history == old(b.history) + (if step.WithFeatureStep? then [step.feature] else [])
    ensures b.conventions == old(b.conventions) + (if step.AddStep? then [step.convention] else [])
    ensures b.finallyConventions == old(b.finallyConventions) + (if step.FinallyStep? then [step.convention] else [])
  {
    match step
    case WithFeatureStep(f) =>
      var _ := b.WithFeature(f);
      assert b.conventions + [] == b.conventions && b.finallyConventions + [] == b.finallyConventions;
    case AddStep(c) =>
      b.Add(c);
      assert b.history + [] == b.history && b.finallyConventions + [] == b.finallyConventions;
    case FinallyStep(c) =>
      b.Finally(c);
      assert b.history + [] == b.history && b.conventions + [] == b.conventions;
  }

  /** Runs the `configure` callback's calls on `b`, in order. */
  method Configure(b: RouteVersionMetadataBuilder, steps: seq<ConfigureStep>)
    requires b.Valid()
    modifies b
    ensures b.Valid()
    ensures b.history == old(b.history) + StepFeatures(steps)
    ensures b.conventions == old(b.conventions) + StepConventions(steps)
    ensures b.finallyConventions == old(b.finallyConventions) + StepFinally(steps)
  {
    ghost var h0, c0, f0 := b.history, b.conventions, b.finallyConventions;
    for i := 0 to |steps|
      invariant b.Valid()
      invariant b.history == h0 + StepFeatures(steps[..i])
      invariant b.conventions == c0 + StepConventions(steps[..i])
      invariant b.finallyConventions == f0 + StepFinally(steps[..i])
    {
      StepsSnoc(steps, i);
      ApplyStep(b, steps[i]);
      AppendAssoc(h0, StepFeatures(steps[..i]), if steps[i].WithFeatureStep? then [steps[i].feature] else []);
      AppendAssoc(c0, StepConventions(steps[..i]), if steps[i].AddStep? then [steps[i].convention] else []);
      AppendAssoc(f0, StepFinally(steps[..i]), if steps[i].FinallyStep? then [steps[i].convention] else []);
    }
    assert steps[..|steps|] == steps;
  }

  class RouteVersionSetBuilder {
    const name: Option<string>
    /** The registered versions in registration order (the dictionary's enumeration order). */
    var order: seq<Version>
    var versions: map<Version, RouteVersionMetadataBuilder>
    var slug: Version -> string
    var comparer: (Version, Version) -> int

    /** Each version is registered once, with its own metadata builder. */
    ghost predicate Valid()
      reads this, versions.Values
    {
      && Distinct(order)
      && (forall v :: v in versions <==> v in order)
      && (forall v :: v in versions ==> versions[v].version == v && versions[v].Valid())
    }

    /** `new RouteVersionSetBuilder<T>(name)`: no versions, the default slug and comparer. */
    constructor (name: Option<string>)
      ensures Valid() && this.name == name
      ensures order == [] && versions == map[]
      ensures forall v :: slug(v) == DefaultSlug(v)
      ensures forall a, b :: comparer(a, b) == DefaultCompare(a, b)
    {
      this.name := name;
      order := [];
      versions := map[];
      slug := v => DefaultSlug(v);
      comparer := (a, b) => DefaultCompare(a, b);
    }

    /**
     * `Version(version, configure)`: an already registered version is refused with an
     * `InvalidOperationException` and nothing changes; otherwise the version is registered
     * with a fresh builder, on which `configure` then runs.
     */
    method Version(v: Version, configure: seq<ConfigureStep>) returns (r: Result<RouteVersionSetBuilder, SetupError>)
      requires Valid()
      modifies this
      ensures Valid()
      ensures slug == old(slug) && comparer == old(comparer)
      ensures v in old(versions) ==>
        && r == Failure(InvalidOperation("The version " + IntToString(v) + " has already been defined."))
        && versions == old(versions) && order == old(order)
      ensures v !in old(versions) ==>
        && r == Success(this)
        && order == old(order) + [v]
        && versions.Keys == old(versions).Keys + {v}
        && (forall k :: k in old(versions) ==> versions[k] == old(versions)[k])
        && fresh(versions[v])
        && versions[v].history == StepFeatures(configure)
        && versions[v].conventions == StepConventions(configure)
        && versions[v].finallyConventions == StepFinally(configure)
    {
      if v in versions {
        return Failure(InvalidOperation("The version " + IntToString(v) + " has already been defined."));
      }
      var builder := new RouteVersionMetadataBuilder(v);
      versions := versions[v := builder];
      order := order + [v];
      Configure(builder, configure);
      r := Success(this);
    }

    /** `WithSlug(Func)`: replaces the slug function. */
    method WithSlugFunction(f: Version -> string) returns (r: RouteVersionSetBuilder)
      modifies this
      ensures r == this && slug == f
      ensures comparer == old(comparer) && versions == old(versions) && order == old(order)
    {
      slug := f;
      r := this;
    }

    /**
     * `WithSlug(pattern)`: on a pattern with exactly one placeholder, the slug becomes the
     * pattern with the placeholder replaced by the version; otherwise nothing changes.
     */
    method WithSlugPattern(pattern: string) returns (r: Result<RouteVersionSetBuilder, SetupError>)
      modifies this
      ensures comparer == old(comparer) && versions == old(versions) && order == old(order)
      ensures ValidateSlugPattern(pattern).Fail? ==>
        r == Failure(ValidateSlugPattern(pattern).error) && slug == old(slug)
      ensures ValidateSlugPattern(pattern).Pass? ==>
        r == Success(this) && forall v :: slug(v) == FormatPattern(pattern, v)
    {
      var check := ValidateSlugPattern(pattern);
      if check.Fail? {
        return Failure(check.error);
      }
      slug := v => FormatPattern(pattern, v);
      r := Success(this);
    }

    /** `WithComparer(comparer)`: replaces the comparer. */
    method WithComparer(c: (Version, Version) -> int) returns (r: RouteVersionSetBuilder)
      modifies this
      ensures r == this && comparer == c
      ensures slug == old(slug) && versions == old(versions) && order == old(order)
    {
      comparer := c;
      r := this;
    }

    /**
     * `Build()`: a new set with this builder's name, slug and comparer, the registered
     * versions in registration order, and each version's metadata built for the new set.
     * `new RouteVersionSet` allocates a fresh object: `taken` holds the identities of every
     * set built so far, `id` must be none of them, and `takenAfter` is what the next `Build`
     * receives, so two builds never yield the same set.
     */
    method Build(id: nat, ghost taken: set<nat>) returns (s: RouteVersionSet, ghost takenAfter: set<nat>)
      requires Valid()
      requires id !in taken
      ensures s.Valid()
      ensures s.ref == VersionSetRef(id, name, slug, comparer)
      ensures s.ref.id !in taken && takenAfter == taken + {s.ref.id}
      ensures s.Enumerate() == order
      ensures forall v :: s.Contains(v) <==> v in versions
      ensures forall v :: v in versions ==> s.versions[v] == versions[v].Build(s.ref)
      ensures forall v, k :: v in versions ==>
        s.versions[v].GetFeatures(k) == FeaturesOfKind(versions[v].history, k)
    {
      var ref := VersionSetRef(id, name, slug, comparer);
      var built: map<Version, RouteVersionMetadata> := map[];
      for i := 0 to |order|
        invariant forall v :: v in built <==> v in order[..i]
        invariant forall v :: v in built ==> v in versions && built[v] == versions[v].Build(ref)
      {
        var key := order[i];
        built := built[key := versions[key].Build(ref)];
      }
      assert order[..|order|] == order;
      s := RouteVersionSet(ref, order, built);
      takenAfter := taken + {id};
    }
  }
}
