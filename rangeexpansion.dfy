/**
 * What the version-range composers share: the validation of a range against a version set,
 * the inclusive range test under the set's comparer, and the version-major expansion of the
 * range's nested data sources into endpoints.
 */
module RangeExpansion {
  import opened Wrappers
  import opened Errors
  import opened VersionMetadata
  import opened VersionSets
  import opened Routing

  /**
   * The checks `MakeBuilder` makes before registering anything: `from` must be a registered
   * version, then `to`, when given, must be one too. Each failure is an
   * `ArgumentOutOfRangeException` naming the parameter and carrying its value.
   */
  function ValidateRange(vs: RouteVersionSet, from: Version, to: Option<Version>): (r: Outcome<SetupError>)
    ensures r.Pass? <==> vs.Contains(from) && (to.None? || vs.Contains(to.value))
    ensures !vs.Contains(from) ==> r == Fail(ArgumentOutOfRange("from", from))
    ensures vs.Contains(from) && to.Some? && !vs.Contains(to.value)
      ==> r == Fail(ArgumentOutOfRange("to", to.value))
  {
    if !vs.Contains(from) then Fail(ArgumentOutOfRange("from", from))
    else if to.Some? && !vs.Contains(to.value) then Fail(ArgumentOutOfRange("to", to.value))
    else Pass
  }

  /** `shouldMap`: `v` is at or after `from` and, when there is a `to`, at or before it. */
  predicate InRange(vs: RouteVersionSet, v: Version, from: Version, to: Option<Version>) {
    vs.Compare(v, from) >= 0 && (to.None? || vs.Compare(v, to.value) <= 0)
  }

  /** The endpoints of each nested source for one group context, in source order. */
  function SourcesEndpoints(sources: seq<NestedSource>, ctx: GroupContext): (r: seq<Endpoint>)
    ensures sources == [] ==> r == []
  {
    if sources == [] then []
    else SourcesEndpoints(sources[..|sources| - 1], ctx) + sources[|sources| - 1].getGroupedEndpoints(ctx)
  }

  /** Every version of `versions` is registered in `vs`. */
  predicate Registered(vs: RouteVersionSet, versions: seq<Version>) {
    forall i :: 0 <= i < |versions| ==> versions[i] in vs.versions
  }

  /**
   * The endpoints of a version range: for each version in turn that `admit` admits, the
   * endpoints of every nested source under the context `ctxOf` makes from that version's
   * metadata.
   */
  function Expand(
    vs: RouteVersionSet, versions: seq<Version>, admit: Version -> bool,
    ctxOf: (RouteVersionMetadata, Version) -> GroupContext, sources: seq<NestedSource>): seq<Endpoint>
    requires Registered(vs, versions)
  {
    if versions == [] then []
    else
      var v := versions[|versions| - 1];
      Expand(vs, versions[..|versions| - 1], admit, ctxOf, sources)
        + (if admit(v) then SourcesEndpoints(sources, ctxOf(vs.versions[v], v)) else [])
  }

  /** The nested `foreach` loops of `GetEndpoints`, filling a fresh list. */
  method CollectEndpoints(
    vs: RouteVersionSet, versions: seq<Version>, admit: Version -> bool,
    ctxOf: (RouteVersionMetadata, Version) -> GroupContext, sources: seq<NestedSource>)
    returns (list: seq<Endpoint>)
    requires Registered(vs, versions)
    ensures list == Expand(vs, versions, admit, ctxOf, sources)
  {
    list := [];
    for i := 0 to |versions|
      invariant list == Expand(vs, versions[..i], admit, ctxOf, sources)
    {
      var v := versions[i];
      assert versions[..i + 1][..i] == versions[..i];
      if admit(v) {
        var meta := vs.versions[v];
        var ctx := ctxOf(meta, v);
        ghost var before := list;
        for j := 0 to |sources|
          invariant list == before + SourcesEndpoints(sources[..j], ctx)
        {
          assert sources[..j + 1][..j] == sources[..j];
          list := list + sources[j].getGroupedEndpoints(ctx);
        }
        assert sources[..|sources|] == sources;
      }
    }
    assert versions[..|versions|] == versions;
  }

  /** An endpoint comes from some nested source under the given context, and vice versa. */
  lemma {:induction false} SourcesEndpointsMember(sources: seq<NestedSource>, ctx: GroupContext, e: Endpoint)
    ensures e in SourcesEndpoints(sources, ctx)
      <==> exists j :: 0 <= j < |sources| && e in sources[j].getGroupedEndpoints(ctx)
  {
    if sources != [] {
      var init := sources[..|sources| - 1];
      SourcesEndpointsMember(init, ctx, e);
      if e in SourcesEndpoints(sources, ctx) && e !in SourcesEndpoints(init, ctx) {
        assert e in sources[|sources| - 1].getGroupedEndpoints(ctx);
      }
      if exists j :: 0 <= j < |sources| && e in sources[j].getGroupedEndpoints(ctx) {
        var j :| 0 <= j < |sources| && e in sources[j].getGroupedEndpoints(ctx);
        if j < |sources| - 1 {
          assert init[j] == sources[j];
        }
      }
    }
  }

  /**
   * An endpoint is produced exactly when some admitted version's context makes some nested
   * source produce it.
   */
  lemma {:induction false} ExpandMember(
    vs: RouteVersionSet, versions: seq<Version>, admit: Version -> bool,
    ctxOf: (RouteVersionMetadata, Version) -> GroupContext, sources: seq<NestedSource>, e: Endpoint)
    requires Registered(vs, versions)
    ensures e in Expand(vs, versions, admit, ctxOf, sources)
      <==> exists i, j :: (0 <= i < |versions| && 0 <= j < |sources| && admit(versions[i])
        && e in sources[j].getGroupedEndpoints(ctxOf(vs.versions[versions[i]], versions[i])))
  {
    if versions != [] {
      var n := |versions| - 1;
      var init := versions[..n];
      var v := versions[n];
      ExpandMember(vs, init, admit, ctxOf, sources, e);
      SourcesEndpointsMember(sources, ctxOf(vs.versions[v], v), e);
      if exists i, j :: (0 <= i < |versions| && 0 <= j < |sources| && admit(versions[i])
        && e in sources[j].getGroupedEndpoints(ctxOf(vs.versions[versions[i]], versions[i])))
      {
        var i, j :| 0 <= i < |versions| && 0 <= j < |sources| && admit(versions[i])
          && e in sources[j].getGroupedEndpoints(ctxOf(vs.versions[versions[i]], versions[i]));
        if i < n {
          assert init[i] == versions[i];
        }
      }
      if e in Expand(vs, init, admit, ctxOf, sources) {
        var i, j :| 0 <= i < |init| && 0 <= j < |sources| && admit(init[i])
          && e in sources[j].getGroupedEndpoints(ctxOf(vs.versions[init[i]], init[i]));
        assert versions[i] == init[i];
      }
    }
  }

  /** Contexts that agree on every admitted version give the same endpoints. */
  lemma {:induction false} ExpandAgree(
    vs: RouteVersionSet, versions: seq<Version>, admit: Version -> bool,
    ctxOf: (RouteVersionMetadata, Version) -> GroupContext,
    ctxOf': (RouteVersionMetadata, Version) -> GroupContext, sources: seq<NestedSource>)
    requires Registered(vs, versions)
    requires forall i :: 0 <= i < |versions| && admit(versions[i]) ==>
      ctxOf(vs.versions[versions[i]], versions[i]) == ctxOf'(vs.versions[versions[i]], versions[i])
    ensures Expand(vs, versions, admit, ctxOf, sources) == Expand(vs, versions, admit, ctxOf', sources)
  {
    if versions != [] {
      var n := |versions| - 1;
      ExpandAgree(vs, versions[..n], admit, ctxOf, ctxOf', sources);
    }
  }

  /** A range that admits no version yields no endpoints, whatever its nested sources. */
  lemma {:induction false} ExpandNoneAdmitted(
    vs: RouteVersionSet, versions: seq<Version>, admit: Version -> bool,
    ctxOf: (RouteVersionMetadata, Version) -> GroupContext, sources: seq<NestedSource>)
    requires Registered(vs, versions)
    requires forall i :: 0 <= i < |versions| ==> !admit(versions[i])
    ensures Expand(vs, versions, admit, ctxOf, sources) == []
  {
    if versions != [] {
      ExpandNoneAdmitted(vs, versions[..|versions| - 1], admit, ctxOf, sources);
    }
  }

  /** The set compares versions by `Comparer<int>.Default`. */
  ghost predicate HasDefaultComparer(vs: RouteVersionSet) {
    forall a, b :: vs.Compare(a, b) == DefaultCompare(a, b)
  }

  /**
   * Under the default comparer, `From(f)` admits exactly the versions at or above `f`, and
   * `Between(f, t)` exactly those in the closed interval.
   */
  lemma DefaultRange(vs: RouteVersionSet, v: Version, from: Version, to: Option<Version>)
    requires HasDefaultComparer(vs)
    ensures InRange(vs, v, from, to) <==> from <= v && (to.None? || v <= to.value)
  {
    assert vs.Compare(v, from) == DefaultCompare(v, from);
    if to.Some? {
      assert vs.Compare(v, to.value) == DefaultCompare(v, to.value);
    }
  }

  /**
   * Nothing stops `Between(f, t)` with `t` before `f`; under the default comparer such a range
   * admits no version.
   */
  lemma InvertedRangeAdmitsNothing(vs: RouteVersionSet, v: Version, from: Version, to: Version)
    requires HasDefaultComparer(vs) && to < from
    ensures !InRange(vs, v, from, Some(to))
  {
    DefaultRange(vs, v, from, Some(to));
  }
}
