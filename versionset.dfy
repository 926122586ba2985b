/** `RouteVersionSet<T>`: the immutable result of `RouteVersionSetBuilder.Build`. */
module VersionSets {
  import opened Wrappers
  import opened Errors
  import opened Text
  import opened Seqs
  import opened VersionMetadata

  /**
   * A built version set: its identity and policy (`ref`), its versions in enumeration order
   * (`order`, the registration order the backing dictionary keeps) and each version's metadata.
   */
  datatype RouteVersionSet = RouteVersionSet(
    ref: VersionSetRef,
    order: seq<Version>,
    versions: map<Version, RouteVersionMetadata>)
  {
    /**
     * What `Build` guarantees: each version is enumerated once, the enumerated versions are
     * exactly the dictionary's keys, and each entry's metadata names its own version and this set.
     */
    ghost predicate Valid() {
      && Distinct(order)
      && (forall v :: v in versions <==> v in order)
      && (forall v :: v in versions ==> versions[v].version == v && versions[v].versionSet == ref)
    }

    /** The name the set was built with, if any. */
    function Name(): (r: Option<string>)
      ensures r == ref.name
    {
      ref.name
    }

    /** `GetSlug(version)`: the slug function applied, whether or not the version is registered. */
    function GetSlug(v: Version): (r: string)
      ensures r == ref.slug(v)
    {
      ref.slug(v)
    }

    /**
     * `GetNamedSlug(version)`: the slug itself for an unnamed set, and `name-slug` for a
     * named one.
     */
    function GetNamedSlug(v: Version): (r: string)
      ensures ref.name.None? ==> r == GetSlug(v)
      ensures ref.name.Some? ==> r == ref.name.value + "-" + GetSlug(v)
    {
      match ref.name
      case None => GetSlug(v)
      case Some(n) => n + "-" + GetSlug(v)
    }

    /**
     * `GetMetadata(version)`: the registered version's metadata, or an `ArgumentException`
     * naming the parameter "version".
     */
    function GetMetadata(v: Version): (r: Result<RouteVersionMetadata, SetupError>)
      ensures r.Success? <==> v in versions
      ensures r.Success? ==> r.value == versions[v]
      ensures r.Failure? ==> r.error == InvalidArgument("version", "Invalid version " + IntToString(v) + ".")
      ensures Valid() && r.Success? ==> r.value.version == v && r.value.versionSet == ref
    {
      if v in versions then Success(versions[v])
      else Failure(InvalidArgument("version", "Invalid version " + IntToString(v) + "."))
    }

    /** `Contains(version)`: key membership, not the comparer. */
    function Contains(v: Version): (r: bool)
      ensures r <==> v in versions
      ensures r <==> GetMetadata(v).Success?
      ensures Valid() ==> (r <==> v in Enumerate())
    {
      v in versions
    }

    /** `Compare(first, second)`: the configured comparer's answer. */
    function Compare(a: Version, b: Version): (r: int)
      ensures r == ref.comparer(a, b)
    {
      ref.comparer(a, b)
    }

    /** Enumerating the set: every registered version, once, in registration order. */
    function Enumerate(): (r: seq<Version>)
      ensures Valid() ==> Distinct(r) && forall v :: v in r <==> v in versions
    {
      order
    }
  }

  /**
   * With an injective slug function, different versions get different named slugs, so the
   * per-version documents `AddVersionedOpenApi` registers never share a name.
   */
  lemma NamedSlugInjective(s: RouteVersionSet, a: Version, b: Version)
    requires forall x, y :: s.ref.slug(x) == s.ref.slug(y) ==> x == y
    requires s.GetNamedSlug(a) == s.GetNamedSlug(b)
    ensures a == b
  {
    if s.ref.name.Some? {
      var p := s.ref.name.value + "-";
      assert s.GetNamedSlug(a) == p + s.GetSlug(a);
      assert s.GetNamedSlug(b) == p + s.GetSlug(b);
      assert s.GetSlug(a) == s.GetNamedSlug(a)[|p|..];
      assert s.GetSlug(b) == s.GetNamedSlug(b)[|p|..];
    }
  }

  /** Two sets that differ only in name give every version the same slug. */
  lemma SlugIgnoresName(s: RouteVersionSet, t: RouteVersionSet, v: Version)
    requires s.ref.slug == t.ref.slug
    ensures s.GetSlug(v) == t.GetSlug(v)
    ensures t.ref.name.Some? ==> t.GetNamedSlug(v) == t.ref.name.value + "-" + s.GetSlug(v)
  {
  }
}
