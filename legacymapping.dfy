/**
 * `VersionedEndpointRouteBuilder<T>`, the earliest mapping API: for each version in a range it
 * registers the route under a literal `v{version}/` pattern. Versions are ordered by their
 * natural `IComparable` order and the range is not checked against the known versions.
 */
module LegacyEndpointMapping {
  import opened Wrappers
  import opened Text
  import opened Seqs
  import opened VersionMetadata

  /** One `routeBuilder.MapMethods(pattern, methods, handler)` registration. */
  datatype RouteRegistration = RouteRegistration(pattern: string, methods: seq<string>, handler: nat)

  /** The application's route table, as far as `MapMethods` fills it. */
  class RouteTable {
    var routes: seq<RouteRegistration>

    constructor ()
      ensures routes == []
    {
      routes := [];
    }

    method MapMethods(pattern: string, methods: seq<string>, handler: nat)
      modifies this
      ensures routes == old(routes) + [RouteRegistration(pattern, methods, handler)]
    {
      routes := routes + [RouteRegistration(pattern, methods, handler)];
    }
  }

  /** `$"v{version}/{pattern.TrimStart('/')}"`. */
  function LegacyPattern(v: Version, pattern: string): string {
    "v" + IntToString(v) + "/" + TrimStart(pattern, '/')
  }

  /** `version.CompareTo(from) >= 0 && (to is null || version.CompareTo(to) <= 0)`. */
  predicate LegacyInRange(v: Version, from: Version, to: Option<Version>) {
    DefaultCompare(v, from) >= 0 && (to.None? || DefaultCompare(v, to.value) <= 0)
  }

  /** The registrations `Map` makes, one per version in range, in the versions' order. */
  function MapRoutes(versions: seq<Version>, from: Version, to: Option<Version>, pattern: string,
    methods: seq<string>, handler: nat): seq<RouteRegistration>
  {
    if versions == [] then []
    else
      var v := versions[|versions| - 1];
      MapRoutes(versions[..|versions| - 1], from, to, pattern, methods, handler)
        + (if LegacyInRange(v, from, to) then [RouteRegistration(LegacyPattern(v, pattern), methods, handler)] else [])
  }

  /** `r` is the registration `Map` makes for version `v`, which is in range. */
  predicate RegisteredFor(v: Version, from: Version, to: Option<Version>, pattern: string,
    methods: seq<string>, handler: nat, r: RouteRegistration)
  {
    LegacyInRange(v, from, to) && r == RouteRegistration(LegacyPattern(v, pattern), methods, handler)
  }

  /**
   * A registration is made exactly for the versions in range, each with the version's literal
   * pattern and the caller's methods and handler.
   */
  lemma {:induction false} MapRoutesMember(versions: seq<Version>, from: Version, to: Option<Version>,
    pattern: string, methods: seq<string>, handler: nat, r: RouteRegistration)
    ensures r in MapRoutes(versions, from, to, pattern, methods, handler)
      <==> exists i :: 0 <= i < |versions| && RegisteredFor(versions[i], from, to, pattern, methods, handler, r)
  {
    if versions != [] {
      var n := |versions| - 1;
      var init := versions[..n];
      MapRoutesMember(init, from, to, pattern, methods, handler, r);
      MapRoutesSnoc(versions, from, to, pattern, methods, handler, r);
      if r in MapRoutes(init, from, to, pattern, methods, handler) {
        var i :| 0 <= i < n && RegisteredFor(init[i], from, to, pattern, methods, handler, r);
        assert versions[i] == init[i];
        assert RegisteredFor(versions[i], from, to, pattern, methods, handler, r);
      } else if RegisteredFor(versions[n], from, to, pattern, methods, handler, r) {
        assert 0 <= n < |versions|;
      } else {
        NoneRegistered(versions, init, from, to, pattern, methods, handler, r);
      }
    }
  }

  /** When neither the earlier versions nor the last one register `r`, none does. */
  lemma NoneRegistered(versions: seq<Version>, init: seq<Version>, from: Version, to: Option<Version>,
    pattern: string, methods: seq<string>, handler: nat, r: RouteRegistration)
    requires versions != [] && init == versions[..|versions| - 1]
    requires forall i :: 0 <= i < |init| ==> !RegisteredFor(init[i], from, to, pattern, methods, handler, r)
    requires !RegisteredFor(versions[|versions| - 1], from, to, pattern, methods, handler, r)
    ensures forall i :: 0 <= i < |versions| ==> !RegisteredFor(versions[i], from, to, pattern, methods, handler, r)
  {
    forall i | 0 <= i < |versions| - 1
      ensures !RegisteredFor(versions[i], from, to, pattern, methods, handler, r)
    {
      assert init[i] == versions[i];
    }
  }

  /** The registrations for all but the last version, then the last version's, if in range. */
  lemma MapRoutesSnoc(versions: seq<Version>, from: Version, to: Option<Version>,
    pattern: string, methods: seq<string>, handler: nat, r: RouteRegistration)
    requires versions != []
    ensures r in MapRoutes(versions, from, to, pattern, methods, handler)
      <==> (|| r in MapRoutes(versions[..|versions| - 1], from, to, pattern, methods, handler)
            || RegisteredFor(versions[|versions| - 1], from, to, pattern, methods, handler, r))
  {
  }

  /** The registrations for one more version: the earlier ones, then this one's if in range. */
  lemma MapRoutesStep(versions: seq<Version>, i: nat, from: Version, to: Option<Version>,
    pattern: string, methods: seq<string>, handler: nat)
    requires i < |versions|
    ensures MapRoutes(versions[..i + 1], from, to, pattern, methods, handler)
      == MapRoutes(versions[..i], from, to, pattern, methods, handler)
        + (if LegacyInRange(versions[i], from, to)
           then [RouteRegistration(LegacyPattern(versions[i], pattern), methods, handler)] else [])
  {
    assert versions[..i + 1][..i] == versions[..i];
  }

  /** A version's string form is digits, after a minus sign when negative; it has no '/'. */
  lemma IntToStringHasNoSlash(v: Version)
    ensures forall k :: 0 <= k < |IntToString(v)| ==> IntToString(v)[k] != '/'
  {
    if v < 0 {
      forall k | 1 <= k < |IntToString(v)| ensures IntToString(v)[k] != '/' {
        assert IntToString(v)[k] == NatToString(-v)[k - 1];
      }
    }
  }

  /** The pattern after its leading 'v'. */
  lemma AfterLeadingV(x: string, t: string)
    ensures ("v" + x + "/" + t)[1..] == x + "/" + t
  {
  }

  /** Different versions get different patterns, so no two registrations of a `Map` collide. */
  lemma LegacyPatternInjective(a: Version, b: Version, pattern: string)
    requires LegacyPattern(a, pattern) == LegacyPattern(b, pattern)
    ensures a == b
  {
    var sa, sb, t := IntToString(a), IntToString(b), TrimStart(pattern, '/');
    AfterLeadingV(sa, t);
    AfterLeadingV(sb, t);
    IntToStringHasNoSlash(a);
    IntToStringHasNoSlash(b);
    SplitAtSeparator(sa, sb, '/', t, t);
    IntToStringInjective(a, b);
  }

  /** Leading slashes of the route pattern make no difference. */
  lemma {:induction false} LegacyPatternIgnoresLeadingSlashes(v: Version, pattern: string)
    ensures LegacyPattern(v, "/" + pattern) == LegacyPattern(v, pattern)
  {
    assert ("/" + pattern)[1..] == pattern;
  }

  /** The HTTP methods of the single-method helpers (`HttpMethods.Get`, ...). */
  datatype HttpVerb = Get | Post | Put | Delete | Patch

  function MethodName(verb: HttpVerb): string {
    match verb
    case Get => "GET"
    case Post => "POST"
    case Put => "PUT"
    case Delete => "DELETE"
    case Patch => "PATCH"
  }

  class VersionedEndpointRouteBuilder {
    const routeBuilder: RouteTable
    /** `versionBuilder.Versions`, an `ISet`, in its enumeration order: no version twice. */
    const versions: seq<Version>

    constructor (routeBuilder: RouteTable, versions: seq<Version>)
      requires Distinct(versions)
      ensures this.routeBuilder == routeBuilder && this.versions == versions
    {
      this.routeBuilder := routeBuilder;
      this.versions := versions;
    }

    /** `Map(from, to, pattern, methods, handler)`: one registration per version in range. */
    method Map(from: Version, to: Option<Version>, pattern: string, methods: seq<string>, handler: nat)
      modifies routeBuilder
      ensures routeBuilder.routes == old(routeBuilder.routes) + MapRoutes(versions, from, to, pattern, methods, handler)
    {
      ghost var before := routeBuilder.routes;
      for i := 0 to |versions|
        invariant routeBuilder.routes == before + MapRoutes(versions[..i], from, to, pattern, methods, handler)
      {
        var version := versions[i];
        MapRoutesStep(versions, i, from, to, pattern, methods, handler);
        var shouldMap := DefaultCompare(version, from) >= 0 && (to.None? || DefaultCompare(version, to.value) <= 0);
        if shouldMap {
          var vPattern := LegacyPattern(version, pattern);
          routeBuilder.MapMethods(vPattern, methods, handler);
          AppendAssoc(before, MapRoutes(versions[..i], from, to, pattern, methods, handler),
            [RouteRegistration(vPattern, methods, handler)]);
        } else {
          assert MapRoutes(versions[..i], from, to, pattern, methods, handler) + []
            == MapRoutes(versions[..i], from, to, pattern, methods, handler);
        }
      }
      assert versions[..|versions|] == versions;
    }

    /** `MapGet(from, ...)`, `MapPost(from, ...)`, ...: one method, from `from` onward. */
    method MapVerb(verb: HttpVerb, from: Version, pattern: string, handler: nat)
      modifies routeBuilder
      ensures routeBuilder.routes
        == old(routeBuilder.routes) + MapRoutes(versions, from, None, pattern, [MethodName(verb)], handler)
    {
      Map(from, None, pattern, [MethodName(verb)], handler);
    }

    /** `MapGet((from, to), ...)`, `MapPost((from, to), ...)`, ...: one method, inclusive range. */
    method MapVerbRange(verb: HttpVerb, from: Version, to: Version, pattern: string, handler: nat)
      modifies routeBuilder
      ensures routeBuilder.routes
        == old(routeBuilder.routes) + MapRoutes(versions, from, Some(to), pattern, [MethodName(verb)], handler)
    {
      Map(from, Some(to), pattern, [MethodName(verb)], handler);
    }

    /** `MapMethods(from, methods, ...)`. */
    method MapMethodsFrom(from: Version, methods: seq<string>, pattern: string, handler: nat)
      modifies routeBuilder
      ensures routeBuilder.routes
        == old(routeBuilder.routes) + MapRoutes(versions, from, None, pattern, methods, handler)
    {
      Map(from, None, pattern, methods, handler);
    }

    /** `MapMethods((from, to), methods, ...)`. */
    method MapMethodsRange(from: Version, to: Version, methods: seq<string>, pattern: string, handler: nat)
      modifies routeBuilder
      ensures routeBuilder.routes
        == old(routeBuilder.routes) + MapRoutes(versions, from, Some(to), pattern, methods, handler)
    {
      Map(from, Some(to), pattern, methods, handler);
    }
  }
}
