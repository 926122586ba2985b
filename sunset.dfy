/**
 * Retiring a version (RFC 8594): the `Sunset` overloads record a `SunsetFeature` on a
 * version's metadata builder together with an endpoint filter, and that filter stamps each
 * response with a `Sunset` header (section 3 of RFC 8594) and, when there is a link, a `Link`
 * header with relation type `sunset` (section 6 of RFC 8594, serialised as in section 3 of
 * RFC 8288).
 */
module Sunsets {
  import opened Wrappers
  import opened Text
  import opened Seqs
  import opened Features
  import opened VersionMetadata
  import opened MetadataBuilders
  import HttpDate

  // ---------------------------------------------------------------- recording a sunset

  /**
   * The link function of `Sunset(at, Uri link)`: none without a link, otherwise one that
   * answers that link for every request.
   */
  function UriLink(link: Option<Uri>): (r: Option<HttpContext -> Option<Uri>>)
    ensures r.None? <==> link.None?
    ensures r.Some? ==> forall ctx :: r.value(ctx) == link
  {
    match link
    case None => None
    case Some(u) => Some((ctx: HttpContext) => Some(u))
  }

  /**
   * `Sunset(at, Func link, linkMediaType)`: the feature with the given fields is filed under
   * the sunset kind, and a convention adding its endpoint filter is appended.
   */
  method SunsetWithLinkFunction(
    b: RouteVersionMetadataBuilder, at: HttpDate.DateTime,
    link: Option<HttpContext -> Option<Uri>>, linkMediaType: Option<string>)
    returns (r: RouteVersionMetadataBuilder)
    requires b.Valid()
    modifies b
    ensures r == b && b.Valid()
    ensures b.history == old(b.history) + [Sunset(SunsetFeature(at, link, linkMediaType))]
    ensures b.features == AddFeature(old(b.features), Sunset(SunsetFeature(at, link, linkMediaType)))
    ensures b.conventions == old(b.conventions) + [AddFilter(SunsetEndpointFilter(SunsetFeature(at, link, linkMediaType)))]
    ensures b.finallyConventions == old(b.finallyConventions)
  {
    var sunset := SunsetFeature(at, link, linkMediaType);
    r := b.WithFeature(Sunset(sunset));
    r.Add(AddFilter(SunsetEndpointFilter(sunset)));
  }

  /** `Sunset(at, Uri link, linkMediaType)`. */
  method SunsetWithUri(b: RouteVersionMetadataBuilder, at: HttpDate.DateTime, link: Option<Uri>, linkMediaType: Option<string>)
    returns (r: RouteVersionMetadataBuilder)
    requires b.Valid()
    modifies b
    ensures r == b && b.Valid()
    ensures b.history == old(b.history) + [Sunset(SunsetFeature(at, UriLink(link), linkMediaType))]
    ensures b.conventions == old(b.conventions) + [AddFilter(SunsetEndpointFilter(SunsetFeature(at, UriLink(link), linkMediaType)))]
    ensures b.finallyConventions == old(b.finallyConventions)
  {
    r := SunsetWithLinkFunction(b, at, UriLink(link), linkMediaType);
  }

  /** `Sunset(at)`: no link and no media type. */
  method SunsetAt(b: RouteVersionMetadataBuilder, at: HttpDate.DateTime) returns (r: RouteVersionMetadataBuilder)
    requires b.Valid()
    modifies b
    ensures r == b && b.Valid()
    ensures b.history == old(b.history) + [Sunset(SunsetFeature(at, None, None))]
    ensures b.conventions == old(b.conventions) + [AddFilter(SunsetEndpointFilter(SunsetFeature(at, None, None)))]
    ensures b.finallyConventions == old(b.finallyConventions)
  {
    r := SunsetWithLinkFunction(b, at, None, None);
  }

  /**
   * After a `Sunset` call the version's sunset features are the earlier ones followed by the
   * new one, and every other kind's features are as before.
   */
  lemma SunsetRecorded(history: seq<Feature>, s: SunsetFeature, k: FeatureKind)
    ensures FeaturesOfKind(history + [Sunset(s)], SunsetKind) == FeaturesOfKind(history, SunsetKind) + [Sunset(s)]
    ensures k != SunsetKind ==> FeaturesOfKind(history + [Sunset(s)], k) == FeaturesOfKind(history, k)
  {
    FilterAppend(history, [Sunset(s)], (f: Feature) => KindOf(f) == SunsetKind);
    FilterAppend(history, [Sunset(s)], (f: Feature) => KindOf(f) == k);
  }

  // ---------------------------------------------------------------- the endpoint filter

  /** Response headers: each name with its list of values (`StringValues`). */
  type Headers = map<string, seq<string>>

  /** `Headers.Append(name, value)`: adds a value after any the header already has. */
  function AppendHeader(h: Headers, name: string, value: string): (r: Headers)
    ensures r.Keys == h.Keys + {name}
    ensures r[name] == (if name in h then h[name] else []) + [value]
    ensures forall n :: n in h && n != name ==> r[n] == h[n]
  {
    if name in h then h[name := h[name] + [value]] else h[name := [value]]
  }

  /** The `Link` header value: `<uri>; rel="sunset"`, then `; type="mt"` when there is a media type. */
  function LinkHeaderValue(uri: Uri, linkMediaType: Option<string>): string {
    "<" + uri + ">" + LinkParams(linkMediaType)
  }

  /** The link parameters after the target: the relation type, then the media type if any. */
  function LinkParams(linkMediaType: Option<string>): string {
    "; rel=\"sunset\"" + (if linkMediaType.Some? then "; type=\"" + linkMediaType.value + "\"" else "")
  }

  /** The link the filter publishes for a request, if any. */
  function SunsetLink(s: SunsetFeature, ctx: HttpContext): Option<Uri> {
    if s.link.Some? then s.link.value(ctx) else None
  }

  /**
   * The headers after the filter: `Sunset` set to the IMF-fixdate of the instant, replacing
   * any value, then the link, if any, appended to `Link`.
   */
  function SunsetHeaders(s: SunsetFeature, ctx: HttpContext, h: Headers): Headers {
    var stamped := h["Sunset" := [HttpDate.Format(s.at)]];
    match SunsetLink(s, ctx)
    case None => stamped
    case Some(u) => AppendHeader(stamped, "Link", LinkHeaderValue(u, s.linkMediaType))
  }

  /** The response an endpoint filter writes to; only its headers matter here. */
  class HttpResponse {
    var headers: Headers

    constructor (headers: Headers)
      ensures this.headers == headers
    {
      this.headers := headers;
    }
  }

  /** What the rest of the pipeline (`next`) does: its result and the headers it leaves. */
  datatype HandlerOutcome = HandlerOutcome(result: int, headers: Headers)

  /**
   * `SunsetEndpointFilter.InvokeAsync`: runs `next` first, then stamps the response; the
   * result of `next` is returned as it is.
   */
  method InvokeAsync(s: SunsetFeature, ctx: HttpContext, response: HttpResponse, next: Headers -> HandlerOutcome)
    returns (result: int)
    modifies response
    ensures result == next(old(response.headers)).result
    ensures response.headers == SunsetHeaders(s, ctx, next(old(response.headers)).headers)
  {
    var outcome := next(response.headers);
    response.headers := outcome.headers;
    response.headers := response.headers["Sunset" := [HttpDate.Format(s.at)]];
    if s.link.Some? {
      var sunsetUri := s.link.value(ctx);
      if sunsetUri.Some? {
        AppendLink(response, sunsetUri.value, s.linkMediaType);
      }
    }
    result := outcome.result;
  }

  /** The link part of `InvokeAsync`: the formatted link is appended to `Link`. */
  method AppendLink(response: HttpResponse, uri: Uri, linkMediaType: Option<string>)
    modifies response
    ensures response.headers == AppendHeader(old(response.headers), "Link", LinkHeaderValue(uri, linkMediaType))
  {
    var value := if linkMediaType.None?
      then "<" + uri + ">; rel=\"sunset\""
      else "<" + uri + ">; rel=\"sunset\"; type=\"" + linkMediaType.value + "\"";
    assert value == LinkHeaderValue(uri, linkMediaType);
    if "Link" in response.headers {
      response.headers := response.headers["Link" := response.headers["Link"] + [value]];
    } else {
      response.headers := response.headers["Link" := [value]];
    }
  }

  /**
   * The `Sunset` header holds exactly one value, whatever was there before, and that value
   * parses back as an IMF-fixdate to the sunset instant.
   */
  lemma SunsetHeaderRoundTrip(s: SunsetFeature, ctx: HttpContext, h: Headers)
    ensures "Sunset" in SunsetHeaders(s, ctx, h)
    ensures SunsetHeaders(s, ctx, h)["Sunset"] == [HttpDate.Format(s.at)]
    ensures HttpDate.Parse(SunsetHeaders(s, ctx, h)["Sunset"][0]) == Some(s.at)
  {
    HttpDate.ParseFormat(s.at);
  }

  /**
   * `Link` gains one value exactly when the sunset has a link function that answers a link
   * for the request; the value is appended after the existing ones. Otherwise `Link` is as
   * it was.
   */
  lemma LinkHeaderRule(s: SunsetFeature, ctx: HttpContext, h: Headers)
    ensures var r := SunsetHeaders(s, ctx, h);
      && ("Link" in r <==> "Link" in h || SunsetLink(s, ctx).Some?)
      && (SunsetLink(s, ctx).Some? ==>
            r["Link"] == (if "Link" in h then h["Link"] else []) + [LinkHeaderValue(SunsetLink(s, ctx).value, s.linkMediaType)])
      && (SunsetLink(s, ctx).None? && "Link" in h ==> r["Link"] == h["Link"])
  {
  }

  /** A sunset without a link function never touches `Link`. */
  lemma NoLinkFunctionNoLink(s: SunsetFeature, ctx: HttpContext, h: Headers)
    requires s.link.None?
    ensures "Link" in SunsetHeaders(s, ctx, h) <==> "Link" in h
  {
  }

  /** The filter changes no header other than `Sunset` and `Link`. */
  lemma OtherHeadersUntouched(s: SunsetFeature, ctx: HttpContext, h: Headers, name: string)
    requires name != "Sunset" && name != "Link"
    ensures name in SunsetHeaders(s, ctx, h) <==> name in h
    ensures name in h ==> SunsetHeaders(s, ctx, h)[name] == h[name]
  {
  }

  /** The parameters determine the media type. */
  lemma LinkParamsInjective(m1: Option<string>, m2: Option<string>)
    requires LinkParams(m1) == LinkParams(m2)
    ensures m1 == m2
  {
    var p := LinkParams(m1);
    if m1.Some? && m2.Some? {
      assert p == "; rel=\"sunset\"; type=\"" + m1.value + "\"";
      assert p == "; rel=\"sunset\"; type=\"" + m2.value + "\"";
      assert m1.value == p[22..|p| - 1] == m2.value;
    }
  }

  /**
   * A `Link` value determines the link and the media type, as long as neither link has a
   * `>`, which the lemma requires.
   */
  lemma LinkHeaderValueInjective(u1: Uri, m1: Option<string>, u2: Uri, m2: Option<string>)
    requires forall k :: 0 <= k < |u1| ==> u1[k] != '>'
    requires forall k :: 0 <= k < |u2| ==> u2[k] != '>'
    requires LinkHeaderValue(u1, m1) == LinkHeaderValue(u2, m2)
    ensures u1 == u2 && m1 == m2
  {
    var t1, t2 := LinkParams(m1), LinkParams(m2);
    var v := LinkHeaderValue(u1, m1);
    assert v[1..] == u1 + ">" + t1;
    assert v[1..] == u2 + ">" + t2;
    SplitAtSeparator(u1, u2, '>', t1, t2);
    LinkParamsInjective(m1, m2);
  }
}
