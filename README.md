# route-versioning, modelled in Dafny

RouteVersioning is an ASP.NET Core library that expands one route declaration into one
concrete route per API version, and that filters and annotates the OpenAPI documents of those
versions using the version metadata attached to each endpoint. This project models the
library's deterministic core and proves properties of it:

- the **version registry**: `RouteVersionSetBuilder` (duplicate-checked registration, slug
  patterns with a single `{0}`, the default `v{n}` slug and natural-order comparer) and the
  `RouteVersionSet` it builds (slug, named slug, metadata lookup, membership, comparison,
  enumeration) — modules `SetBuilders`, `VersionSets`;
- the **per-version metadata**: `RouteVersionMetadataBuilder` with its kind-keyed feature
  multimap and its two convention lists, `RouteVersionMetadata` and the untyped
  `IRouteVersionMetadata` view with `IsVersion` — modules `Features`, `MetadataBuilders`,
  `VersionMetadata`;
- the **range composer** `VersionedRouteBuilder` (`From`/`Between` validation, the inclusive
  range under the set's comparer, the per-version group context, the version-major
  concatenation of nested endpoints, the 0 / 1 / many change-token rule) and
  `WithVersions` — modules `Routing`, `RangeExpansion`, `VersionedRoutes`;
- **sunsets**: the three `Sunset` builder extensions and `SunsetEndpointFilter`, with the
  `Sunset` header in the IMF-fixdate form of section 7.1.1.1 of RFC 7231 (as section 3 of
  RFC 8594 requires) and the `Link` header of section 3 of RFC 8288 with the `sunset`
  relation of section 6 of RFC 8594 — modules `HttpDate`, `Sunsets`;
- the **OpenAPI transformers**: the action lookup of `Helpers`, `DocumentInfoTransformer`,
  `ExcludeInapplicableOperationsTransformer`, `ExcludeVersionedOperationsTransformer`,
  `MarkSunsettedOperationsTransformer`, and the per-version document pipeline of
  `AddVersionedOpenApi` — modules `OpenApiDocuments`, `Transformers`, `OpenApiRegistration`;
- the **earlier API generation**, modelled separately: `VersionedRouteContext` (drops the
  enclosing group's conventions), `VersionedEndpointRouteBuilder` (literal `v{n}/` patterns,
  no validation) and `RemoveInapplicableOperationsTransformer` (its own tags, `ToDictionary`,
  no include flag) — modules `LegacyRouteContext`, `LegacyEndpointMapping`,
  `LegacyTransformer`.

Objects that the library mutates (builders, the OpenAPI document, the options, the service
collection, the HTTP response, the outer route builder's data-source list) are classes whose
methods state their whole new state; everything that only computes is a function. Versions
are integers (`int`, the type every use of the library in its tests and samples
instantiates), a comparer is a function `(Version, Version) -> int`, and the identity of a
built set, which .NET compares by reference, is an explicit number in `VersionSetRef`.
Exceptions are `Result`/`Outcome` values carrying the exception kind, parameter name and
value. Application delegates (options and info configurators, conventions, filters) are
identified by numbers; what a delegate does is a function parameter of the operation that
runs it.

Shared modules: `Wrappers` and `Errors` (option, result and the exceptions), `Seqs`
(filtering and keyed sequences), `Text` (integer formatting and the `IndexOf`,
`LastIndexOf` and `TrimStart` string operations the core calls).

## Model

| member | source | states |
|---|---|---|
| `SetBuilders.RouteVersionSetBuilder.constructor` | RouteVersioning/RouteVersionSetBuilder.cs:7-14 | a new builder keeps its name, has no versions, the slug `v` + version and the natural-order comparer |
| `SetBuilders.RouteVersionSetBuilder.Version` | RouteVersioning/RouteVersionSetBuilder.cs:26-40 | a version already defined fails with `InvalidOperationException` "The version n has already been defined." and changes nothing; otherwise exactly that key is added, in registration order, with a fresh metadata builder on which `configure` has run, every earlier entry is kept, slug and comparer are untouched, and the same builder is returned |
| `SetBuilders.ApplyStep` | RouteVersioning/RouteVersionSetBuilder.cs:38 | one step of a `configure` callback appends exactly one feature, convention or finally-convention to the version's builder and keeps it well filed |
| `SetBuilders.Configure` | RouteVersioning/RouteVersionSetBuilder.cs:38 | running a whole `configure` callback appends its features, conventions and finally-conventions, each list in call order |
| `SetBuilders.StepFeaturesOfKind` | RouteVersioning/RouteVersionSetBuilder.cs:36-38 | every feature the callback adds is returned by `GetFeatures` of its own kind |
| `SetBuilders.RouteVersionSetBuilder.WithSlugFunction` | RouteVersioning/RouteVersionSetBuilder.cs:49-53 | the slug becomes exactly the given function (the last call wins); versions, order and comparer are untouched; the same builder is returned |
| `SetBuilders.ValidateSlugPattern` | RouteVersioning/RouteVersionSetBuilder.cs:69-84 | a pattern is accepted iff `{0}` occurs exactly once; every rejection is an `ArgumentException` on parameter "pattern", with the "must include the version placeholder" message when `{0}` does not occur at all |
| `SetBuilders.RouteVersionSetBuilder.WithSlugPattern` | RouteVersioning/RouteVersionSetBuilder.cs:67-88 | a rejected pattern returns that error and leaves the slug unchanged; an accepted one makes the slug of every version the pattern formatted with it; versions, order and comparer are untouched |
| `SetBuilders.DefaultSlug` | RouteVersioning/RouteVersionSetBuilder.cs:13 | the default slug `$"v{v}"`: `v` followed by the version's decimal form; `DefaultSlugIsPattern` shows it is the slug of the pattern `v{0}` |
| `SetBuilders.FormatPattern` | RouteVersioning/RouteVersionSetBuilder.cs:86 | `String.Format(pattern, v)`: the first `{0}` replaced by the version's decimal form; `FormatAccepted`, `FormatSubstitutes` and `FormatPatternInjective` give its meaning for accepted patterns |
| `SetBuilders.FormatAccepted` | RouteVersioning/RouteVersionSetBuilder.cs:86 | for an accepted pattern, formatting replaces the single `{0}` by the version's decimal form and keeps the text around it |
| `SetBuilders.FormatSubstitutes` | RouteVersioning/RouteVersionSetBuilder.cs:69-86 | a pattern `pre{0}post` with no other `{0}` is accepted and formats to `pre` + version + `post` |
| `SetBuilders.FormatPatternInjective` | RouteVersioning/RouteVersionSetBuilder.cs:86 | two versions formatted with the same accepted pattern give different slugs |
| `SetBuilders.DefaultSlugIsPattern` | RouteVersioning/RouteVersionSetBuilder.cs:13 | the default slug is the accepted pattern `v{0}` |
| `SetBuilders.SuffixPatternExample` | RouteVersioning/RouteVersionSetBuilder.cs:86 | `{0}-id` is accepted and gives `1-id` for version 1 |
| `SetBuilders.RejectedPatterns` | RouteVersioning/RouteVersionSetBuilder.cs:69-84 | `v` is rejected with the "must include the version placeholder" error and `{0}{0}` is rejected |
| `SetBuilders.RouteVersionSetBuilder.WithComparer` | RouteVersioning/RouteVersionSetBuilder.cs:96-100 | the comparer becomes exactly the given one; slug, versions and order are untouched; the same builder is returned |
| `SetBuilders.RouteVersionSetBuilder.Build` | RouteVersioning/RouteVersionSetBuilder.cs:102-113 | the set has the builder's name, slug and comparer and an identity that no earlier built set has (the caller threads the identities already taken, and the new one is added to them); it enumerates the registered versions in registration order, contains exactly them, and maps each to its builder's metadata built for this set, whose `GetFeatures` of every kind is that version's features of the kind in insertion order |
| `VersionSets.RouteVersionSet.Name` | RouteVersioning.Tests/RouteVersionSetTests.cs:119-150 | the name is the one the set was built with |
| `VersionSets.RouteVersionSet.GetSlug` | RouteVersioning/RouteVersionSet.cs:31-34 | the slug is the configured slug function applied to the version, registered or not |
| `VersionSets.RouteVersionSet.GetNamedSlug` | RouteVersioning.Tests/RouteVersionSetTests.cs:132-150 | the named slug is the slug for an unnamed set and name + "-" + slug for a named one |
| `VersionSets.NamedSlugInjective` | RouteVersioning.OpenApi/RouteVersioningOpenApiExtensions.cs:42 | with an injective slug function, two versions never share a named slug, so document names differ |
| `VersionSets.SlugIgnoresName` | RouteVersioning.Tests/RouteVersionSetTests.cs:119-129 | two sets with the same slug function give the same slug whatever their names; a named set's named slug is its name, "-", and that slug |
| `VersionSets.RouteVersionSet.GetMetadata` | RouteVersioning/RouteVersionSet.cs:42-50 | succeeds iff the version is registered, returning its stored metadata, which names that version and this set; otherwise an `ArgumentException` on parameter "version" with the message "Invalid version n." |
| `VersionSets.RouteVersionSet.Contains` | RouteVersioning/RouteVersionSet.cs:55-58 | true iff the version is a key of the set (key equality, not the comparer), iff `GetMetadata` succeeds, iff enumeration yields it |
| `VersionSets.RouteVersionSet.Compare` | RouteVersioning/RouteVersionSet.cs:64-67 | the result is exactly the configured comparer's |
| `VersionSets.RouteVersionSet.Enumerate` | RouteVersioning/RouteVersionSet.cs:71 | enumeration yields every registered version exactly once and nothing else |
| `VersionMetadata.DefaultCompare` | RouteVersioning/RouteVersionSetBuilder.cs:14 | `Comparer<int>.Default`: zero, negative or positive exactly when the first version is equal to, less than or greater than the second |
| `VersionMetadata.BoxedCompare` | RouteVersioning/IRouteVersionMetadata.cs:33 | the default comparer over boxed versions says zero exactly for equal values |
| `VersionMetadata.RouteVersionMetadata.GetFeatures` | RouteVersioning/RouteVersionMetadata.cs:49-55 | the features of a stored kind in insertion order, an empty sequence for a kind never added, and never a feature of another kind |
| `VersionMetadata.RouteVersionMetadata.BoxedVersion` | RouteVersioning/IRouteVersionMetadata.cs:29-31 | the untyped `Version` view is the typed version |
| `VersionMetadata.RouteVersionMetadata.UntypedSet` | RouteVersioning/IRouteVersionMetadata.cs:25-27 | the untyped `Set` view is the typed set: same identity, slug and comparer |
| `VersionMetadata.RouteVersionMetadata.Comparer` | RouteVersioning/IRouteVersionMetadata.cs:33 | the comparer of typed metadata is the default comparer, not the set's |
| `VersionMetadata.RouteVersionMetadata.IsVersion` | RouteVersioning/IRouteVersionMetadata.cs:16-19 | true iff the given boxed version equals this metadata's version under the default comparer |
| `VersionMetadata.IsVersionIgnoresSetComparer` | RouteVersioning/IRouteVersionMetadata.cs:16-33 | even when the set's comparer calls two versions equal, `IsVersion` distinguishes them |
| `MetadataBuilders.RouteVersionMetadataBuilder.constructor` | RouteVersioning/RouteVersionMetadataBuilder.cs:18-21 | a new builder for a version has no features and no conventions |
| `MetadataBuilders.AddFeature` | RouteVersioning/RouteVersionMetadataBuilder.cs:30-43 | filing a feature creates a one-element list for a new kind, appends to the list of a known kind, and leaves every other kind's list unchanged |
| `MetadataBuilders.RouteVersionMetadataBuilder.WithFeature` | RouteVersioning/RouteVersionMetadataBuilder.cs:30-43 | the feature is filed under its kind, the conventions are untouched, and the same builder is returned |
| `MetadataBuilders.FeaturesOfKind` | RouteVersioning/RouteVersionMetadataBuilder.cs:30-43 | the features of one kind, in the order they were added, are all of that kind |
| `MetadataBuilders.FileAllIsFilter` | RouteVersioning/RouteVersionMetadataBuilder.cs:30-43 | filing features one by one gives, for each kind, exactly the added features of that kind in order, and a kind is present iff one was added |
| `MetadataBuilders.RouteVersionMetadataBuilder.Add` | RouteVersioning/RouteVersionMetadataBuilder.cs:23 | `Add` appends to the conventions only |
| `MetadataBuilders.RouteVersionMetadataBuilder.Finally` | RouteVersioning/RouteVersionMetadataBuilder.cs:24 | `Finally` appends to the finally-conventions only |
| `MetadataBuilders.RouteVersionMetadataBuilder.Build` | RouteVersioning/RouteVersionMetadataBuilder.cs:45-54 | the metadata carries the version, the given set, both convention lists, and for every kind exactly the features added of that kind |
| `Routing.Parse` | RouteVersioning/VersionedRouteBuilder.cs:117 | a slug parses to non-empty segments none of which contains "/" |
| `Routing.Combine` | RouteVersioning/VersionedRouteBuilder.cs:115-118 | combining with no outer prefix gives the slug's pattern; otherwise the outer prefix followed by it |
| `Routing.CompositeEndpointDataSource.constructor` | RouteVersioning/VersionedRouteBuilder.cs:158 | the composite holds exactly the given nested sources |
| `Routing.EndpointRouteBuilder.constructor` | RouteVersioning/VersionedRouteBuilder.cs:15 | an outer route builder starts with no data sources |
| `RangeExpansion.ValidateRange` | RouteVersioning/VersionedRouteBuilder.cs:36-52 | passes iff `from` and any `to` are registered; an unregistered `from` is reported first, as `ArgumentOutOfRangeException` on "from" with its value, then an unregistered `to` on "to" |
| `RangeExpansion.DefaultRange` | RouteVersioning/VersionedRouteBuilder.cs:105-107 | with the default comparer a version is mapped iff from <= version and (no `to` or version <= to) |
| `RangeExpansion.InvertedRangeAdmitsNothing` | RouteVersioning/VersionedRouteBuilder.cs:29-58 | `Between(a, b)` with b < a is accepted but admits no version under the default comparer |
| `RangeExpansion.ExpandNoneAdmitted` | RouteVersioning/VersionedRouteBuilder.cs:103-146 | when no version is in range the data source yields no endpoints |
| `RangeExpansion.InRange` | RouteVersioning/VersionedRouteBuilder.cs:105-107 | `shouldMap`: the set's comparer puts the version at or after `from` and, when there is a `to`, at or before it; `DefaultRange` shows that under the default comparer this is `from <= v <= to` |
| `RangeExpansion.Expand` | RouteVersioning/VersionedRouteBuilder.cs:103-146 | for each version in turn that is in range, the endpoints of every nested source under that version's context, version-major; `ExpandMember` characterises its members and `CollectEndpoints` proves the loops equal to it |
| `RangeExpansion.SourcesEndpoints` | RouteVersioning/VersionedRouteBuilder.cs:139-142 | no nested sources give no endpoints |
| `RangeExpansion.SourcesEndpointsMember` | RouteVersioning/VersionedRouteBuilder.cs:139-142 | an endpoint is produced for one version iff some nested source yields it for that version's context |
| `RangeExpansion.CollectEndpoints` | RouteVersioning/VersionedRouteBuilder.cs:99-147 | the loop over versions and nested sources builds exactly the version-major concatenation of the nested sources' endpoints over the admitted versions |
| `RangeExpansion.ExpandMember` | RouteVersioning/VersionedRouteBuilder.cs:101-146 | an endpoint is listed iff some admitted version and some nested source yield it under that version's context |
| `VersionedRoutes.VersionContext` | RouteVersioning/VersionedRouteBuilder.cs:113-136 | a version's group context: the group prefix combined with the slug's pattern, the metadata convention then the group's and the version's conventions, the group's then the version's finally-conventions; `VersionContextLayers` states the layering |
| `VersionedRoutes.VersionContextLayers` | RouteVersioning/VersionedRouteBuilder.cs:113-136 | a version's context has prefix = outer prefix + parsed slug, conventions = attach-metadata, then the group's, then the version's, and finally-conventions = the group's then the version's |
| `VersionedRoutes.VersionedRouteBuilder.constructor` | RouteVersioning/VersionedRouteBuilder.cs:15 | the builder pairs the outer builder with the set |
| `VersionedRoutes.WithVersions` | RouteVersioning/RouteVersioningExtensions.cs:11-18 | `WithVersions` pairs the route builder with the set, with no validation |
| `VersionedRoutes.VersionedRouteBuilder.MakeBuilder` | RouteVersioning/VersionedRouteBuilder.cs:34-58 | a failed validation returns its error and leaves the outer data sources unchanged; otherwise exactly one data source for this set, the new empty builder and the range is appended |
| `VersionedRoutes.VersionedRouteBuilder.From` | RouteVersioning/VersionedRouteBuilder.cs:21-24 | an invalid `v` fails as `ValidateRange` says and registers nothing; otherwise exactly one data source is appended after the kept earlier ones, for this set, the returned new empty builder, the open range from v, and no change token yet |
| `VersionedRoutes.VersionedRouteBuilder.Between` | RouteVersioning/VersionedRouteBuilder.cs:29-32 | an invalid `a` or `b` fails as `ValidateRange` says and registers nothing; otherwise exactly one data source is appended after the kept earlier ones, for this set, the returned new empty builder, the inclusive range from a to b, and no change token yet |
| `VersionedRoutes.InternalBuilder.constructor` | RouteVersioning/VersionedRouteBuilder.cs:65-69 | a new range builder has no nested sources |
| `VersionedRoutes.InternalBuilder.AddDataSource` | RouteVersioning/VersionedRouteBuilder.cs:74 | mapping a route appends one nested source |
| `VersionedRoutes.DataSource.constructor` | RouteVersioning/VersionedRouteBuilder.cs:81-88 | the data source records set, builder and range, with no composite yet |
| `VersionedRoutes.DataSource.GetEndpoints` | RouteVersioning/VersionedRouteBuilder.cs:99-147 | the endpoints are the expansion over the set's versions in order, admitted by the range under the set's comparer, each with its version context |
| `VersionedRoutes.DataSource.Endpoints` | RouteVersioning/VersionedRouteBuilder.cs:91-92 | ungrouped, the expansion uses no outer group |
| `VersionedRoutes.DataSource.GetGroupedEndpoints` | RouteVersioning/VersionedRouteBuilder.cs:96-97 | grouped, the expansion uses the group's prefix and conventions |
| `VersionedRoutes.DataSource.GetChangeToken` | RouteVersioning/VersionedRouteBuilder.cs:149-161 | no nested sources give the null token; one gives its token; more give the token of a composite over them, created on the first call and reused afterwards |
| `LegacyRouteContext.LegacyContext` | RouteVersioning/VersionedRouteContext.cs:107-122 | the earlier generation's version context: only the outer prefix is kept, with no group conventions or finally-conventions; `LegacyContextIgnoresGroupConventions` relates it to the current context |
| `LegacyRouteContext.LegacyContextIgnoresGroupConventions` | RouteVersioning/VersionedRouteContext.cs:107-122 | the earlier context equals the current one for a group with only its prefix: group conventions and group finally-conventions are dropped |
| `LegacyRouteContext.LegacyEndpointsDropGroupConventions` | RouteVersioning/VersionedRouteContext.cs:96-138 | a grouped query of the earlier data source lists the same endpoints as the current one would for a group stripped of its conventions |
| `LegacyRouteContext.VersionedRouteContext.constructor` | RouteVersioning/VersionedRouteContext.cs:15 | the context pairs the outer builder with the versions |
| `LegacyRouteContext.VersionedRouteContext.MakeBuilder` | RouteVersioning/VersionedRouteContext.cs:34-58 | same validation, order and parameter names as the current builder; on success exactly one data source is appended |
| `LegacyRouteContext.VersionedRouteContext.From` | RouteVersioning/VersionedRouteContext.cs:21-24 | an invalid `v` fails as `ValidateRange` says and registers nothing; otherwise exactly one data source is appended after the kept earlier ones, for this set, the returned new empty builder, the open range from v, and no change token yet |
| `LegacyRouteContext.VersionedRouteContext.Between` | RouteVersioning/VersionedRouteContext.cs:29-32 | an invalid `a` or `b` fails as `ValidateRange` says and registers nothing; otherwise exactly one data source is appended after the kept earlier ones, for this set, the returned new empty builder, the inclusive range from a to b, and no change token yet |
| `LegacyRouteContext.LegacyBuilder.constructor` | RouteVersioning/VersionedRouteContext.cs:65-69 | a new range builder has no nested sources |
| `LegacyRouteContext.LegacyBuilder.AddDataSource` | RouteVersioning/VersionedRouteContext.cs:74 | mapping a route appends one nested source |
| `LegacyRouteContext.LegacyDataSource.constructor` | RouteVersioning/VersionedRouteContext.cs:81-88 | the data source records versions, builder and range, with no composite yet |
| `LegacyRouteContext.LegacyDataSource.GetEndpoints` | RouteVersioning/VersionedRouteContext.cs:99-138 | the endpoints are the expansion over the versions in range, each with the earlier context |
| `LegacyRouteContext.LegacyDataSource.Endpoints` | RouteVersioning/VersionedRouteContext.cs:91-92 | ungrouped, no outer prefix |
| `LegacyRouteContext.LegacyDataSource.GetGroupedEndpoints` | RouteVersioning/VersionedRouteContext.cs:96-97 | grouped, only the group's prefix is used |
| `LegacyRouteContext.LegacyDataSource.GetChangeToken` | RouteVersioning/VersionedRouteContext.cs:140-152 | the same 0 / 1 / many rule with a memoised composite |
| `LegacyEndpointMapping.RouteTable.constructor` | RouteVersioning/VersionedEndpointRouteBuilder.cs:14 | the route table starts empty |
| `LegacyEndpointMapping.RouteTable.MapMethods` | RouteVersioning/VersionedEndpointRouteBuilder.cs:93 | one registration with the pattern, methods and handler is appended |
| `LegacyEndpointMapping.VersionedEndpointRouteBuilder.constructor` | RouteVersioning/VersionedEndpointRouteBuilder.cs:17-24 | the builder keeps the route table and the versions, which come from an `ISet` and so hold no version twice |
| `LegacyEndpointMapping.LegacyPattern` | RouteVersioning/VersionedEndpointRouteBuilder.cs:92 | the pattern `v{n}/` followed by the route pattern with its leading slashes trimmed; `LegacyPatternInjective` and `LegacyPatternIgnoresLeadingSlashes` state its meaning |
| `LegacyEndpointMapping.LegacyInRange` | RouteVersioning/VersionedEndpointRouteBuilder.cs:86-88 | `shouldMap` of the earlier builder, using the version's own `CompareTo` (the default order) rather than a set's comparer |
| `LegacyEndpointMapping.MapRoutes` | RouteVersioning/VersionedEndpointRouteBuilder.cs:84-95 | one registration per version in range, in the versions' order; `MapRoutesMember` characterises its members and `Map` proves the loop equal to it |
| `LegacyEndpointMapping.VersionedEndpointRouteBuilder.Map` | RouteVersioning/VersionedEndpointRouteBuilder.cs:76-96 | appends, in version order, one registration per version in range under the natural order, and nothing else |
| `LegacyEndpointMapping.MapRoutesMember` | RouteVersioning/VersionedEndpointRouteBuilder.cs:84-95 | a registration is made iff some version is in range and the registration has that version's pattern and the given methods and handler |
| `LegacyEndpointMapping.LegacyPatternInjective` | RouteVersioning/VersionedEndpointRouteBuilder.cs:92 | the patterns `v{n}/...` of two different versions differ |
| `LegacyEndpointMapping.LegacyPatternIgnoresLeadingSlashes` | RouteVersioning/VersionedEndpointRouteBuilder.cs:92 | leading slashes of the route pattern are stripped, so `/a` and `a` register the same route |
| `LegacyEndpointMapping.VersionedEndpointRouteBuilder.MapVerb` | RouteVersioning/VersionedEndpointRouteBuilder.cs:28-61 | `MapGet`/`MapPost`/`MapPut`/`MapDelete`/`MapPatch` from a version map the open range with exactly that one HTTP method |
| `LegacyEndpointMapping.VersionedEndpointRouteBuilder.MapVerbRange` | RouteVersioning/VersionedEndpointRouteBuilder.cs:31-64 | the tuple overloads map the inclusive range with exactly that one HTTP method |
| `LegacyEndpointMapping.VersionedEndpointRouteBuilder.MapMethodsFrom` | RouteVersioning/VersionedEndpointRouteBuilder.cs:68-69 | `MapMethods` from a version maps the open range with the given methods |
| `LegacyEndpointMapping.VersionedEndpointRouteBuilder.MapMethodsRange` | RouteVersioning/VersionedEndpointRouteBuilder.cs:71-72 | the tuple `MapMethods` maps the inclusive range with the given methods |
| `Sunsets.SunsetAt` | RouteVersioning/RouteVersioningExtensions.cs:27-38 | `Sunset(at)` records one sunset with no link and no media type, and one endpoint filter for it |
| `Sunsets.UriLink` | RouteVersioning/RouteVersioningExtensions.cs:63 | a null link stores no link function; a link stores a function returning it for every request |
| `Sunsets.SunsetWithUri` | RouteVersioning/RouteVersioningExtensions.cs:53-66 | `Sunset(at, link, mediaType)` records one sunset with that link function and media type, and one endpoint filter for it |
| `Sunsets.SunsetWithLinkFunction` | RouteVersioning/RouteVersioningExtensions.cs:81-99 | `Sunset(at, linkFunction, mediaType)` files one sunset feature holding exactly the arguments and appends one filter convention for it; finally-conventions are untouched and the same builder is returned |
| `Sunsets.SunsetRecorded` | RouteVersioning/RouteVersioningExtensions.cs:96-98 | after a sunset call the version's sunset features gain exactly that feature and other kinds are unchanged |
| `Sunsets.AppendHeader` | RouteVersioning/Sunset/SunsetEndpointFilter.cs:32 | appending a header value keeps earlier values of that header and every other header |
| `Sunsets.HttpResponse.constructor` | RouteVersioning/Sunset/SunsetEndpointFilter.cs:26 | a response holds the given headers |
| `Sunsets.SunsetHeaders` | RouteVersioning/Sunset/SunsetEndpointFilter.cs:28-36 | the headers after the filter: `Sunset` replaced by the instant's "r" form, then the link, if any, appended to `Link`; `SunsetHeaderRoundTrip`, `LinkHeaderRule` and `OtherHeadersUntouched` state its meaning |
| `Sunsets.InvokeAsync` | RouteVersioning/Sunset/SunsetEndpointFilter.cs:23-39 | the inner handler runs first and its result is returned unchanged; the headers become the handler's headers with the sunset headers applied |
| `Sunsets.LinkHeaderValue` | RouteVersioning/Sunset/SunsetEndpointFilter.cs:32-35 | `<uri>; rel="sunset"`, followed by `; type="mt"` when a media type is set; `LinkHeaderValueInjective` shows the value determines link and media type |
| `Sunsets.AppendLink` | RouteVersioning/Sunset/SunsetEndpointFilter.cs:30-36 | the `Link` value appended is `<uri>; rel="sunset"`, followed by `; type="mt"` when a media type is set |
| `Sunsets.SunsetHeaderRoundTrip` | RouteVersioning.Tests/SunsetTests.cs:53-72 | `Sunset` always holds exactly one value, the sunset instant in "r" form, replacing any earlier value, and it parses back to the same instant |
| `Sunsets.LinkHeaderRule` | RouteVersioning/Sunset/SunsetEndpointFilter.cs:30-35 | a `Link` value is appended after any existing ones iff the link function returns a URI; otherwise `Link` is untouched |
| `Sunsets.NoLinkFunctionNoLink` | RouteVersioning/Sunset/SunsetEndpointFilter.cs:30 | without a link function no `Link` header is added |
| `Sunsets.OtherHeadersUntouched` | RouteVersioning/Sunset/SunsetEndpointFilter.cs:23-39 | headers other than `Sunset` and `Link` are unchanged |
| `Sunsets.LinkParamsInjective` | RouteVersioning/Sunset/SunsetEndpointFilter.cs:32-35 | the link parameters determine whether a media type was given and which |
| `Sunsets.LinkHeaderValueInjective` | RouteVersioning/Sunset/SunsetEndpointFilter.cs:32-35 | for URIs without '>', the `Link` value determines the URI and the media type |
| `HttpDate.DayOfWeek` | RouteVersioning/Sunset/SunsetEndpointFilter.cs:28 | the weekday of a date is one of seven |
| `HttpDate.DayName` | RouteVersioning/Sunset/SunsetEndpointFilter.cs:28 | weekday names are three letters |
| `HttpDate.MonthName` | RouteVersioning/Sunset/SunsetEndpointFilter.cs:28 | month names are three letters |
| `HttpDate.Pad2` | RouteVersioning/Sunset/SunsetEndpointFilter.cs:28 | two-digit fields are two decimal digits |
| `HttpDate.Pad4` | RouteVersioning/Sunset/SunsetEndpointFilter.cs:28 | the year is four characters |
| `HttpDate.Format` | RouteVersioning/Sunset/SunsetEndpointFilter.cs:28 | the "r" form `ddd, dd MMM yyyy HH:mm:ss GMT` is 29 characters |
| `HttpDate.MonthOf` | RouteVersioning.Tests/SunsetTests.cs:70 | a recognised month name is the name of that month |
| `HttpDate.Field2` | RouteVersioning.Tests/SunsetTests.cs:70 | a parsed two-digit field is below 100 |
| `HttpDate.Field4` | RouteVersioning.Tests/SunsetTests.cs:70 | a parsed four-digit field is below 10000 |
| `HttpDate.Parse` | RouteVersioning.Tests/SunsetTests.cs:70 | on the canonical form `Format` writes, whatever `Parse` accepts has a valid date, the right day name, and formats back to the same text |
| `HttpDate.ParseFormat` | RouteVersioning.Tests/SunsetTests.cs:53-72 | every whole-second instant formats and parses back to itself |
| `HttpDate.FormatInjective` | RouteVersioning/Sunset/SunsetEndpointFilter.cs:28 | two instants with the same `Sunset` text are equal |
| `HttpDate.SunsetTestInstant` | RouteVersioning.Tests/SunsetTests.cs:55-71 | the test's instant 2025-06-07 08:09:10 is a Saturday and its `Sunset` text is "Sat, 07 Jun 2025 08:09:10 GMT" |
| `HttpDate.RfcExampleInstant` | RouteVersioning/Sunset/SunsetEndpointFilter.cs:28 | 1994-11-06 08:49:37 is a Sunday and formats as "Sun, 06 Nov 1994 08:49:37 GMT", the example of section 7.1.1.1 of RFC 7231 |
| `Text.NatToString` | RouteVersioning/RouteVersionSetBuilder.cs:13 | a non-negative integer prints as one or more decimal digits |
| `Text.IntToString` | RouteVersioning/RouteVersionSetBuilder.cs:13 | an integer prints as at least one character, starting with a digit iff it is non-negative |
| `Text.ParseIntToString` | RouteVersioning/RouteVersionSetBuilder.cs:13 | the printed form of an integer reads back as that integer |
| `Text.IntToStringInjective` | RouteVersioning/RouteVersionSetBuilder.cs:13 | two integers with the same printed form are equal, so default slugs differ |
| `Text.IndexOfFrom` | RouteVersioning/RouteVersionSetBuilder.cs:69 | the first occurrence at or after a position, or -1 when there is none |
| `Text.IndexOf` | RouteVersioning/RouteVersionSetBuilder.cs:69 | -1 iff the pattern does not occur; otherwise its first occurrence |
| `Text.LastIndexOfBefore` | RouteVersioning/RouteVersionSetBuilder.cs:78 | the last occurrence before a position, or -1 when there is none |
| `Text.LastIndexOf` | RouteVersioning/RouteVersionSetBuilder.cs:78 | -1 iff the pattern does not occur; otherwise its last occurrence |
| `Text.TrimStart` | RouteVersioning/VersionedEndpointRouteBuilder.cs:92 | the longest suffix that does not start with the character; only that character was removed |
| `OpenApiDocuments.OpenApiDocument.constructor` | RouteVersioning.OpenApi/Transformers/ExcludeInapplicableOperationsTransformer.cs:31 | a document holds its info and its paths, with distinct path keys and distinct operation keys per path |
| `OpenApiDocuments.VersionTags` | RouteVersioning.OpenApi/Transformers/ExcludeInapplicableOperationsTransformer.cs:45 | the version tags of an action; none iff no metadata item is a version tag |
| `OpenApiDocuments.LegacyTags` | RouteVersioning.OpenApi/Transformers/RemoveInapplicableOperationsTransformer.cs:32 | the earlier tags of an action; none iff no metadata item is one |
| `OpenApiDocuments.DocumentActions` | RouteVersioning.OpenApi/Transformers/Helpers.cs:14-23 | the map built over all description groups equals the id-keyed map of all their actions in order |
| `OpenApiDocuments.AddGroupActions` | RouteVersioning.OpenApi/Transformers/Helpers.cs:16-22 | adding one group's actions extends the map exactly as if the group were appended |
| `OpenApiDocuments.ActionsMap` | RouteVersioning.OpenApi/Transformers/Helpers.cs:16-22 | `this[a.Id] = a` over the flattened actions in order; `ActionsMapDomain`, `ActionsMapLast` and `ActionsMapLastWins` state its keys and last-wins values |
| `OpenApiDocuments.ActionsMapDomain` | RouteVersioning.OpenApi/Transformers/Helpers.cs:16-22 | an id is in the map iff some action has it |
| `OpenApiDocuments.ActionsMapLast` | RouteVersioning.OpenApi/Transformers/Helpers.cs:16-22 | the action stored for an id is the last action with that id |
| `OpenApiDocuments.ActionsMapLastWins` | RouteVersioning.OpenApi/Transformers/Helpers.cs:16-22 | the map holds every action id, and on a duplicate id the later action wins |
| `OpenApiDocuments.TryGetAction` | RouteVersioning.OpenApi/Transformers/Helpers.cs:25-36 | finds an action iff the operation has a string "x-aspnetcore-id" annotation present in the map, and then returns the mapped action |
| `OpenApiDocuments.TryGetActionResolves` | RouteVersioning.OpenApi/Transformers/Helpers.cs:14-36 | an operation resolves iff its string id is the id of some action of the description groups, and then to the last such action |
| `OpenApiDocuments.StripEach` | RouteVersioning.OpenApi/Transformers/ExcludeInapplicableOperationsTransformer.cs:36-75 | removing the dropped operations path by path keeps every path, in order; `StripEachWellKeyed` and `PrunedMember` give its meaning |
| `OpenApiDocuments.StripEachWellKeyed` | RouteVersioning.OpenApi/Transformers/ExcludeInapplicableOperationsTransformer.cs:72-75 | removing operations keeps the path keys and their distinctness |
| `OpenApiDocuments.CollectDroppedKeys` | RouteVersioning.OpenApi/Transformers/ExcludeInapplicableOperationsTransformer.cs:38-70 | collects exactly the keys of the operations to remove, in order, or reports the first operation whose check throws |
| `OpenApiDocuments.RemoveDroppedOperations` | RouteVersioning.OpenApi/Transformers/ExcludeInapplicableOperationsTransformer.cs:72-75 | removing the collected keys leaves exactly the operations that are kept, in order |
| `OpenApiDocuments.StripOperations` | RouteVersioning.OpenApi/Transformers/ExcludeInapplicableOperationsTransformer.cs:38-75 | one path's operations are stripped of the removed ones, or the first throwing operation is reported |
| `OpenApiDocuments.RemoveEmptyPaths` | RouteVersioning.OpenApi/Transformers/ExcludeInapplicableOperationsTransformer.cs:77-86 | removing the collected path keys keeps exactly the paths with at least one operation left |
| `OpenApiDocuments.RemovePathKeys` | RouteVersioning.OpenApi/Transformers/ExcludeInapplicableOperationsTransformer.cs:83-86 | removing the collected path keys gives the pruned document, keys still distinct |
| `OpenApiDocuments.PruneOperations` | RouteVersioning.OpenApi/Transformers/ExcludeInapplicableOperationsTransformer.cs:35-86 | if no check throws, the paths become the pruned paths; otherwise the exception of the first throwing operation is returned with the earlier paths already stripped and the rest untouched; info is unchanged |
| `OpenApiDocuments.Pruned` | RouteVersioning.OpenApi/Transformers/ExcludeInapplicableOperationsTransformer.cs:36-86 | the paths after a pass that throws nowhere: each path stripped of its dropped operations, then the empty paths removed; `PrunedMember` and `PrunedIdempotent` state its meaning |
| `OpenApiDocuments.PrunedMember` | RouteVersioning.OpenApi/Transformers/ExcludeInapplicableOperationsTransformer.cs:65-86 | no path is left empty, and an operation survives under a key iff it was there and is not removed |
| `OpenApiDocuments.PrunedIdempotent` | RouteVersioning.OpenApi/Transformers/ExcludeInapplicableOperationsTransformer.cs:36-86 | pruning twice with the same rule gives the same paths as pruning once |
| `Transformers.TagMatches` | RouteVersioning.OpenApi/Transformers/ExcludeInapplicableOperationsTransformer.cs:54-57 | a version tag matches when it belongs to the document's set (by identity) and `IsVersion` of the document's version; `InapplicableVerdictMeaning` uses it |
| `Transformers.InapplicableVerdict` | RouteVersioning.OpenApi/Transformers/ExcludeInapplicableOperationsTransformer.cs:41-69 | the inclusion check never throws |
| `Transformers.InapplicableVerdictMeaning` | RouteVersioning.OpenApi/Transformers/ExcludeInapplicableOperationsTransformer.cs:41-63 | an operation is kept iff its action does not resolve, or it has no version tag and unversioned endpoints are included, or some tag has the same set and `IsVersion` of the target version |
| `Transformers.ExcludeInapplicableTransform` | RouteVersioning.OpenApi/Transformers/ExcludeInapplicableOperationsTransformer.cs:31-89 | the document's paths become the pruned paths under the inclusion check; info is unchanged |
| `Transformers.ExcludeInapplicableSurvivors` | RouteVersioning.OpenApi/Transformers/ExcludeInapplicableOperationsTransformer.cs:41-86 | an operation survives under a key iff it was there and is applicable to the target version |
| `Transformers.ExcludeInapplicableKeepsUndescribed` | RouteVersioning.OpenApi/Transformers/ExcludeInapplicableOperationsTransformer.cs:41 | an operation whose action does not resolve is never removed |
| `Transformers.ExcludeInapplicableIdempotent` | RouteVersioning.OpenApi/Transformers/ExcludeInapplicableOperationsTransformer.cs:36-86 | running the transformer twice gives the same paths as running it once |
| `Transformers.VersionedVerdict` | RouteVersioning.OpenApi/Transformers/ExcludeVersionedOperationsTransformer.cs:27-33 | the check never throws |
| `Transformers.ExcludeVersionedTransform` | RouteVersioning.OpenApi/Transformers/ExcludeVersionedOperationsTransformer.cs:17-53 | the paths become the paths pruned of operations that resolve to a tagged action; info is unchanged |
| `Transformers.ExcludeVersionedSurvivors` | RouteVersioning.OpenApi/Transformers/ExcludeVersionedOperationsTransformer.cs:22-50 | an operation survives iff it was there and does not resolve to an action with a version tag of any set; no path is left empty |
| `Transformers.ExcludeVersionedLeavesNone` | RouteVersioning.OpenApi/Transformers/ExcludeVersionedOperationsTransformer.cs:27-33 | afterwards no operation resolves to a tagged action |
| `Transformers.ExcludeVersionedIdempotent` | RouteVersioning.OpenApi/Transformers/ExcludeVersionedOperationsTransformer.cs:22-50 | a second run changes nothing |
| `Transformers.SunsetMark` | RouteVersioning.OpenApi/Transformers/MarkSunsettedOperationsTransformer.cs:26-34 | the check fails only with the "more than one element" exception of `SingleOrDefault` |
| `Transformers.MarkOp` | RouteVersioning.OpenApi/Transformers/MarkSunsettedOperationsTransformer.cs:26-34 | an operation is set deprecated when `SunsetMark` says so and is otherwise unchanged; `MarkPathsShape` states its meaning |
| `Transformers.MarkOps` | RouteVersioning.OpenApi/Transformers/MarkSunsettedOperationsTransformer.cs:24-35 | marks each of a path's operations independently; `MarkPathsShape` states what the marks mean |
| `Transformers.MarkPaths` | RouteVersioning.OpenApi/Transformers/MarkSunsettedOperationsTransformer.cs:22-36 | marks every path's operations; `MarkPathsShape` states that keys and counts are kept and which operations become deprecated |
| `Transformers.MarkPathsShape` | RouteVersioning.OpenApi/Transformers/MarkSunsettedOperationsTransformer.cs:26-34 | an operation ends deprecated iff it was, or its action resolves with exactly one version tag holding exactly one sunset feature; keys, ids and counts are unchanged |
| `Transformers.MarkOperations` | RouteVersioning.OpenApi/Transformers/MarkSunsettedOperationsTransformer.cs:24-35 | marks every operation of a path, or stops at the first throwing one with the earlier ones already marked |
| `Transformers.MarkSunsettedTransform` | RouteVersioning.OpenApi/Transformers/MarkSunsettedOperationsTransformer.cs:18-39 | if no check throws the paths become the marked paths; otherwise the exception is returned with the paths marked up to the throwing operation; info is unchanged |
| `Transformers.MarkPathsIdempotent` | RouteVersioning.OpenApi/Transformers/MarkSunsettedOperationsTransformer.cs:26-34 | marking twice equals marking once, and marking does not change whether a run throws |
| `Transformers.VersionedInfo` | RouteVersioning.OpenApi/Transformers/DocumentInfoTransformer.cs:22-23 | the info is reused or created, and its version becomes the plain slug of the metadata's version |
| `Transformers.RunInfoDelegates` | RouteVersioning.OpenApi/Transformers/DocumentInfoTransformer.cs:26-29 | the info configurators of the version run in order over the info; `RunInfoDelegatesAppend`, `DocumentInfoWithoutDelegates` and `LastInfoDelegateWins` state its meaning |
| `Transformers.DocumentInfoTransform` | RouteVersioning.OpenApi/Transformers/DocumentInfoTransformer.cs:19-32 | the info becomes the versioned info with the version's info configurators applied in registration order; paths are untouched |
| `Transformers.DocumentInfoWithoutDelegates` | RouteVersioning.OpenApi/Transformers/DocumentInfoTransformer.cs:22-29 | without configurators the version is the slug and title and description are kept |
| `Transformers.LastInfoDelegateWins` | RouteVersioning.OpenApi/Transformers/DocumentInfoTransformer.cs:26-29 | the configurator added last runs last, after the version is set, so it can override it |
| `LegacyTransformer.ActionsById` | RouteVersioning.OpenApi/Transformers/RemoveInapplicableOperationsTransformer.cs:15-18 | succeeds iff action ids are distinct, with the id-keyed map; otherwise a duplicate-key error naming the first repeated id |
| `LegacyTransformer.ActionsByIdLookup` | RouteVersioning.OpenApi/Transformers/RemoveInapplicableOperationsTransformer.cs:15-18 | with distinct ids every action is found under its own id, and only ids of actions are present |
| `LegacyTransformer.LegacyVerdict` | RouteVersioning.OpenApi/Transformers/RemoveInapplicableOperationsTransformer.cs:28-34 | the check throws only the "more than one element" exception |
| `LegacyTransformer.LegacyKeepsUnversioned` | RouteVersioning.OpenApi/Transformers/RemoveInapplicableOperationsTransformer.cs:28-34 | unresolved and untagged operations are always kept |
| `LegacyTransformer.RemoveInapplicableTransform` | RouteVersioning.OpenApi/Transformers/RemoveInapplicableOperationsTransformer.cs:13-57 | duplicate action ids fail before any change; otherwise the paths are pruned, or the first throwing operation's exception is returned with earlier paths stripped |
| `LegacyTransformer.RemoveInapplicableSurvivors` | RouteVersioning.OpenApi/Transformers/RemoveInapplicableOperationsTransformer.cs:26-54 | an operation is removed iff its action resolves with exactly one tag whose comparer says its version differs |
| `LegacyTransformer.RemoveInapplicableIdempotent` | RouteVersioning.OpenApi/Transformers/RemoveInapplicableOperationsTransformer.cs:22-54 | running it twice gives the same paths as once |
| `OpenApiRegistration.OpenApiOptions.constructor` | RouteVersioning.OpenApi/RouteVersioningOpenApiExtensions.cs:42 | options start with no document transformers |
| `OpenApiRegistration.OpenApiOptions.AddDocumentTransformer` | RouteVersioning.OpenApi/RouteVersioningOpenApiExtensions.cs:44-49 | one transformer is appended |
| `OpenApiRegistration.ExcludeVersionedOperations` | RouteVersioning.OpenApi/RouteVersioningOpenApiExtensions.cs:92-95 | appends exactly the exclude-versioned transformer and returns the same options |
| `OpenApiRegistration.MarkSunsettedOperations` | RouteVersioning.OpenApi/RouteVersioningOpenApiExtensions.cs:100-103 | appends exactly the mark-sunsetted transformer and returns the same options |
| `OpenApiRegistration.ConfigureOpenApiOptions` | RouteVersioning.OpenApi/RouteVersioningOpenApiExtensions.cs:67-74 | appends one options-configurator feature and leaves the conventions untouched |
| `OpenApiRegistration.ConfigureOpenApiInfo` | RouteVersioning.OpenApi/RouteVersioningOpenApiExtensions.cs:80-87 | appends one info-configurator feature and leaves the conventions untouched |
| `OpenApiRegistration.ConfigureDelegateRecorded` | RouteVersioning.OpenApi/RouteVersioningOpenApiExtensions.cs:67-87 | a configurator appears last among the features of its own kind and changes no other kind |
| `OpenApiRegistration.OptionsDelegates` | RouteVersioning.OpenApi/RouteVersioningOpenApiExtensions.cs:51-54 | the transformers the version's options configurators add, configurator by configurator; `OptionsDelegatesAppend` and `OneMoreOptionsDelegate` state how it grows |
| `OpenApiRegistration.RunOptionsDelegates` | RouteVersioning.OpenApi/RouteVersioningOpenApiExtensions.cs:51-54 | the version's options configurators run in order |
| `OpenApiRegistration.DocumentPipeline` | RouteVersioning.OpenApi/RouteVersioningOpenApiExtensions.cs:44-56 | a version document's transformers: info, exclude-inapplicable, mark-sunsetted, the version's configurators, then the global `configure`; `PipelineOrder` states the order |
| `OpenApiRegistration.ConfigureOptions` | RouteVersioning.OpenApi/RouteVersioningOpenApiExtensions.cs:42-57 | a document's options gain exactly its pipeline |
| `OpenApiRegistration.PipelineOrder` | RouteVersioning.OpenApi/RouteVersioningOpenApiExtensions.cs:44-56 | the pipeline is info, exclude-inapplicable (with the include flag), mark-sunsetted, the version's options configurators in order, then the global `configure` |
| `OpenApiRegistration.OneMoreOptionsDelegate` | RouteVersioning.OpenApi/RouteVersioningOpenApiExtensions.cs:51-54 | one more options configurator on a version adds its effect at the end of that version's configurators |
| `OpenApiRegistration.ServiceCollection.constructor` | RouteVersioning.OpenApi/RouteVersioningOpenApiExtensions.cs:30-31 | the service collection starts with no documents |
| `OpenApiRegistration.ServiceCollection.AddOpenApi` | RouteVersioning.OpenApi/RouteVersioningOpenApiExtensions.cs:42 | one named document registration is appended |
| `OpenApiRegistration.Registrations` | RouteVersioning.OpenApi/RouteVersioningOpenApiExtensions.cs:38-57 | one document per version, in order, named by the version's named slug, with that version's pipeline |
| `OpenApiRegistration.AddVersionedOpenApi` | RouteVersioning.OpenApi/RouteVersioningOpenApiExtensions.cs:30-60 | the services gain exactly one registration per version of the set, in set order |
| `OpenApiRegistration.AddVersionedOpenApiDefault` | RouteVersioning.OpenApi/RouteVersioningOpenApiExtensions.cs:30-35 | by default unversioned endpoints are included and there is no global `configure` |
| `OpenApiRegistration.RegistrationsDistinct` | RouteVersioning.OpenApi/RouteVersioningOpenApiExtensions.cs:38-44 | with an injective slug the document names are distinct, and each document's info transformer is for its own version |
| `OpenApiRegistration.DocumentVersionIsPlainSlug` | RouteVersioning.OpenApi/Transformers/DocumentInfoTransformer.cs:23 | a document's info version is the plain slug, even when its name is the named slug |

## Left out

- ASP.NET Core routing internals are abstract. `RoutePatternFactory.Parse` splits a path on
  '/' into its non-empty literal segments (no parameters, constraints or catch-alls), and
  `Combine` concatenates segments. A nested data source is a
  function from a group context to endpoints, plus a change token. Service providers and
  application builders are not modelled.
- Endpoint conventions, endpoint filters, options configurators and info configurators are
  identified by numbers; the model records which of them run and in what order, not what they
  do to an endpoint. Endpoint metadata only records the attached version metadata.
- `VersionSets.RouteVersionSet.GetNamedSlug`: `RouteVersioning/RouteVersionSet.cs` as shown
  has no `name` field, yet `RouteVersionSetBuilder.cs:105` passes one and the OpenAPI
  extension calls `GetNamedSlug`; the named-slug rule follows the tests at
  `RouteVersioning.Tests/RouteVersionSetTests.cs:119-150`.
- `VersionMetadata.RouteVersionMetadata.IsVersion` uses `Comparer<T>.Default`, as
  `IRouteVersionMetadata.cs:33` does for typed metadata, and not the set's configured
  comparer that the documentation suggests.
- Enumeration order of a built set is registration order: the model relies on
  `Dictionary<T, …>` keeping insertion order when nothing is removed.
- Versions are `int` only; other value types a set could be instantiated with are not
  modelled. `$"{v}"` is the invariant decimal form of the integer.
- `SetBuilders.FormatPatternInjective` and the rest of the slug-pattern model treat
  `String.Format` as replacing the single `{0}`: other format items, escaped braces and
  format specifiers in a pattern are not modelled.
- `Text.IndexOf` and `Text.LastIndexOf` are ordinal; .NET's `string.IndexOf(string)` is
  culture-sensitive, which can differ for patterns with ignorable characters.
- `MetadataBuilders.RouteVersionMetadataBuilder.Build` copies the builder's lists into the
  metadata value. .NET hands its convention lists and feature lists over by reference, so a
  change made later through a builder the application kept would show in the built metadata;
  that aliasing is not modelled.
- `WithFeature<F>` files a feature under the static type argument `F`; the model files it
  under the kind of the feature value, which agrees for every call the core makes.
- Header names are compared exactly; ASP.NET Core header dictionaries are case-insensitive.
- `HttpDate` models whole-second instants from year 1 to 9999; sub-second ticks are not
  modelled.
- `HttpDate.Parse` accepts only the canonical form `Format` writes; any other spelling the
  runtime's "r" parser also accepts is not modelled.
- `async`/`await` in the endpoint filter is modelled as the sequential steps it performs.
- Concurrent calls to `GetChangeToken` (the `??=` memo is not thread-safe) are not modelled.
  The composite data source is a snapshot of the nested sources when it is created.
- `ExcludeInapplicableOperationsTransformer` searches the version tags with `foreach` and an
  early `break`; the model states the result as "some tag matches", which is what the loop
  computes.
- `OpenApiRegistration.ConfigureOptions`: the options callback of `AddOpenApi` is applied
  when it is registered, and an options configurator can only append document transformers
  (a function from its number to the transformers it adds); running the registered
  transformers over a real document is not modelled.
- `Transformers.ExcludeInapplicableTransform` states the pruned result only, because its
  check never throws; the failure path shared with the other transformers is stated by
  `OpenApiDocuments.PruneOperations`.
- `RouteVersioning/Extensions.cs` and `RouteVersioning.OpenApi/Extensions.cs` are earlier
  wiring (`RouteVersionBuilder`, `RouteVersions`) that the modelled earlier files use; they
  are not part of this model. The earlier `VersionedRouteContext` is modelled over a built
  version set, which offers the `Contains`, `GetMetadata`, `GetSlug` and `Compare` it calls.
- `RouteVersioning/RouteVersionBuilder.cs` and `RouteVersioning/RouteVersions.cs` (the
  earlier version-list builder) are not part of this model: they only store fields, and
  `RouteVersionBuilder.Build` calls a two-argument `RouteVersions` constructor that
  `RouteVersions.cs` does not declare.
- The sample applications and the test infrastructure are not part of this model; the tests
  are used only as evidence for the named-slug and date round-trip rules.
