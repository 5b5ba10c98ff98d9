# API-versioning samples: version documentation builder

The repository holds three ASP.NET sample services that version their API
(by URL segment, by query string, and a minimal-API variant) and publish one
OpenAPI document per API version. Almost all of it is configuration of the
versioning and documentation libraries. This project models the samples' own
logic:

- **The version-description builder** (`CreateInfoForApiVersion`). It appears
  twice, in `MinimalApiVersioningSample/Program.cs` and in
  `RouteVersioningSample/Swagger/ConfigureSwaggerGenOptions.cs`. It turns an
  API version description (version string, deprecation flag, optional sunset
  policy with an optional date and an ordered list of links) into an OpenAPI
  info record. The record has a fixed title, the version string and a
  description. The builder creates the description by appending text in place:
  - the base sentence;
  - a deprecation sentence when the version is deprecated;
  - a sunset sentence when the policy has a date;
  - a newline when the policy has links;
  - an HTML list of the `text/html` links, with a header written once through
    a `rendered` flag.

  Module `VersionInfo` gives the whole text as a pure function `Describe` and
  proves the builder's promises about it. In each copy, the builder is an
  imperative method with the source's loop and flag, proved to return
  `CreateInfo`, the info record built from `Describe`. Ghost counters show that
  the header and the closing tag are appended at most once, and only when
  there is an html link.
- **The deprecation transformers.** `ApiVersionDeprecatedTransformer` (minimal
  API) and `SwaggerDefaultValues` (query string) each set
  `operation.Deprecated |= description.IsDeprecated()`. In the model they are
  methods of the classes `ApiVersionDeprecatedTransformer` and
  `SwaggerDefaultValues`. Each takes the `OpenApiOperation` and may write only
  its `deprecated` field. The rule they apply (`Deprecation.Deprecate`) comes with its
  idempotence and monotonicity lemmas. The minimal API's inline transformer,
  which deprecates the version-1 `ping` operation, is modelled too.
- **Document lookup** (`DocumentInfoDocumentTransformer.TransformAsync`). It
  replaces a document's info with the info of the first description whose
  group name is the document's name. If no description matches, the document
  is left unchanged.
- **Swagger document registration** (`ConfigureSwaggerGenOptions.Configure`).
  It registers one document per description, in the provider's order, named
  by the description's group name.

Inputs that the libraries compute are parameters of the model:
- the version's string form and the group name;
- `IsDeprecated` and `IsDeprecated()`;
- the date already rendered as the culture's short date string;
- the platform newline, which is `Lf` or `CrLf`;
- the list of descriptions from the provider.

`HasLinks` is taken to mean that the link list is not empty.

When the policy has links but none of them is html, the description ends in a
bare newline, because `AppendLine` runs whenever `HasLinks` holds. See
`LinksSectionWithoutHtml`.

## Model

| member | source | states |
|---|---|---|
| `ApiVersioning.Newline.Text` | MinimalApiVersioningSample/Program.cs:148 | the line terminator appended before the links is non-empty and starts with `\n` or `\r`, so no sentence can begin there |
| `VersionInfo.HtmlLinks` | MinimalApiVersioningSample/Program.cs:151-155 | the links selected for rendering are all `text/html` and no more than the input links |
| `VersionInfo.HtmlLinksMembers` | MinimalApiVersioningSample/Program.cs:151-155 | a link is selected exactly when it is in the list and its media type is exactly `text/html` |
| `VersionInfo.NoHtmlLinksIff` | MinimalApiVersioningSample/Program.cs:155-174 | nothing is rendered exactly when no link of the list is html |
| `VersionInfo.HtmlLinksAppend` | MinimalApiVersioningSample/Program.cs:151-155 | selection keeps list order: selecting from a concatenation gives the selections of the two parts, concatenated |
| `VersionInfo.RenderLinksAppend` | MinimalApiVersioningSample/Program.cs:163-167 | the items of concatenated link lists are the items of the parts, concatenated |
| `VersionInfo.RenderedItemsInOrder` | MinimalApiVersioningSample/Program.cs:151-168 | the rendered items of a list split in two are those of the first part followed by those of the second, so html links appear in list order |
| `VersionInfo.RenderedItemsSnoc` | MinimalApiVersioningSample/Program.cs:151-168 | one more link at the end adds its own item if it is html and nothing otherwise |
| `VersionInfo.LinksStep` | MinimalApiVersioningSample/Program.cs:151-168 | one loop step: an html link adds its item after the earlier ones and makes the selection non-empty; any other link changes nothing |
| `VersionInfo.SingleLinkItem` | MinimalApiVersioningSample/Program.cs:155-167 | an html link renders as `<li><a href="target">label</a></li>`. The label is the title, or the target when the title is missing or empty. Any other link renders nothing |
| `VersionInfo.ItemAppended` | MinimalApiVersioningSample/Program.cs:163-167 | the five appends of a list item append that link's item |
| `ApiVersioning.SunsetPolicy.HasLinks` | MinimalApiVersioningSample/Program.cs:146 | definition: the policy has links when its link list is not empty (the assumed meaning of the library's `HasLinks`) |
| `VersionInfo.IsHtml` | MinimalApiVersioningSample/Program.cs:155 | definition: a link is rendered when its media type is exactly `text/html` |
| `VersionInfo.Label` | MinimalApiVersioningSample/Program.cs:166 | definition: a link's label is its title, or its target when the title is missing or empty |
| `VersionInfo.RenderLink` | MinimalApiVersioningSample/Program.cs:163-167 | definition: one list item, `<li><a href="` target `">` label `</a></li>` |
| `VersionInfo.RenderLinks` | MinimalApiVersioningSample/Program.cs:151-168 | definition: the list items of the given links, one after the other in list order |
| `VersionInfo.HasHtmlLink` | MinimalApiVersioningSample/Program.cs:137-174 | definition: a sunset policy exists and at least one of its links is html |
| `VersionInfo.DeprecationText` | MinimalApiVersioningSample/Program.cs:132-135 | definition: the deprecation sentence for a deprecated version, and nothing otherwise |
| `VersionInfo.SunsetText` | MinimalApiVersioningSample/Program.cs:137-144 | definition: " The API will be sunset on ", the date and a full stop when a policy with a date exists, and nothing otherwise |
| `VersionInfo.Sentences` | MinimalApiVersioningSample/Program.cs:124-144 | definition: the base sentence, then the deprecation text, then the sunset text |
| `VersionInfo.LinksBlock` | MinimalApiVersioningSample/Program.cs:149-174 | definition: the header, the items of the html links and `</ul>`, or nothing when no link is html |
| `VersionInfo.LinksText` | MinimalApiVersioningSample/Program.cs:146-175 | definition: the newline followed by the links block when the policy has links, and nothing otherwise |
| `VersionInfo.Describe` | MinimalApiVersioningSample/Program.cs:122-180 | definition: the whole description text, the sentences followed by the links text; both builders are proved to return it |
| `VersionInfo.CreateInfo` | MinimalApiVersioningSample/Program.cs:126-130 | the info record's title is always "Route Versioning Web API" and its version is the version's string form |
| `VersionInfo.DescribeStartsWithBase` | MinimalApiVersioningSample/Program.cs:124 | the description always begins with the base sentence |
| `VersionInfo.DeprecationSentenceIff` | MinimalApiVersioningSample/Program.cs:132-135 | the deprecation sentence directly follows the base sentence if and only if the version is deprecated |
| `VersionInfo.SunsetSentenceIff` | MinimalApiVersioningSample/Program.cs:137-144 | after the base and deprecation sentences, " The API will be sunset on " follows exactly when a policy with a date exists, and the date and a full stop come next |
| `VersionInfo.LinksSectionWithoutHtml` | MinimalApiVersioningSample/Program.cs:146-174 | with no html link, the description is the sentences alone when there are no links, and the sentences plus just the newline when there are links |
| `VersionInfo.LinksSectionWithHtml` | MinimalApiVersioningSample/Program.cs:146-174 | with an html link, the sentences are followed by the newline, the header, the items of exactly the html links in list order, and the closing tag |
| `VersionInfo.EndsWithListCloseIff` | MinimalApiVersioningSample/Program.cs:171-174 | the description ends with `</ul>` if and only if the policy has an html link |
| `VersionInfo.HtmlLinksInsertNonHtml` | MinimalApiVersioningSample/Program.cs:155 | inserting a non-html link anywhere leaves the selection unchanged |
| `VersionInfo.NonHtmlLinkIgnored` | RouteVersioningSample/Swagger/ConfigureSwaggerGenOptions.cs:45-67 | a non-html link inserted anywhere into a non-empty link list leaves the description unchanged |
| `VersionInfo.SampleVersionOneDescription` | RouteVersioningSample/Program.cs:14-18 | the sample's version 1 is deprecated (`HasDeprecatedApiVersion(new ApiVersion(1))` at RouteVersioningSample/Program.cs:38), has a sunset date of 2024-12-31 and one html link titled "Version Policies". Its description is the base, deprecation and sunset sentences, then the newline, the header, that one link's item and `</ul>` |
| `Deprecation.Deprecate` | QueryStringVersioningSample/Swagger/SwaggerDefaultValues.cs:12 | definition: the new flag is the old flag OR the version's deprecation (the same `\|=` rule as at MinimalApiVersioningSample/Program.cs:102) |
| `Deprecation.DeprecateIdempotent` | QueryStringVersioningSample/Swagger/SwaggerDefaultValues.cs:12 | applying the OR a second time gives the same flag as applying it once |
| `Deprecation.DeprecateMonotone` | QueryStringVersioningSample/Swagger/SwaggerDefaultValues.cs:12 | a flag that is set stays set, and a deprecated description always sets it |
| `Deprecation.DeprecateKeepsFlag` | MinimalApiVersioningSample/Program.cs:102 | a description that is not deprecated leaves the flag as it was |
| `MinimalApiSample.FirstMatchFrom` | MinimalApiVersioningSample/Program.cs:111-112 | the index found is the first one from the start position whose group name is the document's name; none is found only when no description from there matches |
| `MinimalApiSample.FirstWithGroupName` | MinimalApiVersioningSample/Program.cs:111-112 | the result is a matching description with no earlier match; there is no result only when no description matches |
| `MinimalApiSample.ApiVersionDeprecatedTransformer.TransformAsync` | MinimalApiVersioningSample/Program.cs:100-104 | the operation's flag becomes its old value OR the description's deprecation; a set flag stays set; no other field changes |
| `MinimalApiSample.DeprecatePingOperation` | MinimalApiVersioningSample/Program.cs:71-76 | the ping operation is marked deprecated, and nothing else about it changes |
| `MinimalApiSample.DocumentInfoDocumentTransformer.constructor` | MinimalApiVersioningSample/Program.cs:107 | definition: the transformer keeps the provider's descriptions (and the platform newline) it is made with |
| `MinimalApiSample.DocumentInfoDocumentTransformer.TransformAsync` | MinimalApiVersioningSample/Program.cs:109-120 | the document's info becomes the info of the first description whose group name matches; if none matches, the document is unchanged |
| `MinimalApiSample.DocumentInfoDocumentTransformer.CreateInfoForApiVersion` | MinimalApiVersioningSample/Program.cs:122-180 | the info built step by step is `CreateInfo` of the description. The header and `</ul>` are each appended at most once, and equally often. They are appended once exactly when the policy has an html link |
| `MinimalApiSample.DocumentInfoDocumentTransformer.AppendLinks` | MinimalApiVersioningSample/Program.cs:146-175 | the loop with the `rendered` flag appends exactly the links block. The header and the closing tag are each appended once when some link is html, and never otherwise |
| `RouteVersioningSample.SwaggerGenOptions.SwaggerDoc` | RouteVersioningSample/Swagger/ConfigureSwaggerGenOptions.cs:17 | registering a document adds it, under its name, after those already registered |
| `RouteVersioningSample.DocsFor` | RouteVersioningSample/Swagger/ConfigureSwaggerGenOptions.cs:14-18 | there is exactly one document per description, at the description's position, named by its group name and carrying its info record |
| `RouteVersioningSample.DocsForNamesDistinct` | RouteVersioningSample/Swagger/ConfigureSwaggerGenOptions.cs:14-18 | the registered names are pairwise distinct if and only if the descriptions' group names are |
| `RouteVersioningSample.ConfigureSwaggerGenOptions.constructor` | RouteVersioningSample/Swagger/ConfigureSwaggerGenOptions.cs:10 | definition: the options configurer keeps the provider's descriptions (and the platform newline) it is made with |
| `RouteVersioningSample.ConfigureSwaggerGenOptions.Configure` | RouteVersioningSample/Swagger/ConfigureSwaggerGenOptions.cs:12-19 | the options gain exactly one document per provider description, in provider order, and nothing else changes. This is one Swagger document per description only when the group names are distinct (`DocsForNamesDistinct`) |
| `RouteVersioningSample.ConfigureSwaggerGenOptions.CreateInfoForApiVersion` | RouteVersioningSample/Swagger/ConfigureSwaggerGenOptions.cs:21-79 | this copy also returns `CreateInfo` of the description. Its header and `</ul>` are each appended once exactly when an html link exists, and never otherwise |
| `RouteVersioningSample.ConfigureSwaggerGenOptions.AppendLinks` | RouteVersioningSample/Swagger/ConfigureSwaggerGenOptions.cs:45-74 | this copy's loop appends exactly the links block, with the header and the closing tag each appended at most once |
| `QueryStringVersioningSample.SwaggerDefaultValues.Apply` | QueryStringVersioningSample/Swagger/SwaggerDefaultValues.cs:9-13 | the flag becomes its old value OR the description's deprecation; a set flag stays set; a non-deprecated description leaves it unchanged; no other field changes |
| `QueryStringVersioningSample.SwaggerDefaultValues.ApplyTwice` | QueryStringVersioningSample/Swagger/SwaggerDefaultValues.cs:12 | running the filter twice leaves the flag as one run does |

## Left out

- Host bootstrap and pipeline set-up are framework configuration, so they are not modelled. This covers the web application builder, dependency injection, HTTPS redirection, `MapOpenApi`, `UseSwagger`, the Swagger UI endpoint loops and `app.Run()`. It also covers the `AddOpenApi` loop over "v1" and "v2" (MinimalApiVersioningSample/Program.cs:9-96, and both other `Program.cs` files).
- Version resolution and endpoint selection are left out because they happen inside the versioning library, which is not part of this model. This covers the URL-segment and query-string readers, the default version and mapping endpoints to versions.
- The endpoint files (`Endpoints/PingEndpoints.cs` in two samples) are left out. They only register handlers that return a constant success result.
- The short date string (`ToShortDateString`) depends on the culture, so the model takes it as an input string.
- The platform newline (`AppendLine`) is limited to `\n` and `\r\n`; any other line terminator is not modelled.
- `HasLinks` of the library's sunset policy is assumed to mean "the link list is not empty". The library's own definition is not part of this model.
- `IsDeprecated()` of an API description, the version's `ToString()` and the group name are computed by the library and enter the model as given values.
- The `Task` and `CancellationToken` plumbing of the transformers is left out: the transformers are synchronous methods.
- `StringBuilder` is modelled as a `string` value that is extended by concatenation, not as a shared mutable buffer.
- `CreateInfoForApiVersion` (both copies): the body of the source's `if (policy.HasLinks)` block, with its loop and `rendered` flag, is a separate method `AppendLinks`, so that its loop carries its own invariants. The steps and their order are unchanged.
- `RouteVersioningSample.SwaggerGenOptions.SwaggerDoc`: Swashbuckle keeps documents in a dictionary keyed by name, and that code is not part of this model. The model keeps an ordered list of registrations, so duplicate group names are not rejected. `Configure`'s promise of one document per description therefore describes the program only when `GroupNamesDistinct(descriptions)` holds; `DocsForNamesDistinct` states that this is exactly when the registered names are distinct.
- A link's media type is a plain string. A missing type is the empty string, which, like any other non-html type, is never rendered.
- Only the `deprecated` field of an operation is written. The operation's other fields (id, summary, description) are there so that the frames can show they stay unchanged. All other OpenAPI document content is not modelled.
- QueryStringVersioningSample/Swagger/ConfigureSwaggerGenOptions.cs, which the query-string sample's `Program.cs` registers, is not part of this model.
