# WMPR portal feed — a Dafny model

The WMPR plugin for Jira Service Desk shows a short, per-project list of
"WMPR" requests on the customer portal. Two server components make it up:

- **`WMPRRequestsRestResource`** (`GET /recent?projectKey=…`). It resolves the
  project's configured JQL query from the plugin settings store, or the
  default `project = WMPR ORDER BY created DESC`. It parses that query, and
  parses the default once more if the first is invalid. It runs the search
  on the window offset 0 / limit 10 and maps every issue into a
  `ServiceDeskRequest`, skipping entries that fail. The reply is JSON with a
  `diagnostics` block, an explicit `Content-Length`, a 30-second cache and
  fixed CORS and proxy headers. The replies are 401 with no user, 400 when
  both queries are invalid, and 500 when a call throws.
- **`WmprSettingsServlet`**. The GET side renders the settings page: a radio
  choice between the default and a custom query, a textarea, and a success
  banner after a save. It first guards on a blank key (400), a missing user
  (401) and an unknown project (404). The POST side writes the two settings
  keys `wmpr.settings.<KEY>.useCustom` and `wmpr.settings.<KEY>.jql` and
  redirects back with `saved=true`.
- **`ServiceDeskRequest`** is the six-field record that is returned, with its
  `toString`.

## Project layout

| file | module | contents |
|---|---|---|
| `wrappers.dfy` | `Wrappers` | `Option` |
| `java_strings.dfy` | `JavaStrings` | Java `null` strings, `trim()`, blankness, decimal rendering, UTF-8 length |
| `jira.dfy` | `Jira` | the user, exceptions, and a call that returns or throws |
| `plugin_settings.dfy` | `PluginSettings` | the untyped settings store, its keys, the `(String)` cast, the flag decoding, and the mutable `SettingsStore` |
| `service_desk_request.dfy` | `ServiceDeskRequests` | the `ServiceDeskRequest` class and its rendered form |
| `requests_resource.dfy` | `RequestsResource` | query resolution, issue mapping, response construction, `getRecentWMPRRequests` |
| `settings_servlet.dfy` | `SettingsServlet` | `doGet`, the form choices, `doPost` |
| `settings_round_trip.dfy` | `SettingsRoundTrip` | how the page, the save and the feed agree |

Modelling choices:

- **Java values.**
  - A Java `String` that may be `null` is `Option<string>`. String
    concatenation renders `null` as `"null"`.
  - `trim()` removes leading and trailing characters `<= ' '`, and "blank"
    means every character is such a one.
- **The settings store** holds values of any type: a `Boolean`, a `String`,
  or something else.
  - Readers get a snapshot of it. `None` stands for a store that cannot be
    read (the factory or `createGlobalSettings` throws).
  - `doPost` writes through the `SettingsStore` class. A null store stands for
    an unavailable factory.
- **Host services.** The services the resource calls are parameters of a
  `Host` value: the logged-in user, `parseQuery` reduced to `isValid()`,
  `search`, and the Gson serialiser.
  - The handler also returns the trace of `parseQuery` and `search` calls it
    made.
  - Clock readings are inputs: the start time in milliseconds, the end time,
    and the rendered date.
- **Issues** come back from the search with a `fault` tag saying whether
  reading them throws, and where.
  - An exception from a field accessor skips the entry.
  - An exception from `getKey()` escapes the loop and yields a 500. The skip
    handler calls `getKey()` again for its log line
    (`WMPRRequestsRestResource.java:123-124`), so it throws once more.
- **`diagnostics.resultCount` is the number of issues found.** It is set
  from `issues.size()` (line 131), so entries that were skipped are still
  counted. `ResultCountCountsSkipped` states the consequence: it equals the
  number of records in `data` exactly when no entry was skipped.

## Model

| member | source | states |
|---|---|---|
| JavaStrings.TrimStart | backend/src/main/java/com/example/wmpr/rest/WMPRRequestsRestResource.java:160 | the result is a suffix of the input that starts with a non-trimmable character, and everything removed is trimmable |
| JavaStrings.TrimEnd | backend/src/main/java/com/example/wmpr/rest/WMPRRequestsRestResource.java:160 | the result is a prefix of the input that ends with a non-trimmable character, and everything removed is trimmable |
| JavaStrings.Trim | backend/src/main/java/com/example/wmpr/rest/WMPRRequestsRestResource.java:160 | `trim()`: the result is the slice of the input that starts after the leading trimmable characters, everything cut on either side is `<= ' '`, and a non-empty result starts and ends with a character above `' '` |
| JavaStrings.BlankIffTrimEmpty | backend/src/main/java/com/example/wmpr/rest/WMPRRequestsRestResource.java:160 | `s.trim().isEmpty()` holds exactly when every character of `s` is `<= ' '` |
| JavaStrings.TrimIdempotent | backend/src/main/java/com/example/wmpr/servlet/WmprSettingsServlet.java:300-301 | trimming twice is trimming once, and a non-empty trimmed text is not blank, so a stored `customJql.trim()` passes the reader's blankness test |
| JavaStrings.DecimalString | backend/src/main/java/com/example/wmpr/rest/WMPRRequestsRestResource.java:64 | the decimal rendering of a number is non-empty and all digits, and is one digit exactly for numbers below 10 |
| JavaStrings.DecimalStringInjective | backend/src/main/java/com/example/wmpr/rest/WMPRRequestsRestResource.java:209 | different numbers render differently |
| JavaStrings.Utf8Length | backend/src/main/java/com/example/wmpr/rest/WMPRRequestsRestResource.java:195-196 | `getBytes().length`: between one and four bytes per character |
| JavaStrings.Utf8LengthIsCharCountIffAscii | backend/src/main/java/com/example/wmpr/rest/WMPRRequestsRestResource.java:195-196 | the byte length equals the character count exactly when the text is ASCII |
| PluginSettings.CastToString | backend/src/main/java/com/example/wmpr/rest/WMPRRequestsRestResource.java:166 | the `(String)` cast yields the stored text itself exactly for a stored String, and null exactly for a missing entry; any other type fails |
| PluginSettings.DecodeUseCustom | backend/src/main/java/com/example/wmpr/rest/WMPRRequestsRestResource.java:167-175 | the flag is on exactly when it is stored as the Boolean `true` or the String `"true"` |
| PluginSettings.KeysDistinct | backend/src/main/java/com/example/wmpr/rest/WMPRRequestsRestResource.java:166-167 | no project's `.jql` key is any project's `.useCustom` key |
| PluginSettings.JqlKeyInjective | backend/src/main/java/com/example/wmpr/servlet/WmprSettingsServlet.java:301-303 | a `.jql` key belongs to exactly one project |
| PluginSettings.UseCustomKeyInjective | backend/src/main/java/com/example/wmpr/servlet/WmprSettingsServlet.java:298 | a `.useCustom` key belongs to exactly one project |
| PluginSettings.DefaultJqlNotBlank | backend/src/main/java/com/example/wmpr/rest/WMPRRequestsRestResource.java:35 | the default query is not blank |
| PluginSettings.SettingsStore.Put | backend/src/main/java/com/example/wmpr/servlet/WmprSettingsServlet.java:298-304 | `settings.put(key, value)` sets that key and leaves every other key as it was |
| ServiceDeskRequests.ServiceDeskRequest.constructor | backend/src/main/java/com/example/wmpr/model/ServiceDeskRequest.java:14-21 | the six-argument constructor stores each argument in its field |
| ServiceDeskRequests.ServiceDeskRequest.Empty | backend/src/main/java/com/example/wmpr/model/ServiceDeskRequest.java:11-12 | the no-argument constructor leaves all six fields null |
| ServiceDeskRequests.ServiceDeskRequest.SetKey | backend/src/main/java/com/example/wmpr/model/ServiceDeskRequest.java:27-29 | sets `key` and no other field |
| ServiceDeskRequests.ServiceDeskRequest.SetSummary | backend/src/main/java/com/example/wmpr/model/ServiceDeskRequest.java:35-37 | sets `summary` and no other field |
| ServiceDeskRequests.ServiceDeskRequest.SetReporter | backend/src/main/java/com/example/wmpr/model/ServiceDeskRequest.java:43-45 | sets `reporter` and no other field |
| ServiceDeskRequests.ServiceDeskRequest.SetCreated | backend/src/main/java/com/example/wmpr/model/ServiceDeskRequest.java:51-53 | sets `created` and no other field |
| ServiceDeskRequests.ServiceDeskRequest.SetStatus | backend/src/main/java/com/example/wmpr/model/ServiceDeskRequest.java:59-61 | sets `status` and no other field |
| ServiceDeskRequests.ServiceDeskRequest.SetStatusCategory | backend/src/main/java/com/example/wmpr/model/ServiceDeskRequest.java:67-69 | sets `statusCategory` and no other field |
| ServiceDeskRequests.ServiceDeskRequest.ToString | backend/src/main/java/com/example/wmpr/model/ServiceDeskRequest.java:71-81 | `toString()`, written as the source's literal-by-literal concatenation, equals the field-by-field rendering `Render` of the object's current six fields, about which `RenderDeterminesFields` is proved |
| ServiceDeskRequests.RenderDeterminesFields | backend/src/main/java/com/example/wmpr/model/ServiceDeskRequest.java:72-81 | when no field's text contains a quote, equal `toString()` texts mean equal shown field values: the rendering loses nothing |
| RequestsResource.ConfiguredJql | backend/src/main/java/com/example/wmpr/rest/WMPRRequestsRestResource.java:157-188 | the resolved query is never blank. A blank or null key gives the default. The custom text is answered exactly when the key is non-blank, the store is readable, `.jql` holds a non-blank String and the flag is on. Every other case, including an unreadable store or a non-String `.jql`, gives the default |
| RequestsResource.FlagEncodingsResolveAlike | backend/src/main/java/com/example/wmpr/rest/WMPRRequestsRestResource.java:169-175 | a flag stored as the Boolean `true` and one stored as the String `"true"` resolve to the same query |
| RequestsResource.OtherFlagSpellingsSelectDefault | backend/src/main/java/com/example/wmpr/rest/WMPRRequestsRestResource.java:173-175 | a flag String other than `"true"` (for example `"TRUE"`) gives the default query |
| RequestsResource.ToFields | backend/src/main/java/com/example/wmpr/rest/WMPRRequestsRestResource.java:113-120 | key and summary are copied. A missing reporter gives `"Unknown"`, a missing created gives `""`, a missing status gives `"Unknown"`, and a missing status or category gives `"unknown"` as the category |
| RequestsResource.MapAll | backend/src/main/java/com/example/wmpr/rest/WMPRRequestsRestResource.java:109-126 | the mapped list is never longer than the issue list |
| RequestsResource.Kept | backend/src/main/java/com/example/wmpr/rest/WMPRRequestsRestResource.java:109-126 | the kept positions are increasing, each one is a cleanly read issue, and every cleanly read issue is kept |
| RequestsResource.MapAllIsOrderedSubsequence | backend/src/main/java/com/example/wmpr/rest/WMPRRequestsRestResource.java:109-126 | the returned records are exactly the cleanly read issues, in search order, each mapped by `ToFields` |
| RequestsResource.MapAllDropsOnlyFaulty | backend/src/main/java/com/example/wmpr/rest/WMPRRequestsRestResource.java:109-126 | no record is dropped exactly when every issue reads cleanly |
| RequestsResource.FirstKeyFault | backend/src/main/java/com/example/wmpr/rest/WMPRRequestsRestResource.java:110-126 | there is no key fault exactly when no issue's `getKey()` throws; otherwise the result is the exception of the first issue whose `getKey()` throws, with none before it |
| RequestsResource.FirstKeyFaultAt | backend/src/main/java/com/example/wmpr/rest/WMPRRequestsRestResource.java:110-126 | an issue whose `getKey()` throws, after none that did, supplies the loop's exception |
| RequestsResource.MapIssues | backend/src/main/java/com/example/wmpr/rest/WMPRRequestsRestResource.java:109-126 | the loop ends with the first `getKey()` exception when there is one. Otherwise it completes and yields `MapAll`: the cleanly read issues, mapped in order |
| RequestsResource.RequestIdIsAscii | backend/src/main/java/com/example/wmpr/rest/WMPRRequestsRestResource.java:64 | the request id `"WMPR-" + startTime` is ASCII |
| RequestsResource.RequestIdInjective | backend/src/main/java/com/example/wmpr/rest/WMPRRequestsRestResource.java:63-64 | requests started at different milliseconds get different ids |
| RequestsResource.OptimizedResponse | backend/src/main/java/com/example/wmpr/rest/WMPRRequestsRestResource.java:193-221 | the response carries the given status and entity, a `Content-Length` equal to the entity's byte length, `Cache-Control` with `max-age` 30 and its `no-cache` flag off, and `Access-Control-Allow-Origin: *` |
| RequestsResource.ErrorBodyIsAscii | backend/src/main/java/com/example/wmpr/rest/WMPRRequestsRestResource.java:77-95 | a hand-written error body built from an ASCII message and id is ASCII |
| RequestsResource.ErrorBodyLengthIsCharCount | backend/src/main/java/com/example/wmpr/rest/WMPRRequestsRestResource.java:75-97 | the hand-written 401 and 400 bodies are ASCII, so their `Content-Length` is their character count |
| RequestsResource.CreateDiagnostics | backend/src/main/java/com/example/wmpr/rest/WMPRRequestsRestResource.java:223-233 | the diagnostics carry the request id, the rendered date, the user's name, the executed query, the given count, the elapsed milliseconds and the version `1.0.0-optimized` |
| RequestsResource.Failure | backend/src/main/java/com/example/wmpr/rest/WMPRRequestsRestResource.java:139-150 | the 500 body carries the request id, the exception's type name, the elapsed milliseconds and the text `Failed to fetch WMPR requests: ` followed by the exception's message |
| RequestsResource.HandleRequest | backend/src/main/java/com/example/wmpr/rest/WMPRRequestsRestResource.java:62-152 | the body and the engine calls of a request are exactly those of `Handle`, whose properties the following lemmas state |
| RequestsResource.GetRecentRequests | backend/src/main/java/com/example/wmpr/rest/WMPRRequestsRestResource.java:62-152 | the body and calls are those of `Handle`, and every outcome, the error bodies included, is returned through `OptimizedResponse` with the status of its body |
| RequestsResource.EveryBodyCarriesRequestId | backend/src/main/java/com/example/wmpr/rest/WMPRRequestsRestResource.java:64-150 | the 401, 400, 500 and 200 bodies all carry `"WMPR-" + startTime` |
| RequestsResource.UnauthorizedIffNoUser | backend/src/main/java/com/example/wmpr/rest/WMPRRequestsRestResource.java:72-79 | 401 exactly when no user is logged in, and then nothing is parsed or searched |
| RequestsResource.CallSequences | backend/src/main/java/com/example/wmpr/rest/WMPRRequestsRestResource.java:82-104 | the calls are one of five sequences: none without a user; one parse that threw; a valid parse of the resolved query and its search; that parse invalid and the default parse not valid; or the default parsed valid and searched |
| RequestsResource.ParsesResolvedQueryFirst | backend/src/main/java/com/example/wmpr/rest/WMPRRequestsRestResource.java:82-98 | with a user, the first call parses the resolved query and at most three calls are made; a second parse is of the default text and only follows an invalid first |
| RequestsResource.SearchFollowsValidParse | backend/src/main/java/com/example/wmpr/rest/WMPRRequestsRestResource.java:85-104 | a search is always the last call, on offset 0 and limit 10, right after a parse of the same text that came back valid |
| RequestsResource.InvalidQueryIffBothInvalid | backend/src/main/java/com/example/wmpr/rest/WMPRRequestsRestResource.java:85-97 | 400 exactly when the resolved query and the default both parse as invalid, and then the calls are just those two parses |
| RequestsResource.FeedIsMappedSearch | backend/src/main/java/com/example/wmpr/rest/WMPRRequestsRestResource.java:100-137 | a 200 carries `MapAll` of the issues the executed query found (the fallback text after an invalid first), no issue's `getKey()` threw, and the diagnostics name that query and the raw issue count |
| RequestsResource.FailureNamesThrownException | backend/src/main/java/com/example/wmpr/rest/WMPRRequestsRestResource.java:139-150 | a 500 names the exception of the last call into the host: the parse or search that threw, or a `getKey()` that threw while mapping |
| RequestsResource.ResultCountCountsSkipped | backend/src/main/java/com/example/wmpr/rest/WMPRRequestsRestResource.java:105-131 | in a 200 body, `diagnostics.resultCount` is the number of issues the search returned, never below the number of records in `data`, and equal to it exactly when no entry was skipped |
| SettingsServlet.LoadSettingsPage | backend/src/main/java/com/example/wmpr/servlet/WmprSettingsServlet.java:46-112 | the guards apply in order: 400 for a blank key, 401 for no user, 404 for an unknown project, and an error happens only then. A rendered page names the project. When the store is readable and the `.jql` entry is a String or absent, the page shows exactly the stored text (the default when absent), the decoded `useCustom` flag, and the banner exactly for `saved=true`. When the store cannot be read or the entry is not a String, it shows the default query in default mode with no banner |
| SettingsServlet.RenderForm | backend/src/main/java/com/example/wmpr/servlet/WmprSettingsServlet.java:228-254 | exactly one radio is checked, the custom one exactly in custom mode. The textarea holds the current query in custom mode and is empty otherwise. The banner shows exactly when the save succeeded |
| SettingsServlet.SavedJql | backend/src/main/java/com/example/wmpr/servlet/WmprSettingsServlet.java:300-304 | the saved query is the trimmed custom text when custom mode comes with a non-blank text, the default otherwise, and is never blank |
| SettingsServlet.SavedEntries | backend/src/main/java/com/example/wmpr/servlet/WmprSettingsServlet.java:295-304 | after a save, `.useCustom` holds the String `"true"` or `"false"` and `.jql` holds the saved query. Every other key is unchanged, and only these two keys can be added |
| SettingsServlet.SaveSettings | backend/src/main/java/com/example/wmpr/servlet/WmprSettingsServlet.java:272-313 | 400 for a blank key and 401 for no user. 500 when the store is unavailable. An error writes nothing. Otherwise the store becomes `SavedEntries` of the old store, and the redirect goes back to the page with `saved=true` |
| SettingsRoundTrip.PageMatchesFeedQuery | backend/src/main/java/com/example/wmpr/servlet/WmprSettingsServlet.java:71-91 | whenever the page renders, the feed runs the text shown when the page is in custom mode with a non-blank text, and the default otherwise |
| SettingsRoundTrip.SaveThenResolve | backend/src/main/java/com/example/wmpr/servlet/WmprSettingsServlet.java:295-304 | after a save, the feed for that project runs exactly the saved query: the trimmed custom text, or the default |
| SettingsRoundTrip.SaveIsolation | backend/src/main/java/com/example/wmpr/servlet/WmprSettingsServlet.java:298-304 | a save for one project leaves every other project's feed query unchanged |
| SettingsRoundTrip.SavedModeRoundTrip | backend/src/main/java/com/example/wmpr/servlet/WmprSettingsServlet.java:295-298 | the stored `.useCustom` reads back as on exactly when `jqlOption` was `"custom"` |
| SettingsRoundTrip.SaveThenLoad | backend/src/main/java/com/example/wmpr/servlet/WmprSettingsServlet.java:295-307 | after a save and its redirect, the page shows the chosen mode, the saved query and the success banner |

## Left out

- Logging (`System.out` and `System.err` lines, stack traces) is left out as output. Two log lines make calls that matter, and the model treats them differently:
  - the skip handler's log line calls `issue.getKey()` again (`WMPRRequestsRestResource.java:124`). The model keeps this call: it is why a throwing `getKey()` ends in a 500 (`KeyThrows`).
  - the log line at `WMPRRequestsRestResource.java:73` calls `user.getName()`. The model takes the name as a plain value, so a `getName()` that throws, which would end in a 500, is not modelled.
- Velocity rendering, with its fallback to the hand-written page, is left out. `RenderForm` keeps only the parts of `generateProjectSettingsHtml` that carry meaning: the radios, the textarea, the banner and the hidden project key. The markup, the CSS, the title and the cancel link are not modelled byte for byte, and HTML escaping is absent in the source as well.
- `doGet`'s `IOException` path, which sends "Unable to render settings page" when writing the page fails, is left out: writing is not modelled.
- `SettingsServlet.SaveSettings` does not model a `put` failing after the first one succeeded, nor the text of the 500 message ("Error saving settings: " + message). The store is either available or not.
- `RequestsResource.CreateDiagnostics` takes the user's name, the timestamp text and the end time as inputs. `Date.toString()` and the clock are not modelled. The model uses one end reading where the source reads the clock separately for the diagnostics and the 500 body.
- `RequestsResource.GetRecentRequests` treats the Gson serialiser as a parameter. The JSON text of the 200 and 500 bodies is therefore not fixed, and a throwing `user.getName()` inside `createDiagnostics` is not modelled.
- `RequestsResource.OptimizedResponse` states `Content-Length` and `Access-Control-Allow-Origin` as contracts. The other six headers are given only by the header list in its body. The platform charset behind `getBytes()` is taken to be UTF-8.
- `ServiceDeskRequest`'s getters are not separate members: the model reads the class's fields directly, which is what each getter returns.
- The frontend (the React table and settings page, `wmpr-custom.js`, the webpack configuration) and `WMPRRequestsWebPanel` are not part of this model.
