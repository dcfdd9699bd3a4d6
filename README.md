# AzDoBotXplorer agent capability pipeline in Dafny

AzDoBotXplorer reads the build agents of an Azure DevOps agent pool and
reports their capabilities. The reports come as CSV, as JSON, or as an
interactive HTML page. Its core is a pipeline:

- Merge each agent's system and user capabilities into one
  case-insensitive dictionary.
- Filter agents by a `name` or `name=value` capability query.
- Build the column schema: the case-insensitively distinct, sorted union of
  every merged key.
- Render the agents in one of three formats.

The HTML page carries a script with a second implementation of filtering,
schema building and CSV/JSON export. It runs in the browser over the data
attributes of the agent cards.

This project models that pipeline and proves what each step promises. There
is one module per file:

| file | module | models |
|---|---|---|
| `wrappers.dfy` | `Wrappers` | `Option` and `Result` |
| `text.dfy` | `Text` | case folding, ordinal substring search, trimming, lexicographic order, decimal formatting and parsing |
| `sequences.dfy` | `Sequences` | order-preserving filtering and the stable sorts behind `OrderBy` and `Array.prototype.sort` |
| `agent.dfy` | `Agents` | the `Agent` record, the case-insensitive capability dictionary, `GetAllCapabilities`, `IsOnlineAndEnabled` |
| `filter.dfy` | `AgentFilter` | `FilterByCapability`, `FilterByExactCapability`, `GetAllCapabilityKeys` |
| `csv_format.dfy` | `CsvFormat` | quote doubling, CSV fields/records/documents, and a CSV reader used to state round trips |
| `csv_exporter.dfy` | `CsvExport` | `CsvExporter.GenerateCsv` |
| `json_exporter.dfy` | `JsonExport` | the report object serialized by `JsonExporter` |
| `html_exporter.dfy` | `HtmlExport` | the server side of `HtmlExporter`: sort choices, card attributes, capability sections |
| `js_object.dfy` | `JsObjects` | plain script objects with exact-name property lookup |
| `client_view.dfy` | `ClientView` | the page script's card filter, id sort and container rebuild |
| `client_export.dfy` | `ClientExport` | the page script's export dialog, column selection, and JSON and CSV re-exports |
| `export_options.dfy` | `Options` | `ExportOptions` defaults and `GetOutputPath` |
| `exporter_factory.dfy` | `ExporterFactory` | `ExporterFactory.Create`, `SupportedFormats` |
| `devops_service.dfy` | `DevOps` | URL normalization, the pool-id rule and the agent-list fallbacks of `AzureDevOpsService` |

## Modelling choices

Dictionaries:

- A source dictionary from the REST response is a sequence of entries in
  iteration order. Its keys are case-sensitive, so two keys may differ only
  in case.
- The merged dictionary is a `CapabilityMap`: entries in insertion order,
  compared ignoring case. Setting an existing key keeps its first spelling
  and position and replaces only the value, as the dictionary indexer does.

Procedures and functions:

- Procedures that append to a `StringBuilder` or to a script string are
  methods with loops. Examples are `GenerateCsv`, the `Append*` methods of
  the HTML exporter, `GetAllCapabilities` and `exportToCsv`.
- Each such method is proved equal to a function that specifies its
  output. The properties are then proved about that function.
- LINQ pipelines and script expressions are functions.

Text and order:

- Case-insensitive comparison, `ToLower` and `toLowerCase` are ASCII case
  folding.
- The culture-sensitive `OrderBy(k => k)` is lexicographic order on the
  folded text.
- The script's default `sort()` is lexicographic order on the raw
  characters.
- All sorts are stable insertion sorts.

Encoders and cards:

- The HTML and JSON encoders are transparent. A card's data attributes are
  the decoded values the browser reads back.
- A card's `data-capabilities` is the merged dictionary as the script's
  object.
- Cards are identified by their position in the page's original card list.

Filter input: the query `=` is modelled as the code evaluates it, as a
lookup of the empty key. It is not a filter that matches every agent.

## Model

| member | source | states |
|---|---|---|
| Agents.GetAllCapabilities | AzDoBotXplorer/Models/Agent.cs:62-79 | the two loops over system then user entries produce exactly the merged dictionary `Merged(a)` |
| Agents.SetThenLookup | AzDoBotXplorer/Models/Agent.cs:69 | after the indexer set `all[k] = v`, looking up any key equal to `k` ignoring case yields `v`; every other lookup is unchanged |
| Agents.SetThenStoredKey | AzDoBotXplorer/Models/Agent.cs:69 | the indexer set keeps the spelling already stored for a key and stores `k` only for a new key |
| Agents.SetKeepsValid | AzDoBotXplorer/Models/Agent.cs:64-69 | the indexer set keeps keys distinct ignoring case and adds exactly the folded key `k` to the key set |
| Agents.SetAllLookup | AzDoBotXplorer/Models/Agent.cs:66-76 | writing a source into a dictionary makes each lookup the last matching source value, else the previous one |
| Agents.SetAllStoredKey | AzDoBotXplorer/Models/Agent.cs:66-76 | after writing a source, a key's spelling is the earlier stored one, else its first spelling in the source |
| Agents.SetAllKeys | AzDoBotXplorer/Models/Agent.cs:66-76 | writing a source keeps the keys distinct ignoring case; the key set grows by exactly the source's folded keys |
| Agents.MergedLookup | AzDoBotXplorer/Models/Agent.cs:64-78 | a merged lookup gives the last user value for the key in any casing, else the last system value, else nothing |
| Agents.UserCapabilityWins | AzDoBotXplorer/Models/Agent.cs:72-76 | a user key (the last of its casing in the user source) reads back its user value, even when the system has the same key |
| Agents.SystemOnlyCapability | AzDoBotXplorer/Models/Agent.cs:66-70 | a system key absent from the user source in every casing reads back its system value |
| Agents.MergedOfNothing | AzDoBotXplorer/Models/Agent.cs:64-78 | an agent with both sources null merges to an empty dictionary |
| Agents.MergedLookupIgnoresCase | AzDoBotXplorer/Models/Agent.cs:64 | two keys equal ignoring case give the same merged lookup |
| Agents.MergedKeys | AzDoBotXplorer/Models/Agent.cs:64-78 | the merged keys are distinct ignoring case and are exactly the case-insensitive union of system and user keys |
| Agents.MergedSpelling | AzDoBotXplorer/Models/Agent.cs:66-76 | the merged dictionary spells a key as the system source first did, else as the user source first did |
| AgentFilter.SplitFirst | AzDoBotXplorer/Services/AgentFilterService.cs:29 | `Split('=', 2)`: either no separator occurs, or the text is prefix, separator, rest, and the prefix has no separator |
| AgentFilter.ParseFilterSplit | AzDoBotXplorer/Services/AgentFilterService.cs:29-31 | a filter with its first `=` at `i` parses to the trimmed text before it and the trimmed text after it; that text may contain `=` |
| AgentFilter.ParseFilterNameOnly | AzDoBotXplorer/Services/AgentFilterService.cs:29-31 | a filter without `=` is a trimmed name with no value |
| AgentFilter.FilterByCapability | AzDoBotXplorer/Services/AgentFilterService.cs:22-48 | a null or blank filter returns the list unchanged; otherwise the result is an order-preserving subsequence that keeps every copy of each matching agent and no other agent |
| AgentFilter.NameOnlyMatch | AzDoBotXplorer/Services/AgentFilterService.cs:37-42 | a name-only query matches iff some system or user key contains the name ignoring case; an agent without capabilities never matches |
| AgentFilter.NameValueMatch | AzDoBotXplorer/Services/AgentFilterService.cs:44-46 | `name=value` matches iff the merged value for the name exists and contains the value ignoring case; `name=` matches iff the key exists |
| AgentFilter.EqualsSignFilter | AzDoBotXplorer/Services/AgentFilterService.cs:29-46 | the filter `=` keeps exactly the agents with a capability whose key is the empty text |
| AgentFilter.FilterByCapabilityIdempotent | AzDoBotXplorer/Services/AgentFilterService.cs:33-47 | filtering twice with the same filter equals filtering once |
| AgentFilter.FilterByExactCapability | AzDoBotXplorer/Services/AgentFilterService.cs:57-68 | an order-preserving subsequence that keeps every copy of each agent whose merged value for the key equals the value ignoring case, and no other agent |
| AgentFilter.CapabilityKeysSorted | AzDoBotXplorer/Services/AgentFilterService.cs:77-81 | the schema is strictly ascending and no two of its keys are equal ignoring case |
| AgentFilter.CapabilityKeysCover | AzDoBotXplorer/Services/AgentFilterService.cs:77-81 | every merged key of every agent has a match in the schema, ignoring case |
| AgentFilter.CapabilityKeysSound | AzDoBotXplorer/Services/AgentFilterService.cs:77-81 | every schema key is a merged key of some agent |
| Sequences.FilterCount | AzDoBotXplorer/Services/AgentFilterService.cs:33-47 | `Where` keeps every copy of an element that satisfies the predicate and no copy of any other |
| Sequences.SortByTextCorrect | AzDoBotXplorer/Services/AgentFilterService.cs:80 | the stable sort returns a sorted permutation of its input |
| CsvFormat.UnescapeEscape | AzDoBotXplorer/Exporters/CsvExporter.cs:65-66 | undoubling the quotes of an escaped value recovers the value |
| CsvFormat.EscapeLength | AzDoBotXplorer/Exporters/CsvExporter.cs:65-66 | escaping lengthens a value by its number of quote characters |
| CsvFormat.EscapeNoQuotes | AzDoBotXplorer/Exporters/CsvExporter.cs:65-66 | a value without quotes is left unchanged |
| CsvFormat.FieldRoundTrip | AzDoBotXplorer/Exporters/CsvExporter.cs:35-54 | a quoted field, or a bare field without separators, reads back as its text |
| CsvFormat.RecordRoundTrip | AzDoBotXplorer/Exporters/CsvExporter.cs:44-56 | a record of readable fields followed by a newline reads back as its texts, and reading stops right after it |
| CsvFormat.DocumentRoundTrip | AzDoBotXplorer/Exporters/CsvExporter.cs:31-57 | a document of readable records reads back as the texts of every record |
| CsvExport.GenerateCsv | AzDoBotXplorer/Exporters/CsvExporter.cs:24-60 | the appended text is the rendering of the header record over the schema and then one record per agent, in input order |
| CsvExport.AppendAgentRow | AzDoBotXplorer/Exporters/CsvExporter.cs:40-57 | one loop iteration appends exactly the agent's record and a newline |
| CsvExport.AppendFixedFields | AzDoBotXplorer/Exporters/CsvExporter.cs:44-49 | appends the six fixed fields; id, status and enabled flag are bare, name, version and OS quoted, a null written as empty |
| CsvExport.AppendCells | AzDoBotXplorer/Exporters/CsvExporter.cs:51-55 | appends one quoted cell per schema key, in schema order, to the fixed fields |
| CsvExport.CsvFieldCounts | AzDoBotXplorer/Exporters/CsvExporter.cs:31-57 | every record has the six fixed fields plus exactly one field per schema key |
| CsvExport.CellValueSources | AzDoBotXplorer/Exporters/CsvExporter.cs:42-53 | a cell holds the user value for the key in any casing, else the system value, else empty text |
| CsvExport.CsvRecordsReadable | AzDoBotXplorer/Exporters/CsvExporter.cs:31-57 | with plain statuses, every record reads back: the header as the fixed columns plus the schema, each row as its fields' texts |
| CsvExport.CsvReadsBack | AzDoBotXplorer/Exporters/CsvExporter.cs:24-60 | with plain statuses, the CSV reads back as one header plus one row per agent in order, each with the expected texts |
| JsonExport.BuildReport | AzDoBotXplorer/Exporters/JsonExporter.cs:16-33 | the count equals the number of agents; the pool name is the options'; entry `i` is agent `i`'s projection |
| JsonExport.EntryConsistent | AzDoBotXplorer/Exporters/JsonExporter.cs:23-31 | the scalar fields are copied unchanged; merging the two emitted source dictionaries gives the emitted merged view |
| JsonExport.EntrySources | AzDoBotXplorer/Exporters/JsonExporter.cs:29-30 | a null source dictionary is emitted as an empty one, otherwise as it is |
| JsonExport.ReportLookups | AzDoBotXplorer/Exporters/JsonExporter.cs:29-31 | within each emitted entry, the merged view answers every lookup by the user value, else the system value |
| HtmlExport.AppendFilterControls | AzDoBotXplorer/Exporters/HtmlExporter.cs:166-177 | the sort choices are the five fixed ones, then `cap:<key>` for each of the first fifty schema keys in order |
| HtmlExport.AppendAgentCards | AzDoBotXplorer/Exporters/HtmlExporter.cs:199-224 | one card per agent in input order, each with the agent's attributes and status class |
| HtmlExport.AppendAgentCard | AzDoBotXplorer/Exporters/HtmlExporter.cs:205-211 | one loop iteration computes the card attributes and the status class of its agent |
| HtmlExport.CardAttributes | AzDoBotXplorer/Exporters/HtmlExporter.cs:206-211 | the id parses back to the agent's id; a null name/version/OS becomes empty; status is `online` iff the agent is online in any casing; enabled is `true` iff the flag is true |
| HtmlExport.CardCapabilities | AzDoBotXplorer/Exporters/HtmlExporter.cs:205-211 | the card's capabilities answer lookups as the merge does and have no two keys equal ignoring case |
| HtmlExport.StatusClassMeaning | AzDoBotXplorer/Exporters/HtmlExporter.cs:208-209 | the class starts `status-online` iff the status is `online`, ends ` status-disabled` iff not enabled, and is plain `status-online` iff the agent is online and enabled |
| HtmlExport.AppendCapabilitySections | AzDoBotXplorer/Exporters/HtmlExporter.cs:258-289 | the system section, then the user section, each emitted as specified by `SectionOf` |
| HtmlExport.AppendSection | AzDoBotXplorer/Exporters/HtmlExporter.cs:264-272 | a section lists its dictionary's entries in key order and shows its size |
| HtmlExport.SectionOfMeaning | AzDoBotXplorer/Exporters/HtmlExporter.cs:262-286 | a section exists iff its dictionary is non-null and non-empty; it shows the size and lists a sorted permutation of the entries |
| JsObjects.GetPut | AzDoBotXplorer/Exporters/HtmlExporter.cs:561 | after `obj[k] = v`, reading `k` gives `v` and every other property is unchanged |
| JsObjects.GetAgreesWithTryGetValue | AzDoBotXplorer/Exporters/HtmlExporter.cs:372-373 | in the card's object, a key present under its exact spelling reads the same as the case-insensitive lookup |
| JsObjects.GetStoredKey | AzDoBotXplorer/Exporters/HtmlExporter.cs:372 | reading a stored key by its exact spelling finds its entry |
| ClientView.InitialView | AzDoBotXplorer/Exporters/HtmlExporter.cs:316-346 | with the controls as the page opens, a card is visible iff its agent is online and enabled |
| ClientView.StatusChoicesPartition | AzDoBotXplorer/Exporters/HtmlExporter.cs:318-322 | a card visible under "all" is visible under exactly one of "online" and "offline" |
| ClientView.EnabledChoicesPartition | AzDoBotXplorer/Exporters/HtmlExporter.cs:325-329 | a card visible under "all" is visible under exactly one of "enabled" and "disabled" |
| ClientView.NameFilterShowsCard | AzDoBotXplorer/Exporters/HtmlExporter.cs:332-343 | an agent the service's name-only filter keeps passes the page's text box with that name |
| ClientView.ValueFilterShowsCard | AzDoBotXplorer/Exporters/HtmlExporter.cs:332-343 | an agent the service's `name=value` filter keeps passes the page's text box with that value |
| ClientView.CardIdRoundTrip | AzDoBotXplorer/Exporters/HtmlExporter.cs:356-357 | `parseInt` of a card's id gives back the agent's id |
| ClientView.CapSortReadsUndefinedProperty | AzDoBotXplorer/Exporters/HtmlExporter.cs:372-373 | as written, a card whose only key is "undefined" compares that key's value under another key's sort choice; the corrected version compares empty text |
| ClientView.CapSortValueMatchesServer | AzDoBotXplorer/Exporters/HtmlExporter.cs:368-373 | the corrected capability sort value equals the service's merged lookup for the key, or empty text |
| ClientView.ApplyFiltersAndSort | AzDoBotXplorer/Exporters/HtmlExporter.cs:308-397 | by id: the container is the sorted visible cards followed by the hidden cards, and the counter is the number of visible cards |
| ClientView.LayoutIsPermutation | AzDoBotXplorer/Exporters/HtmlExporter.cs:381-392 | the rebuilt container holds every original card exactly once |
| ClientView.SortedVisibleFacts | AzDoBotXplorer/Exporters/HtmlExporter.cs:316-358 | the visible cards are exactly the cards passing the filter, sorted by numeric id in the chosen direction |
| ClientView.LayoutVisibleFirst | AzDoBotXplorer/Exporters/HtmlExporter.cs:381-396 | the first `visibleCount` container positions are the visible cards and the rest the hidden ones |
| ClientView.LayoutSortedById | AzDoBotXplorer/Exporters/HtmlExporter.cs:355-358 | among visible cards, ids are non-decreasing when ascending and non-increasing when descending |
| ClientView.HiddenKeepOrder | AzDoBotXplorer/Exporters/HtmlExporter.cs:382-392 | the hidden cards keep their original page order |
| ClientView.DescendingReversesAscending | AzDoBotXplorer/Exporters/HtmlExporter.cs:355-358 | with distinct ids, the descending order is exactly the reverse of the ascending order |
| ClientExport.VisibleAgentsData | AzDoBotXplorer/Exporters/HtmlExporter.cs:417-428 | one data record per visible card, in container order |
| ClientExport.AgentDataOf | AzDoBotXplorer/Exporters/HtmlExporter.cs:419-427 | a card's record holds the agent's id, name/version/OS (empty for null), lower-cased status, enabled flag and merged capabilities |
| ClientExport.ExportKeysCorrect | AzDoBotXplorer/Exporters/HtmlExporter.cs:443 | the offered keys are strictly ascending, and a key is offered iff some visible agent has it under that exact spelling |
| ClientExport.InitialSelection | AzDoBotXplorer/Exporters/HtmlExporter.cs:453-458 | when the dialog opens, every offered key is selected, in order |
| ClientExport.SelectedMembers | AzDoBotXplorer/Exporters/HtmlExporter.cs:522-524 | the selection is an order-preserving subsequence holding exactly the keys whose box is checked |
| ClientExport.SelectAllMeaning | AzDoBotXplorer/Exporters/HtmlExporter.cs:486-499 | after "Select All", a key is selected iff it was checked or the search leaves its box visible; with an empty search, all keys are |
| ClientExport.SelectNoneSelectsNothing | AzDoBotXplorer/Exporters/HtmlExporter.cs:504-506 | after "Select None" no key is selected |
| ClientExport.SelectCommonMeaning | AzDoBotXplorer/Exporters/HtmlExporter.cs:511-517 | after "Select Common", a key is selected iff its lower-cased text contains one of the eleven patterns |
| ClientExport.CommonExamples | AzDoBotXplorer/Exporters/HtmlExporter.cs:512-515 | `Agent.Version` and `DOTNET` count as common |
| ClientExport.RestrictLookup | AzDoBotXplorer/Exporters/HtmlExporter.cs:557-563 | a restricted object holds a key iff it is selected and the agent has it, with the agent's value |
| ClientExport.ClientJsonReport | AzDoBotXplorer/Exporters/HtmlExporter.cs:553-580 | the count is the number of visible agents; the selection and origin are recorded; each agent is unchanged except its capabilities, which are restricted to the selection |
| ClientExport.EscapeCsvMeaning | AzDoBotXplorer/Exporters/HtmlExporter.cs:617-620 | null escapes to empty text; otherwise escaping matches the service's quote doubling and is undone by undoubling |
| ClientExport.ExportToCsv | AzDoBotXplorer/Exporters/HtmlExporter.cs:585-612 | the built string is the rendering of the header over the selected keys, then one record per visible agent in order |
| ClientExport.AppendClientRow | AzDoBotXplorer/Exporters/HtmlExporter.cs:596-609 | one iteration appends exactly the agent's record and a newline |
| ClientExport.AppendClientFixed | AzDoBotXplorer/Exporters/HtmlExporter.cs:597-602 | appends the six fixed fields: id, status and enabled bare; name, version and OS quoted |
| ClientExport.AppendClientCells | AzDoBotXplorer/Exporters/HtmlExporter.cs:604-607 | appends one quoted cell per selected key, looked up by its exact spelling |
| ClientExport.ClientCsvReadsBack | AzDoBotXplorer/Exporters/HtmlExporter.cs:585-612 | with plain statuses, the CSV reads back as the fixed columns plus the selection, then one row per visible agent with the expected texts |
| ClientExport.ClientCellAgrees | AzDoBotXplorer/Exporters/HtmlExporter.cs:605 | for a key spelled as the merged dictionary spells it, the page's cell equals the service's cell |
| ClientExport.ClientKeysKeepCaseVariants | AzDoBotXplorer/Exporters/HtmlExporter.cs:443 | agents with keys `Foo` and `foo` give the service schema `["Foo"]` but the page offers `["Foo", "foo"]` |
| ClientExport.ClientCellIsCaseSensitive | AzDoBotXplorer/Exporters/HtmlExporter.cs:605 | for an agent with `Foo`, the service's cell for `foo` holds its value but the page's cell is empty |
| ClientExport.ClientFixedFieldsDiffer | AzDoBotXplorer/Exporters/HtmlExporter.cs:599-600 | for status `Online` with a null enabled flag, the service writes `Online` and empty text, the page `online` and `false` |
| Options.GetOutputPath | AzDoBotXplorer/Models/ExportOptions.cs:26-27 | an explicit output file is returned as it is; otherwise `agents-report.` followed by a text that equals the format ignoring case and has no upper-case letter |
| Options.DefaultPathIsLowerCased | AzDoBotXplorer/Models/ExportOptions.cs:26-27 | without an explicit file, the path is exactly `agents-report.` followed by the lower-cased format |
| Options.DefaultOutputPath | AzDoBotXplorer/Models/ExportOptions.cs:11-27 | with the default settings the path is `agents-report.html` |
| Options.OutputPathIgnoresPoolName | AzDoBotXplorer/Models/ExportOptions.cs:26-27 | the path never depends on the pool name |
| Options.OutputPathIgnoresFormatCase | AzDoBotXplorer/Models/ExportOptions.cs:26-27 | formats equal ignoring case give the same default path |
| ExporterFactory.Create | AzDoBotXplorer/Exporters/ExporterFactory.cs:16-25 | an accepted format yields the exporter whose extension is the lower-cased format; any other fails with the message naming the three formats |
| ExporterFactory.CreateSucceedsIff | AzDoBotXplorer/Exporters/ExporterFactory.cs:18-30 | creation succeeds iff the lower-cased format is among the supported formats |
| ExporterFactory.CreateIgnoresCase | AzDoBotXplorer/Exporters/ExporterFactory.cs:18 | formats equal ignoring case give the same outcome and exporter |
| ExporterFactory.CreateFromExtension | AzDoBotXplorer/Exporters/ExporterFactory.cs:18-22 | every exporter is created from its own file extension |
| ExporterFactory.DefaultPathExtension | AzDoBotXplorer/Models/ExportOptions.cs:26-27 | without an output file, the default path ends in the extension of the exporter created for the format |
| DevOps.NormalizeOrganizationUrl | AzDoBotXplorer/Services/AzureDevOpsService.cs:36-48 | trailing `/` are stripped; text naming a service host is kept, anything else is appended to `https://dev.azure.com/` |
| DevOps.NormalizedShape | AzDoBotXplorer/Services/AzureDevOpsService.cs:36-48 | the result always names a service host, and ends without `/` when the trimmed input is non-empty |
| DevOps.NormalizeIdempotent | AzDoBotXplorer/Services/AzureDevOpsService.cs:36-48 | for a non-empty trimmed input, normalizing twice equals normalizing once |
| DevOps.NormalizeEmpty | AzDoBotXplorer/Services/AzureDevOpsService.cs:38-47 | an empty input gives `https://dev.azure.com/`, which normalizes further to `https://dev.azure.com` |
| DevOps.TryParseInt32 | AzDoBotXplorer/Services/AzureDevOpsService.cs:58 | a parse succeeds with the decimal value of the text (surrounding white space allowed) and fails for non-numbers and values outside 32 bits |
| DevOps.TryParseInt32RoundTrip | AzDoBotXplorer/Services/AzureDevOpsService.cs:58 | every 32-bit id's decimal text parses back to it |
| DevOps.GetPoolId | AzDoBotXplorer/Services/AzureDevOpsService.cs:55-74 | a text that parses as an integer is itself the id |
| DevOps.NumericPoolNeedsNoLookup | AzDoBotXplorer/Services/AzureDevOpsService.cs:58-61 | for a numeric text the pool list plays no part |
| DevOps.PoolByName | AzDoBotXplorer/Services/AzureDevOpsService.cs:70-73 | otherwise the id is that of the first pool named like the text ignoring case; it is null iff no pool matches (a null name never matches) |
| DevOps.AgentsOrEmpty | AzDoBotXplorer/Services/AzureDevOpsService.cs:90 | a missing body or a missing list gives no agents, otherwise the list as sent |
| DevOps.OnlineEnabledAgents | AzDoBotXplorer/Services/AzureDevOpsService.cs:98-102 | an order-preserving subsequence that keeps every copy of each online and enabled agent and no other agent |

## Findings

| source | as written | input that shows it | evidently intended | confidence | as-written member | corrected member |
|---|---|---|---|---|---|---|
| AzDoBotXplorer/Exporters/HtmlExporter.cs:372-373 | when no key matches the sort key ignoring case, `find` yields `undefined` and the lookup reads the property named "undefined" | an agent whose only capability is `undefined` = `zzz`, sorted by the choice `cap:Foo`: it is compared as `zzz` | such an agent compares as empty text, like every agent without the key | high; not executed | ClientView.CapSortValueAsWritten (shown by ClientView.CapSortReadsUndefinedProperty) | ClientView.CapSortValue (proved by ClientView.CapSortValueMatchesServer) |

## Left out

- Case folding is ASCII only. .NET `OrdinalIgnoreCase`, `ToLower` and the script's `toLowerCase` also fold non-ASCII letters.
- The culture-sensitive `OrderBy` is modelled as lexicographic order of folded text, not as culture collation.
- The page's `localeCompare` sorts are left out: name, version, OS, status and the `cap:` choices use numeric, accent-insensitive collation. The id sort is modelled; for `cap:` only the compared value is.
- `Environment.NewLine` is `"\n"`.
- `HttpUtility.HtmlEncode`, `HtmlAttributeEncode`, `JsonSerializer` and `JSON.stringify` are transparent. Serialized text, JSON `null` values and indentation are not modelled.
- CsvExport.CsvReadsBack: requires statuses without `,`, `"` or newline, because the service writes the status bare and unescaped. Other statuses break the record.
- ClientExport.ClientCsvReadsBack: requires plain statuses, for the same reason.
- DevOps.TryParseInt32: models optional sign, decimal digits and surrounding white space. Culture-specific number formats and thousands separators are not modelled.
- HTTP calls, authentication, `EnsureSuccessStatusCode`, `Dispose`, file writes and `async` plumbing are not modelled. The fetched pool and agent lists are parameters.
- The report timestamps (`DateTime.UtcNow`, `new Date().toISOString()`) are parameters.
- Static markup, CSS, modal show/hide, `toggleSection`, `escapeHtml`, `downloadFile` and `alert` are browser-only behaviour and are not modelled.
- `executeExport` only dispatches to the two re-exports, which are modelled.
- Program.cs is not part of this model.
- The key order of script objects (integer-like keys first) and properties inherited from the object prototype are not modelled.
- ClientExport.SelectedMembers: assumes no offered key contains `"`. The page writes each key into a `value="…"` attribute through `escapeHtml`, which leaves `"` unescaped, so the browser would cut such a checkbox value at the quote; that key would then be missing from the JSON export, and the CSV export would carry a column named by the cut text with empty cells.
- `parseInt` returning `NaN` is not modelled: every card's id is an integer.
- Source dictionaries are assumed to have no two keys spelled exactly alike, as JSON objects from the service do not.
- ClientView.DescendingReversesAscending: requires distinct card ids. With equal ids, the stable sort keeps page order in both directions.
- Agents.GetAllCapabilities: the result is a fresh value, so the source dictionaries are trivially unchanged. Reference identity and aliasing are not modelled.
- IsOnlineAndEnabled and the `Agent` datatype are definitions only. Their properties are stated by HtmlExport.StatusClassMeaning, ClientView.InitialView and DevOps.OnlineEnabledAgents.
