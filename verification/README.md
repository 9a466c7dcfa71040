# Verification of the OPL framework's self-contained cores

This project models eleven files of the repository in Dafny 4.11 and proves what their callers
rely on. `dafny verify dfyconfig.toml` checks all of it.

| part | modules |
|---|---|
| The Codex config editor, its reader and the bootstrap decision | CodexLexer, CodexForms, CodexReader, CodexPositions, CodexEditor, CodexLines, CodexConfigText, CodexOtherTables, CodexBootstrap, CodexDecisions, CodexRedirects, over JsText, JsonString and JsonForms |
| Canonical JSON (RFC 8785) | Utf16, Utf16Forms, CanonicalJson, CanonicalReading, CanonicalTheorems, CanonicalShape, CanonicalFaults |
| Loader of the workbench for one item | DomainRead, DomainReadRules, Workbench, WorkbenchClicks |
| The file-boundary read | FileKernel, SnapshotRead, FileBoundary, FileRead, FileRules |
| The schema subset validator | SchemaValues, SchemaEquality, SchemaConformance, SchemaKeywords, SchemaErrors, SchemaValidator |
| The bitmap parsers | Bytes, Bitmap, PngWalk, PngInflate, PngRules, Webp, Jpeg, BitmapFields, BitmapFaults |
| Cordis compositions | StableSort, CordisDescriptor, CordisComposition, CordisSnapshot, CordisRules |
| Registry, ledger, evidence and digest cores | AgentRegistry, RegistryNames, ReceiptLedger, OwnerEvidence, EvidenceInventory, EvidenceCounts, SkillDigest, DigestShape |

The main results, and how far they reach:

- **Read-after-write.** The editor works on lines, the specification is a map update on what the
  file's own reader sees. The law holds for every text the reader accepts, if and only if the
  provider id has no bracket (`ReadAfterWriteExactly`, `ReadAfterProviderWriteExactly`); what
  happens with a bracket is proved too.
- **The bootstrap** keeps a foreign selection, and points an existing provider elsewhere exactly
  when the reserved id meets a clash (`KeepsEndpointsExactly`). The bundled profile asks for that
  id, so two such runs are written out.
- **Canonical text** is uniquely readable, so two values have one text exactly when they are equal
  as JSON values.
- **The workbench** is a step system whose responses arrive in any order or never; its invariant
  holds in every state of every run, and the class whose methods do the steps is proved to take
  exactly those steps.
- **The file read** runs against a kernel whose other processes write and rename at every moment.
  A history assigns a world to each instant; time passes by any amount before each call, every
  call may fail, reads may be short. Bytes of a success may each come from a different moment;
  `SnapshotsExactly` says for which writers they are nevertheless one content. That each write
  changes size or time is *not* enough (`EveryWriteShowsIsNotEnough`), as the stat fields may
  return to earlier values; where stamps never return it is, and no less (`StampsTellExactly`).
  The read is complete as well: in a quiet world in which no call fails and `realpath` and the
  platform answer by one book, every file that is readable by that book is returned (`ReadFile`).
- **The validator** is compared with a declarative relation, and terminates exactly as far as
  reference chains end, which they do if and only if no cycle consists of references alone.
- **The parsers** accept exactly the serialisations of chunk, piece and field lists. The inflate
  check never passes more than its budget; a stream of exactly the budget may be refused where
  a payload starts whole chunks away from it, so the cut decides (`CutMattersAtTheBudget`).
- **Cordis.** Built snapshots pass the assertion, rebuild to themselves and do not depend on
  order. Injection keys determine injections under the schema's version pattern, so reordering
  any injections is covered; for events the order given can matter, exactly when two distinct
  events share a sort key (`EventOrderIrrelevantExactly`).

JavaScript strings are sequences of UTF-16 code units, Python strings sequences of characters.
Methods with loops follow the source's loops; each is proved against a function or predicate, and
the lemmas are about that. What those functions compute is in turn stated without them, over lines,
code units, bytes, fields and positions: CodexForms, CodexPositions, CodexLines and CodexDecisions
for the config, CanonicalShape, CanonicalFaults and Utf16Forms for canonical text, DomainReadRules
and WorkbenchClicks for the workbench, FileRules for the file read, SchemaKeywords, SchemaErrors and
SchemaEquality for the validator, PngRules, BitmapFields and BitmapFaults for the parsers, CordisRules,
RegistryNames, EvidenceCounts and DigestShape for the rest.

## Model

| member | source | states |
|---|---|---|
| CodexLexer.StripTomlInlineComment | src/kernel/local-codex-defaults.ts:77-101 | the scanning loop returns the line before the first `#` outside quotes, trimmed, whatever quotes and backslashes precede it |
| CodexLexer.StripIdempotent | src/kernel/local-codex-defaults.ts:77-101 | stripping a stripped line changes nothing, which is why editor and reader may each strip |
| CodexLexer.ParseTomlTablePath | src/kernel/local-codex-defaults.ts:143-180 | the header tokenizer loop finds exactly the path of the declarative tokens, and throws exactly where a part is malformed |
| CodexLexer.TablePathNonEmpty | src/kernel/local-codex-defaults.ts:143-180 | a header never yields the empty path, so the root is only ever the part before the first header |
| CodexLexer.RenderPairRoundTrip | src/kernel/local-codex-defaults.ts:77-129 | for every string value a rendered `key = value` line survives comment stripping, splitting and value parsing unchanged |
| CodexLexer.ProviderHeaderRoundTrip | src/kernel/local-codex-defaults.ts:143-184 | for every bracket-free id the rendered provider header parses back to `["model_providers", id]` |
| CodexForms.ValueReads | src/kernel/local-codex-defaults.ts:103-129 | a value reads as it was meant whoever wrote it: double quotes hold a JSON string, single quotes their text as it is, anything else itself, and space around it does not count |
| CodexForms.CommentIsStripped | src/kernel/local-codex-defaults.ts:77-101 | a comment after a line without an open quote is cut off, whatever is in it |
| CodexForms.HeaderReads | src/kernel/local-codex-defaults.ts:143-180 | a header of bare, double-quoted and single-quoted parts, spaced at will, reads as the list of its parts' texts |
| CodexForms.DoubleBracketsAreNoHeader | src/kernel/local-codex-defaults.ts:143-146 | a line in double brackets is no header |
| CodexForms.PairReads | src/kernel/local-codex-defaults.ts:798-849 | a line of a key, an equals sign, a value in any form, spaces and a trailing comment is seen as that key and value |
| JsonString.UnescapeEscape | src/kernel/local-codex-defaults.ts:214-216 | JSON string escaping is undone by unescaping on every sequence of code units, lone surrogates included |
| JsonString.UnquotedQuoted | src/kernel/local-codex-defaults.ts:103-129 | what `JSON.stringify` writes, `JSON.parse` reads back, with nothing left over |
| JsonForms.LetterReads | src/kernel/local-codex-defaults.ts:103-116 | each of the eight letter escapes of JSON stands for its unit, `\/` included, wherever it occurs (section 7 of RFC 8259) |
| JsonForms.UnicodeReads | src/kernel/local-codex-defaults.ts:103-116 | four hexadecimal digits of either case stand for the unit of that number |
| JsonForms.Refusals | src/kernel/local-codex-defaults.ts:103-116 | an open string, a control character and an unknown escape are refused |
| CodexReader.ReadLocalCodexConfigValues | src/kernel/local-codex-defaults.ts:798-849 | the reader's loop computes the fold of the lines' items and the insertion order of the providers, and fails exactly on texts with a malformed line |
| CodexReader.ReadItemsAppend | src/kernel/local-codex-defaults.ts:805-846 | reading two blocks in a row is reading the second from the section and values the first ends in |
| CodexReader.ItemsOfTrim | src/kernel/local-codex-defaults.ts:445-483 | trimming the whole text changes nothing the reader can see |
| CodexReader.ItemsOfCollapse | src/kernel/local-codex-defaults.ts:483 | collapsing runs of line feeds changes nothing the reader can see |
| CodexReader.ReadItemsOrder | src/kernel/local-codex-defaults.ts:815-846 | the map's insertion order holds exactly the provider ids, without repetition |
| CodexPositions.SectionExactly | src/kernel/local-codex-defaults.ts:810-827 | the section at a line is that of the last header above it, and the root's above the first |
| CodexPositions.LastPairWins | src/kernel/local-codex-defaults.ts:798-849 | over the line numbers of any text: a key's value in a section is that of the last line that gives it one there, repeated tables and duplicate keys included, and without such a line there is none |
| CodexPositions.LastOtherPairWins | src/kernel/local-codex-defaults.ts:798-849 | the same of the tables the reader skips, which both edits leave as they are |
| CodexPositions.ProvidersByFirstPair | src/kernel/local-codex-defaults.ts:838-846 | providers are listed by their first pairs: the ones met in the first lines, each once, begin the final order |
| CodexPositions.LinesExactly | src/kernel/local-codex-defaults.ts:814 | lines end at a line feed with or without a carriage return before it; what follows the last is a line as it is |
| CodexEditor.RemoveRootTomlKeys | src/kernel/local-codex-defaults.ts:423-446 | the loop keeps every line but the root pairs of the given keys, and fails on the texts with a malformed header |
| CodexLines.WithoutRootKeysLines | src/kernel/local-codex-defaults.ts:423-446 | the new lines are the old ones in order, comments and blank lines included; line i is missing if and only if no header stands above it and it is a pair with one of the keys |
| CodexEditor.WithoutRootKeysReads | src/kernel/local-codex-defaults.ts:423-446 | on every text the reader accepts, removing root keys is removing them from the root map, providers untouched |
| CodexEditor.UpsertTomlTableKeys | src/kernel/local-codex-defaults.ts:448-484 | the loop rewrites every copy of the target table in place, or appends the table when there is none |
| CodexLines.UpsertedTextLines | src/kernel/local-codex-defaults.ts:448-484 | likewise: a line is missing if and only if it sets a replaced key in the target table, the new pairs follow each of the table's headers, and the table is appended if and only if no header names it |
| CodexEditor.UpsertedReads | src/kernel/local-codex-defaults.ts:448-484 | on every text the reader accepts, the line edit is a map update: the table's given keys are replaced or removed, all else is unchanged |
| CodexEditor.TableKeptReads | src/kernel/local-codex-defaults.ts:468-479 | the same over the kept lines, for duplicate tables, comments, CRLF and headers of other tables between them |
| CodexConfigText.BuildCodexConfigText | src/kernel/local-codex-defaults.ts:486-518 | the method returns the specified text, and fails exactly where a header of the old text is malformed, on texts the reader rejects for other reasons too |
| CodexConfigText.BuildCodexProviderOnlyConfigText | src/kernel/local-codex-defaults.ts:520-542 | likewise for the edit that leaves the root keys alone |
| CodexLines.ConfigTextShape | src/kernel/local-codex-defaults.ts:486-542 | where root keys, preserved text and provider block stand in the new text, and what separates them |
| CodexLines.RunsAreCollapsed | src/kernel/local-codex-defaults.ts:483 | each run of three or more line feeds becomes two, and shorter runs stay |
| CodexConfigText.ReadAfterWrite | src/kernel/local-codex-defaults.ts:486-518 | read-after-write: only the three root keys and the provider's name, base_url and token change, for every accepted text and bracket-free id |
| CodexConfigText.ReadAfterProviderWrite | src/kernel/local-codex-defaults.ts:520-542 | read-after-write of the provider-only edit: the root map is untouched |
| CodexConfigText.ReadAfterWriteExactly | src/kernel/local-codex-defaults.ts:143-146 | the law holds on all accepted texts if and only if the provider id contains no bracket |
| CodexConfigText.ReadAfterProviderWriteExactly | src/kernel/local-codex-defaults.ts:520-542 | so does the law of the provider-only edit, the one run on a foreign selection |
| CodexConfigText.BracketIdReads | src/kernel/local-codex-defaults.ts:448-484 | with a bracket in the id the block lands behind a header nobody reads, so its pairs go to the root, the provider or the skipped table the text ends in |
| CodexConfigText.BracketIdOverwritesLastProvider | src/kernel/local-codex-defaults.ts:448-484 | in particular the base_url of the last provider in the text is overwritten |
| CodexConfigText.BracketIdBreaksEmptyText | src/kernel/local-codex-defaults.ts:486-518 | a concrete failure: on the empty text the provider's name leaks into the root map |
| CodexConfigText.BracketIdLeaksIntoEmptyText | src/kernel/local-codex-defaults.ts:520-542 | and so it does under the provider-only edit |
| CodexConfigText.BracketHeaderIsNoHeader | src/kernel/local-codex-defaults.ts:143-146 | a rendered header whose id has a bracket is not recognised as a header |
| CodexOtherTables.ProviderWriteKeepsOtherTables | src/kernel/local-codex-defaults.ts:520-542 | every key of every table the reader skips keeps its value under the provider-only edit |
| CodexOtherTables.WriteKeepsOtherTables | src/kernel/local-codex-defaults.ts:486-518 | and under the full edit |
| CodexBootstrap.FreeCandidate | src/kernel/local-codex-defaults.ts:599-604 | the unbounded suffix search ends, with the smallest free suffix from 2 on |
| CodexBootstrap.CandidateInjective | src/kernel/local-codex-defaults.ts:601 | different suffixes give different candidate ids |
| CodexBootstrap.DecimalRoundTrip | src/kernel/local-codex-defaults.ts:601 | a printed suffix reads back as its number |
| CodexBootstrap.SelectInactiveProviderId | src/kernel/local-codex-defaults.ts:568-605 | the selected id is the desired one, the first existing one with the same endpoint, the first legacy alias of the reserved id, or a fresh one, exactly as the providers demand |
| CodexBootstrap.DecideProvider | src/kernel/local-codex-defaults.ts:683-727 | id, name and base URL of the provider to write: the active gateway provider and a selected one keep their names, the reserved entry takes the requested one, and a gateway address is not replaced by another |
| CodexBootstrap.Decide | src/kernel/local-codex-defaults.ts:632-747 | which runs skip and which write; what a write selects for model, effort, key, mode and receipt |
| CodexBootstrap.Bootstrap | src/kernel/local-codex-defaults.ts:632-796 | the whole run: it fails exactly on unreadable configs, leaves the file alone when it skips, and writes the decided text otherwise |
| CodexBootstrap.KeepsForeignSelection | src/kernel/local-codex-defaults.ts:560-796 | a run that does not activate keeps a foreign selection, its model and effort, every other provider and every other table |
| CodexBootstrap.ActivationReadsBack | src/kernel/local-codex-defaults.ts:698-747 | a run that writes the root keys reads back as exactly the configuration decided on |
| CodexBootstrap.OwnWriteIsNoOverride | src/kernel/local-codex-defaults.ts:550-558 | values an automatic run wrote are not taken for a local override by the next run |
| CodexDecisions.ExplicitInputWins | src/kernel/local-codex-defaults.ts:637-641 | for each field explicit input goes before the environment and the environment before the profile; an empty string counts as given |
| CodexDecisions.HandEditsSurvive | src/kernel/local-codex-defaults.ts:550-558 | what a run that writes the root keys reads back as: model and effort as edited by hand, with a receipt that keeps them from then on, or else the first given ones |
| CodexDecisions.KeyReadsBack | src/kernel/local-codex-defaults.ts:650-652 | the key in the written config: the caller's, the environment's or the stored one over an active gateway provider, elsewhere the first given one |
| CodexDecisions.UrlReadsBack | src/kernel/local-codex-defaults.ts:723-727 | the address in the written config: a gateway address that is stored stays, any other becomes the requested one |
| CodexDecisions.NameReadsBack | src/kernel/local-codex-defaults.ts:705-709 | the name in the written config: the stored one, unless there is none or the reserved id is asked for and selected |
| CodexDecisions.SelectionExactly | src/kernel/local-codex-defaults.ts:568-605 | which id a decision may select, stated over the providers of the old config: an entry with the endpoint, or a new id where none has it; the reserved id itself or an alias |
| CodexDecisions.RootIsLeftAloneExactly | src/kernel/local-codex-defaults.ts:697-737 | a run leaves the root keys alone if and only if the config is complete, its provider is no gateway, activation is not asked for and the reserved provider is not the active one |
| CodexDecisions.TrailingSlashesDoNotMatter | src/kernel/local-codex-defaults.ts:204-206 | any number of trailing slashes leaves an address the same endpoint |
| CodexDecisions.GatewayExactly | src/kernel/local-codex-defaults.ts:208-212 | an address without them is the gateway's if and only if it is one of the two spelled out |
| CodexRedirects.KeepsEndpointsExactly | src/kernel/local-codex-defaults.ts:568-727 | a run leaves every existing provider at its endpoint if and only if no clash of the reserved id can be seen beforehand: an entry of that name at another endpoint, or, without one, a legacy alias while no gateway address is asked for |
| CodexRedirects.KeepsNamesExactly | src/kernel/local-codex-defaults.ts:703-709 | and it keeps every provider's name if and only if the reserved id does not meet an entry of that id under another name |
| CodexRedirects.LegacyAliasIsRedirected | src/kernel/local-codex-defaults.ts:576-580 | a concrete clash: under the bundled profile a `gflab` provider at a gateway address is pointed elsewhere when the environment asks for another base URL |
| CodexRedirects.ReservedEntryIsRedirected | src/kernel/local-codex-defaults.ts:574-575 | another: an `oplgateway` provider at its own endpoint is renamed and pointed at the gateway by the bundled profile alone |
| Utf16.AssertUnicodeScalarString | src/kernel/canonical-json.ts:7-22 | the index loop fails exactly on sequences that are no UTF-16 encoding, and reports the length of the longest encoding they start with |
| Utf16.ScanIsEncoding | src/kernel/canonical-json.ts:7-22 | the scan accepts a code-unit sequence if and only if it is the UTF-16 encoding of some sequence of Unicode scalar values (section 3.2.2.2 of RFC 8785) |
| Utf16.FaultAfterLongestEncoding | src/kernel/canonical-json.ts:7-22 | what precedes the reported offset is an encoding, and nothing longer is, as what starts there continues none |
| Utf16Forms.EncodingExactly | src/kernel/canonical-json.ts:7-22 | a sequence is an encoding if and only if each high surrogate is followed by a low one and each low one preceded by a high one |
| Utf16Forms.PairStandsFor | src/kernel/canonical-json.ts:7-22 | a pair stands for 0x10000 and ten bits of each half (section 3.9 of the Unicode Standard) |
| CanonicalJson.CanonicalValueText | src/kernel/canonical-json.ts:24-81 | the recursive printer with its loops returns the specified text or the specified fault |
| CanonicalJson.SlotsText | src/kernel/canonical-json.ts:42-48 | the loop over array slots, with the fault of the first bad one |
| CanonicalJson.PropsText | src/kernel/canonical-json.ts:68-78 | the loop over the sorted keys, with the fault of the first bad one |
| CanonicalReading.ParsePrint | src/kernel/canonical-json.ts:24-81 | unique readability: a parser recovers every JSON value from its printed text, whatever follows it, at any depth |
| CanonicalReading.PrintInjective | src/kernel/canonical-json.ts:24-81 | so printing is injective |
| CanonicalTheorems.AcceptsExactly | src/kernel/canonical-json.ts:24-81 | the printer succeeds exactly on values that are JSON all the way down |
| CanonicalTheorems.TextOfData | src/kernel/canonical-json.ts:24-81 | the text is the plain printing of the value's data with sorted keys |
| CanonicalTheorems.TextReadsBack | src/kernel/canonical-json.ts:83-85 | parsing the canonical text gives back that data |
| CanonicalTheorems.SameTextExactly | src/kernel/canonical-json.ts:24-81 | two values have the same text if and only if they are equal as JSON values, -0 and 0 identified, whatever the key order at any depth (section 3.2.3 of RFC 8785) |
| CanonicalTheorems.InsertionOrderIrrelevant | src/kernel/canonical-json.ts:54-78 | inserting an object's keys in another order changes neither its text nor the fault it is refused with |
| CanonicalShape.TextKeysAscend | src/kernel/canonical-json.ts:54-78 | read back from the canonical text, neighbouring keys at any depth agree up to some position where the first ends or its code unit is the smaller (section 3.2.3 of RFC 8785) |
| CanonicalShape.DataAscends | src/kernel/canonical-json.ts:54-78 | the same of the value's data |
| CanonicalShape.LiteralTexts | src/kernel/canonical-json.ts:24-35 | the texts of null, true, false and -0 |
| CanonicalShape.Punctuation | src/kernel/canonical-json.ts:52-78 | brackets, braces, commas and colons stand where JSON has them, without space |
| CanonicalShape.ShortEscapes | src/kernel/canonical-json.ts:28-31 | the seven short escapes (section 3.2.2.2 of RFC 8785) |
| CanonicalShape.OtherEscapes | src/kernel/canonical-json.ts:28-31 | every other control character is written in lower-case hexadecimal, and every other unit as it is |
| CanonicalFaults.ArrayFaults | src/kernel/canonical-json.ts:37-53 | an array is refused for its symbols, then for its first missing or bad slot, and for named properties last |
| CanonicalFaults.ObjectFaults | src/kernel/canonical-json.ts:54-67 | an object's own faults in the order they are looked for, every key before any value |
| CanonicalFaults.FirstBadProperty | src/kernel/canonical-json.ts:68-78 | among bad properties the one with the smallest key by code units gives the fault, in whatever order they were inserted |
| DomainRead.ParseNodes | src/mcp-app/task-workbench.js:43-47 | the loop over nodes accepts exactly lists of well-formed nodes with distinct ids, and collects those ids |
| DomainRead.ParseEdges | src/mcp-app/task-workbench.js:48-52 | the loop over edges accepts exactly lists of edges with distinct ids that join known nodes |
| DomainRead.ParseResearchSnapshot | src/mcp-app/task-workbench.js:38-54 | a snapshot is accepted if and only if it is valid for the study |
| DomainRead.AcceptDomainRead | src/mcp-app/task-workbench.js:64-82 | acceptance of a response, with the reason of each refusal |
| DomainRead.AcceptedReads | src/mcp-app/task-workbench.js:64-82 | an accepted entry is valid, about the requested view, never older than the one compared with, and equal to it when not modified |
| DomainReadRules.SnapshotExactly | src/mcp-app/task-workbench.js:38-54 | a snapshot is accepted if and only if kind, version, study and revision are the ones spelled out, nodes are complete with distinct ids, and edges are complete with distinct ids and join nodes there are |
| DomainReadRules.AcceptExactly | src/mcp-app/task-workbench.js:64-82 | the first thing that is wrong with a response names the refusal, in order, and a response with nothing wrong is accepted |
| Workbench.StepKeepsInv | src/mcp-app/task-workbench.js:162-197 | every click, refresh, response in any order and disposal keeps the invariant and lets no cached revision fall |
| Workbench.SettleKeepsInv | src/mcp-app/task-workbench.js:168-176 | a response is applied only to the view that asked, against the very entry it was compared with, and touches no other entry |
| Workbench.RunInv | src/mcp-app/task-workbench.js:135-197 | the invariant in every state of every run: busy exactly while a request carries the current ticket, the shown snapshot is the cached one |
| Workbench.RevisionsNeverFall | src/mcp-app/task-workbench.js:162-176 | in every run, between any two moments, no cached view is lost and no cached revision falls |
| Workbench.TicketsNeverFall | src/mcp-app/task-workbench.js:165-184 | a ticket once overtaken stays overtaken |
| Workbench.RequestsAreKept | src/mcp-app/task-workbench.js:165-169 | an outstanding request stays the one that was captured when it was sent |
| Workbench.OnlyTheAskingView | src/mcp-app/task-workbench.js:170-175 | in every run, a response that changes anything belongs to the view now shown and the newest request |
| Workbench.DisposedIsFrozen | src/mcp-app/task-workbench.js:170-197 | after disposal nothing changes but the list of outstanding reads |
| Workbench.BusyAfterViewClickExactly | src/mcp-app/task-workbench.js:162-185 | a click on a view leaves busy exact if and only if the view has a descriptor or nothing was being read |
| Workbench.TaskWorkbench.constructor | src/mcp-app/task-workbench.js:135-196 | mounting, with the initial load when there is a view but no snapshot |
| Workbench.TaskWorkbench.StartLoad | src/mcp-app/task-workbench.js:162-169 | load up to its await |
| Workbench.TaskWorkbench.Apply | src/mcp-app/task-workbench.js:171-175 | what a current response changes |
| Workbench.TaskWorkbench.FinishLoad | src/mcp-app/task-workbench.js:170-175 | load after its await: the new state is the step's, and the cache only grows |
| Workbench.TaskWorkbench.OnClickSection | src/mcp-app/task-workbench.js:180-182 | the section button |
| WorkbenchClicks.SectionClickAsksExactly | src/mcp-app/task-workbench.js:180-182 | a section click adds exactly one request, under the next ticket, for the shown view and its cached entry, if and only if the section is not progress, no snapshot is shown, nothing is being read, a read function is given and the view has a descriptor |
| WorkbenchClicks.ViewClickAsksExactly | src/mcp-app/task-workbench.js:183-185 | what a view click asks for and shows meanwhile |
| WorkbenchClicks.RefreshAsksExactly | src/mcp-app/task-workbench.js:186 | what a refresh asks for |
| WorkbenchClicks.MountAsksExactly | src/mcp-app/task-workbench.js:135-196 | what mounting asks for |
| WorkbenchClicks.CurrentAnswer | src/mcp-app/task-workbench.js:171-175 | what a response to the newest request changes: cache entry, snapshot, selected node, busy and error |
| WorkbenchClicks.LateAnswer | src/mcp-app/task-workbench.js:170 | a response to an overtaken request changes nothing but the list of requests |
| Workbench.TaskWorkbench.Open | src/mcp-app/task-workbench.js:184 | the view button's own assignments |
| Workbench.TaskWorkbench.OnClickView | src/mcp-app/task-workbench.js:183-185 | the view button |
| Workbench.TaskWorkbench.OnClickRefresh | src/mcp-app/task-workbench.js:186 | the refresh button |
| Workbench.TaskWorkbench.OnClickNode | src/mcp-app/task-workbench.js:187-188 | the node button |
| Workbench.TaskWorkbench.Close | src/mcp-app/task-workbench.js:197 | disposal |
| SnapshotRead.SnapshotsExactly | python/opl_framework/work_item_file_boundary.py:144-153 | checked reads are snapshots of one content held throughout if and only if a stamp that shows again was there all along over one content |
| SnapshotRead.CheckedReadIsHeld | python/opl_framework/work_item_file_boundary.py:700-742 | the bytes of a checked read, each gathered at its own moment, are then the content held from first stat to last |
| SnapshotRead.ClockedWritersTell | python/opl_framework/work_item_file_boundary.py:144-153 | stamps tell when the change time never goes back and every write moves it on |
| SnapshotRead.StampsTellExactly | python/opl_framework/work_item_file_boundary.py:144-153 | where no stamp returns once it has changed, stamps tell if and only if every single write changes size or time |
| SnapshotRead.EveryWriteShowsIsNotEnough | python/opl_framework/work_item_file_boundary.py:735-742 | that every write changes size or time is not enough: a lawful history in which a checked read returns bytes the file never held |
| FileKernel.SameIdentityIsSameObject | python/opl_framework/work_item_file_boundary.py:140-141 | while one of them is kept open, two objects with one device and inode number are one object |
| FileKernel.QuietWalksAgree | python/opl_framework/work_item_file_boundary.py:118-137 | in a quiet world a path leads to one object |
| FileBoundary.RelativeComponents | python/opl_framework/work_item_file_boundary.py:55-66 | a target has relative components exactly if it is a strict descendant, and joining them gives it back |
| FileBoundary.EnterDirectory | python/opl_framework/work_item_file_boundary.py:127-130 | one component: one descriptor more and one fewer, and the name led to the new object at that moment |
| FileBoundary.Descend | python/opl_framework/work_item_file_boundary.py:126-137 | the loop follows all components, one lookup at a time, with one descriptor to show for it or none on failure |
| FileBoundary.RequireDirectory | python/opl_framework/work_item_file_boundary.py:131-137 | the closing check on the opened directory |
| FileBoundary.OpenAbsoluteDirectory | python/opl_framework/work_item_file_boundary.py:101-115 | the same from the file-system root, along whatever physical path was resolved |
| FileBoundary.OpenRelativeDirectory | python/opl_framework/work_item_file_boundary.py:118-137 | the same from a held descriptor |
| FileBoundary.OpenFileFromRoot | python/opl_framework/work_item_file_boundary.py:626-636 | opening a file below a root leaves one descriptor or none, and reached the object through the components |
| FileRead.OpenRoots | python/opl_framework/work_item_file_boundary.py:291-338 | both roots open and reached, or nothing open and root drift; the re-opening at lines 503-555 is the same |
| FileRead.SameIdentity | python/opl_framework/work_item_file_boundary.py:568-571 | two held descriptors stat alike exactly when they hold one object |
| FileRead.AssertRootMappingStable | python/opl_framework/work_item_file_boundary.py:558-580 | success means that the paths led to the held objects again |
| FileRead.AssertRootAttestation | python/opl_framework/work_item_file_boundary.py:338-353 | success means that the held roots have the expected inode numbers |
| FileRead.ReadChunks | python/opl_framework/work_item_file_boundary.py:711-728 | the chunk loop gathers the file's bytes in order, each at some moment of the read, and never more than asked for |
| FileRead.ReadStable | python/opl_framework/work_item_file_boundary.py:700-742 | success means a checked read within the limit; each refusal has its reason on disk |
| FileRead.CompareStat | python/opl_framework/work_item_file_boundary.py:757-759 | the stat of the re-opened file repeats the last one, or says why not |
| FileRead.CompareFile | python/opl_framework/work_item_file_boundary.py:756-764 | the path, followed again, leads to the held file under the same stat; drift is never reported in a quiet world |
| FileRead.CompareRoots | python/opl_framework/work_item_file_boundary.py:746-749 | the re-opened roots are the held ones |
| FileRead.ConfirmStillNamed | python/opl_framework/work_item_file_boundary.py:743-769 | all three paths lead to the held objects again, and every descriptor opened for this is closed |
| FileRead.ObserveContinuation | python/opl_framework/work_item_file_boundary.py:438-445 | the continuation is observed, or the re-attestation it needs has gone |
| FileRead.Admit | python/opl_framework/work_item_file_boundary.py:684-698 | the checks before the file is opened |
| FileRead.ReadOpened | python/opl_framework/work_item_file_boundary.py:700-775 | from the opened file to the result |
| FileRead.ReadBelow | python/opl_framework/work_item_file_boundary.py:683-778 | everything between opening and closing the roots, with the file descriptor closed on every path |
| FileRead.ReadFile | python/opl_framework/work_item_file_boundary.py:655-780 | no path leaks a descriptor; a success is witnessed by the history, its real path included; a refusal for drift, links, type or size has its reason on disk; and where nothing changes, no call fails and every answer is by the book, each readable file is returned with its physical path and content |
| FileRead.SuccessfulReadIsSnapshot | python/opl_framework/work_item_file_boundary.py:655-780 | for every interleaving, over stamps that tell, a success returns one content held until the path still led from the same root to the same file |
| FileRead.WitnessedReadCanBeTorn | python/opl_framework/work_item_file_boundary.py:655-780 | without telling stamps it may not: all that a success establishes holds in a lawful history in which every write shows, and the bytes were never in the file |
| FileRules.ContinuesExactly | python/opl_framework/work_item_file_boundary.py:221-230 | which identities continue which: a first-version one in the same four numbers, a second-version one in inodes and volumes, and in devices within one boot |
| FileRules.ReadFileIsRegular | python/opl_framework/work_item_file_boundary.py:700-742 | the file of a successful read was regular with one link, of the length read and within the limit, unchanged in every stat field, and the roots had the expected inode numbers |
| FileRules.OtherFilesAreNotRead | python/opl_framework/work_item_file_boundary.py:640-652 | where nothing changes, a file that is not regular, has more links or is over the limit is never read |
| SchemaValues.EqualTransitive | python/opl_framework/schema_validation.py:96-99 | Python equality, by which const and enum compare, is transitive over numbers, booleans and containers |
| SchemaValues.EqualSymmetric | python/opl_framework/schema_validation.py:96-99 | and symmetric |
| SchemaValues.UnescapeEscape | python/opl_framework/schema_validation.py:66 | the two replacements undo JSON pointer escaping in the right order (section 4 of RFC 6901) |
| SchemaValues.PointerRoundTrip | python/opl_framework/schema_validation.py:65-66 | a written JSON pointer is read back into its tokens |
| SchemaConformance.ChainsEndExactly | python/opl_framework/schema_validation.py:82-86 | every reference chain ends if and only if no cycle consists of references alone |
| SchemaConformance.FollowingEnds | python/opl_framework/schema_validation.py:50-58 | without such a cycle no chain is longer than the store has references |
| SchemaConformance.NoCycleIsSafe | python/opl_framework/schema_validation.py:74-86 | then every document can be checked against every schema, recursive schemas included |
| SchemaConformance.RefStep | python/opl_framework/schema_validation.py:82-86 | following one reference changes neither usability nor conformance |
| SchemaConformance.NearerSiblingsWin | python/opl_framework/schema_validation.py:79-86 | at the end of a reference chain every key beside the reference has the value given there, and every other key the one it has in the flat form of the referenced definition |
| SchemaConformance.DefinitionEnds | python/opl_framework/schema_validation.py:82-86 | the chain of a schema ends if and only if that of its definition does |
| SchemaConformance.UntypedChecksNoParts | python/opl_framework/schema_validation.py:88-94 | without a type keyword the structural keywords are not looked at |
| SchemaConformance.TrueIsOne | python/opl_framework/schema_validation.py:96-99 | true, 1 and 1.0 are one constant |
| SchemaKeywords.AdmitsSome | python/opl_framework/schema_validation.py:195-215 | a list of types admits a value if and only if one of them is its type, an integer being a number as well and a boolean neither |
| SchemaKeywords.IntegerIsNumber | python/opl_framework/schema_validation.py:211-212 | an integer conforms under type integer if and only if it does under type number |
| SchemaKeywords.StringConforms | python/opl_framework/schema_validation.py:161-172 | minLength counts characters, and date-time is the one format |
| SchemaKeywords.NumberConforms | python/opl_framework/schema_validation.py:185-193 | minimum and maximum are inclusive |
| SchemaKeywords.ArrayConforms | python/opl_framework/schema_validation.py:131-151 | minItems counts items, and items is asked of each |
| SchemaKeywords.ObjectConforms | python/opl_framework/schema_validation.py:102-129 | properties is asked of the fields there are, required of those there must be, and additionalProperties false forbids others |
| SchemaKeywords.ConstantsConform | python/opl_framework/schema_validation.py:96-100 | const and enum, beside any type |
| SchemaKeywords.ReferenceResolves | python/opl_framework/schema_validation.py:50-72 | a file and an escaped pointer name the object found along the pointer's tokens in that file, the current one where none is named |
| SchemaErrors.ObjectUsable | python/opl_framework/schema_validation.py:114-129 | an object schema raises if and only if properties is no object, required no list of strings, or a present field's schema no object or itself raising |
| SchemaErrors.ArrayUsable | python/opl_framework/schema_validation.py:143-151 | an array schema raises if and only if items is neither null nor an object, or raises on an item |
| SchemaErrors.UnreadableType | python/opl_framework/schema_validation.py:203-208 | a type that is neither a name nor a non-empty list of names raises on every document |
| SchemaErrors.BlankReference | python/opl_framework/schema_validation.py:51-52 | so does a reference that is no text or blank |
| SchemaErrors.MissingFile | python/opl_framework/schema_validation.py:39-56 | one to a file that is missing or holds no object |
| SchemaErrors.DanglingPointer | python/opl_framework/schema_validation.py:61-72 | and one with a pointer that does not start with a slash or leads nowhere |
| SchemaEquality.EqualExactly | python/opl_framework/schema_validation.py:96-99 | two values compare equal if and only if they are the same once every number and boolean is written as a real, at any depth |
| SchemaValidator.SchemaSubsetValidator.LoadSchema | python/opl_framework/schema_validation.py:39-48 | the cache is never seen: loading answers as the store does |
| SchemaValidator.SchemaSubsetValidator.ResolvePointer | python/opl_framework/schema_validation.py:60-72 | the loop along the tokens finds exactly the object a JSON pointer names |
| SchemaValidator.SchemaSubsetValidator.ResolveRef | python/opl_framework/schema_validation.py:50-58 | resolution of a reference against its base file |
| SchemaValidator.SchemaSubsetValidator.ResolveSchemaType | python/opl_framework/schema_validation.py:195-215 | it raises exactly on unreadable types, and reports exactly values of other types |
| SchemaValidator.SchemaSubsetValidator.ValidateScalar | python/opl_framework/schema_validation.py:153-193 | no issue exactly when length, format and range are right |
| SchemaValidator.SchemaSubsetValidator.ValidateShape | python/opl_framework/schema_validation.py:119-124 | no issue exactly when all required fields are there and no undeclared one is |
| SchemaValidator.SchemaSubsetValidator.ValidateFields | python/opl_framework/schema_validation.py:125-129 | the loop over properties |
| SchemaValidator.SchemaSubsetValidator.ValidateObject | python/opl_framework/schema_validation.py:102-129 | an object's own keywords and its fields |
| SchemaValidator.SchemaSubsetValidator.ValidateArray | python/opl_framework/schema_validation.py:131-151 | an array's own keywords and its items |
| SchemaValidator.SchemaSubsetValidator.ValidateValue | python/opl_framework/schema_validation.py:96-100 | no issue exactly when the value equals the constant and is in the enumeration |
| SchemaValidator.SchemaSubsetValidator.ValidateNode | python/opl_framework/schema_validation.py:74-100 | it raises exactly when the schema cannot be applied to the value, and otherwise appends no issue exactly when the value conforms; it terminates by value, then remaining chain |
| SchemaValidator.SchemaSubsetValidator.Validate | python/opl_framework/schema_validation.py:31-37 | the empty list exactly on conforming documents; an error exactly when the schema cannot be loaded or applied |
| Bytes.BigEndianRoundTrip | python/opl_framework/artifact_bitmap.py:56-57 | a big-endian field of any width gives back the number written to it |
| Bytes.ToBigEndianOf | python/opl_framework/artifact_bitmap.py:63 | and writing the number gives back the bytes |
| Bytes.LittleEndianRoundTrip | python/opl_framework/artifact_bitmap.py:127-145 | likewise little-endian |
| Bytes.ToLittleEndianOf | python/opl_framework/artifact_bitmap.py:133 | and back |
| BitmapFields.ChunkLayout | python/opl_framework/artifact_bitmap.py:61-71 | the fields of a PNG chunk and their widths, and what its checksum covers (section 5.3 of the PNG specification) |
| BitmapFields.ExtendedSizes | python/opl_framework/artifact_bitmap.py:139-142 | the size in an extended WebP header, byte by byte |
| BitmapFields.LosslessSizes | python/opl_framework/artifact_bitmap.py:143-145 | in a lossless bitstream |
| BitmapFields.LossySizes | python/opl_framework/artifact_bitmap.py:146-149 | and in a lossy key frame |
| PngWalk.WalkOfChunks | python/opl_framework/artifact_bitmap.py:62-79 | every serialised chunk list that ends with its first IEND is walked back into its chunks, whatever follows |
| PngWalk.WalkReads | python/opl_framework/artifact_bitmap.py:62-79 | whatever the walk accepts is such a serialisation and some more bytes |
| PngWalk.WalkChunks | python/opl_framework/artifact_bitmap.py:58-79 | the loop reaches IEND exactly when the walk does, with the IDAT payloads in order |
| PngWalk.WalkPng | python/opl_framework/artifact_bitmap.py:51-83 | a file is accepted if and only if it is some chunk list's serialisation plus ignored bytes, and then dimensions and payloads are read off that list (section 5.3 of the PNG specification) |
| PngInflate.DecodeAppend | python/opl_framework/artifact_bitmap.py:25-44 | a decoder's run over a joined stream goes on where it stopped |
| PngInflate.Decompressor.Decompress | python/opl_framework/artifact_bitmap.py:34-44 | what one bounded call of a decompressor may do: deliver at most the limit, read ahead as it likes, keep the rest as tail |
| PngInflate.FeedPayload | python/opl_framework/artifact_bitmap.py:26-44 | one payload, in as many calls as its output needs; the loop ends |
| PngInflate.ValidateIdatStream | python/opl_framework/artifact_bitmap.py:21-48 | it never ends normally above the budget; below it only the joined stream counts; at it, too, unless some payload starts a whole number of chunks away from it; under a one-chunk budget acceptance is exactly that no payload starts with the budget used up |
| PngInflate.RefusedExactly | python/opl_framework/artifact_bitmap.py:28-43 | a whole stream is refused only for size, and only when it decodes to at least the budget |
| PngInflate.CutMattersAtTheBudget | python/opl_framework/artifact_bitmap.py:28-33 | at the budget the cut into payloads decides: one stream, accepted as one payload and refused as two |
| PngRules.WholeExactly | python/opl_framework/artifact_bitmap.py:21-48 | a joined stream is whole if and only if the decoder goes from state to state through all its bytes and ends at the last, not before; its output is the sum of what the bytes put out |
| PngInflate.PngInfo | python/opl_framework/artifact_bitmap.py:51-83 | chunk walk and inflate check together, with the same exactness: dimensions are those of the chunk list, acceptance is that of its joined payloads |
| Webp.FindOfGiven | python/opl_framework/artifact_bitmap.py:131-150 | chunks without dimensions, of odd or even length, are passed over until one gives them |
| Webp.GivenOfFind | python/opl_framework/artifact_bitmap.py:131-150 | and whatever is found was given that way |
| Webp.WebpInfo | python/opl_framework/artifact_bitmap.py:124-151 | sizes are returned if and only if the chunks of a complete RIFF file give them (section 2.3 of RFC 9649) |
| BitmapFaults.FindFaults | python/opl_framework/artifact_bitmap.py:131-151 | the search ends in a structure fault if and only if padded chunks without a size lead to one longer than what is left; otherwise the size is missing |
| Webp.Vp8xGivesBack | python/opl_framework/artifact_bitmap.py:139-142 | the 24-bit fields give back every size (section 2.7 of RFC 9649) |
| Webp.Vp8lGivesBack | python/opl_framework/artifact_bitmap.py:143-145 | the packed 14-bit fields give back every size, whatever the four bits above them (section 3.4 of RFC 9649) |
| Webp.Vp8GivesBack | python/opl_framework/artifact_bitmap.py:146-149 | the scaled 14-bit fields give back every size |
| Jpeg.NextMarker | python/opl_framework/artifact_bitmap.py:92-95 | the two inner loops stop at the next marker or the end |
| Jpeg.Search | python/opl_framework/artifact_bitmap.py:89-121 | the loop never leaves the buffer, ends, and answers as the scan does |
| Jpeg.ScanOfGiven | python/opl_framework/artifact_bitmap.py:91-120 | standalone markers, measured segments, fill bytes and junk are passed over until a frame |
| Jpeg.GivenOfScan | python/opl_framework/artifact_bitmap.py:91-120 | and whatever is found was given that way |
| Jpeg.JpegInfo | python/opl_framework/artifact_bitmap.py:86-121 | sizes are returned if and only if markers and measured segments lead to a frame that scan and end markers follow |
| BitmapFaults.ScanFaults | python/opl_framework/artifact_bitmap.py:91-121 | the scan ends in a structure fault if and only if passed segments lead to one with a bad length, or to a frame that is short or lacks scan and end markers |
| BitmapFaults.FrameSize | python/opl_framework/artifact_bitmap.py:113-120 | a frame's height stands before its width, after length and precision |
| StableSort.SortUniqueOfSet | packages/cordis-abi/src/index.ts:162-164 | `sortedUnique` depends on the set of its values alone |
| StableSort.SortUniqueIdempotent | packages/cordis-abi/src/index.ts:162-164 | and is idempotent |
| StableSort.OrderIrrelevantExactly | packages/cordis-abi/src/index.ts:170-193 | a stable sort forgets the order it was given exactly when keys tell the elements apart |
| StableSort.BeforeExactly | packages/cordis-abi/src/index.ts:158-160 | one string sorts before another if and only if they agree up to some position where the first ends or its code unit is the smaller |
| StableSort.SortedKeysAscend | packages/cordis-abi/src/index.ts:170-193 | sorted keys ascend in that order, and no element is added or dropped |
| CordisDescriptor.InjectionKeyTells | packages/cordis-abi/src/index.ts:166-168 | under the schema the sort key of an injection determines the injection |
| CordisDescriptor.RebuildDescriptor | packages/cordis-abi/src/index.ts:237-267 | building a built descriptor again gives it back |
| CordisDescriptor.EquivalentInputsBuildAlike | packages/cordis-abi/src/index.ts:170-193 | order and repetition of provides, versions and authorities, order of injections, and order of events with distinct keys, change neither the descriptor nor its acceptance |
| CordisDescriptor.EventOrderCanMatter | packages/cordis-abi/src/index.ts:179-193 | for events it can: an absent and a null payload schema share a sort key |
| CordisDescriptor.ColonInNameCanMatter | packages/cordis-abi/src/index.ts:188-192 | and a colon in a name makes room for a mode and a role, so two other events share one |
| CordisDescriptor.EventOrderIrrelevantExactly | packages/cordis-abi/src/index.ts:179-193 | normalising events forgets the order given if and only if their keys tell them apart |
| CordisDescriptor.EventKeyTellsExactly | packages/cordis-abi/src/index.ts:188-192 | names, modes and roles without a colon are told by the key, and of the payload schema its text, an absent, a null and an empty one being one |
| CordisRules.IdentityExactly | packages/cordis-abi/src/index.ts:211-267 | a descriptor is built only if the three derived fields, where given, agree with the spelled-out ones, and a missing one is filled in so |
| CordisRules.BuiltInOrder | packages/cordis-abi/src/index.ts:237-267 | provides, authorities and versions ascend without repetition, injections and events ascend by their keys, and all else is copied |
| CordisComposition.BindServices | packages/cordis-abi/src/index.ts:343-353 | one plugin's services enter the provider map, or some service has two providers |
| CordisComposition.BindProviders | packages/cordis-abi/src/index.ts:333-354 | the first loop returns exactly on distinct identities and single providers |
| CordisComposition.ValidateInjections | packages/cordis-abi/src/index.ts:355-362 | no fault exactly when every injection of the list is resolved by a suitable provider |
| CordisComposition.ValidateCompositionPlugins | packages/cordis-abi/src/index.ts:330-363 | it returns normally exactly on the accepted compositions, and every refusal names something wrong with them |
| CordisComposition.InjectionFaultExactly | packages/cordis-abi/src/index.ts:287-328 | which injection faults are raised for which provider |
| CordisRules.AcceptedExactly | packages/cordis-abi/src/index.ts:287-363 | a composition is accepted if and only if names agree, plugin ids differ, no service is provided twice, each required injection has a provider of a listed version and no lower rank, and each optional one such a provider or none |
| CordisComposition.RequiredInjectionHasOneProvider | packages/cordis-abi/src/index.ts:287-363 | each required injection has exactly one provider, and it suits |
| CordisComposition.DependencyIsNoWeaker | packages/cordis-abi/src/index.ts:287-328 | a dependency, required or optional, never weakens trust or scope |
| CordisComposition.ChainNeverWeakens | packages/cordis-abi/src/index.ts:274-363 | nor does a chain of dependencies of any length |
| CordisComposition.CycleHasOneRank | packages/cordis-abi/src/index.ts:274-363 | so every dependency cycle has one trust and one scope |
| CordisSnapshot.BuildSnapshot | packages/cordis-abi/src/index.ts:374-399 | the snapshot built, or no snapshot and the fault that stopped it |
| CordisSnapshot.AssertSnapshot | packages/cordis-abi/src/index.ts:401-420 | what the assertion lets pass, and the fault of what it does not |
| CordisRules.SnapshotShape | packages/cordis-abi/src/index.ts:374-399 | a built snapshot carries its input's fields, its plugins ascending by id, its digest, and its digest in its name |
| CordisRules.TamperedIsRefused | packages/cordis-abi/src/index.ts:401-420 | a snapshot whose digest or name is not that of its content is refused |
| CordisSnapshot.BuiltPasses | packages/cordis-abi/src/index.ts:374-420 | every snapshot that is built passes the assertion |
| CordisSnapshot.RebuildChangesNothing | packages/cordis-abi/src/index.ts:374-399 | building it again gives it back, digest included |
| CordisSnapshot.OrderDoesNotMatter | packages/cordis-abi/src/index.ts:158-193 | the snapshot and its digest are unchanged by reordering plugins and by every equivalence of descriptors |
| AgentRegistry.KeyIgnoresTrim | src/kernel/standard-agent-registry.ts:342-344 | trimming before normalisation cannot matter |
| RegistryNames.KeysOfUnits | src/kernel/standard-agent-registry.ts:342-344 | a key keeps small letters and digits, lowers capitals and drops every other ASCII unit, wherever it stands |
| AgentRegistry.CollectPackages | src/kernel/standard-agent-registry.ts:364-376 | the package map, exactly when package ids with one key are one id |
| AgentRegistry.CheckEntry | src/kernel/standard-agent-registry.ts:380-395 | one entry's claims against packages and earlier claims |
| AgentRegistry.AssertRegistryNamespaceUnique | src/kernel/standard-agent-registry.ts:360-397 | it returns normally exactly when no two agents, and no agent and foreign package, share a key |
| RegistryNames.UniqueExactly | src/kernel/standard-agent-registry.ts:346-397 | the namespace is unique if and only if no two agents go by names with one key in any of nine fields, no agent by the key of another's package, and no two packages share a key |
| AgentRegistry.EveryClaimResolves | src/kernel/standard-agent-registry.ts:473-508 | then every alias, domain id, owner alias and canonical plugin name resolves to its own entry, wherever it stands |
| RegistryNames.AnswersExactly | src/kernel/standard-agent-registry.ts:473-508 | which fields each resolver looks at: the general one at neither module id nor owner aliases |
| RegistryNames.FindsFirst | src/kernel/standard-agent-registry.ts:485-508 | a resolver returns the first entry that answers, and nothing if and only if none does |
| AgentRegistry.TwoStageLookup | src/kernel/standard-agent-registry.ts:485-490 | looking in the published list and then in the merged one is one lookup in the merged list |
| RegistryNames.PublishedFinds | src/kernel/standard-agent-registry.ts:423 | under one agent id the last published entry counts |
| RegistryNames.PutKeepsPlaces | src/kernel/standard-agent-registry.ts:423 | at the place of the first one, and a new agent stands last |
| RegistryNames.MergedFindsAgent | src/kernel/standard-agent-registry.ts:428-433 | an installed entry counts only for an agent that is not published, and then the first one does; published entries keep their places |
| RegistryNames.MergedHasNoAgentTwice | src/kernel/standard-agent-registry.ts:422-436 | no agent is listed twice |
| AgentRegistry.StandardAgentRegistry.List | src/kernel/standard-agent-registry.ts:422-438 | the merged list or the collision; the discovery flag is restored and stops re-entry |
| ReceiptLedger.JsonReceiptLedger.Upsert | src/kernel/json-file.ts:97-110 | the in-place loop computes the specified list |
| ReceiptLedger.JsonReceiptLedger.Record | src/kernel/json-file.ts:174-200 | record, which touches nothing without eligible receipts |
| ReceiptLedger.JsonReceiptLedger.Verify | src/kernel/json-file.ts:202-241 | verify marks the selected receipt, and says truly whether that changed the ledger |
| ReceiptLedger.SelectedExactly | src/kernel/json-file.ts:203-209 | which receipt verify selects: the one asked for, or else the first recorded one, or else the first |
| ReceiptLedger.UpsertedRefs | src/kernel/json-file.ts:97-110 | new refs go to the front, the last one first, and known ones keep their places |
| ReceiptLedger.UpsertedIsLatest | src/kernel/json-file.ts:97-110 | upserting is updating a map, later receipts winning, and keeps refs distinct |
| ReceiptLedger.StepAgrees | src/kernel/json-file.ts:168-241 | each operation keeps refs distinct, loses none and is a step of a latest-wins map |
| ReceiptLedger.EveryRunAgrees | src/kernel/json-file.ts:168-241 | and so does every run |
| ReceiptLedger.VerifyingEnds | src/kernel/json-file.ts:202-230 | each verify without a ref lowers the number of unverified receipts by one while any remain; as many calls as there are leave all verified |
| OwnerEvidence.StringList | python/opl_framework/owner_evidence.py:31-39 | the loop returns the clean texts, each once, in order |
| EvidenceCounts.TextExactly | python/opl_framework/owner_evidence.py:7-10 | space around a text does not count, and a text of nothing else is refused |
| EvidenceCounts.FirstOccurrences | python/opl_framework/owner_evidence.py:31-39 | each value is kept where it first occurs |
| OwnerEvidence.CountKeys | python/opl_framework/owner_evidence.py:62-67 | the counting loop counts the occurrences of exactly the keys there are |
| OwnerEvidence.CountsTotal | python/opl_framework/owner_evidence.py:62-67 | and its counts sum to the length of the list |
| EvidenceInventory.NormalizedAgain | python/opl_framework/owner_evidence.py:97-121 | what the producer normalised, the consumer reads back unchanged |
| EvidenceInventory.CollectItems | python/opl_framework/owner_evidence.py:337-363 | the loop over proofs accepts exactly readable proofs with distinct refs |
| EvidenceInventory.RefSetSize | python/opl_framework/owner_evidence.py:367 | the producer's set and the consumer's ordered list have one size |
| EvidenceInventory.BuildInventory | python/opl_framework/owner_evidence.py:322-392 | the inventory's summary is the counts of its items |
| EvidenceCounts.SummaryExactly | python/opl_framework/owner_evidence.py:156-170 | each count of a summary is the number of items with that shape, status or blocker, and of different references |
| EvidenceCounts.BlockerRefsExactly | python/opl_framework/owner_evidence.py:158 | the blocker references are those of the blocked items |
| EvidenceCounts.NormalizedExactly | python/opl_framework/owner_evidence.py:97-121 | an item is read field by field, each from the field of its name, and one unreadable field refuses it |
| EvidenceCounts.ProducedExactly | python/opl_framework/owner_evidence.py:322-392 | what is built names the profile's kind and domain, claims no soak, counts its items, and each item reads back as its proof does |
| EvidenceInventory.CollectRefs | python/opl_framework/owner_evidence.py:159-163 | the nested loops keep each reference once, in order |
| EvidenceInventory.BuildSummary | python/opl_framework/owner_evidence.py:124-200 | an inventory is accepted exactly when its summary says what its items say |
| EvidenceCounts.ConsistentExactly | python/opl_framework/owner_evidence.py:124-180 | an inventory is accepted if and only if kind, owner and target are the profile's, no soak is claimed, there are items, each readable with a listed shape and status, the summary counts them, and no negative closeout count is given |
| EvidenceInventory.ProducerAndConsumerAgree | python/opl_framework/owner_evidence.py:124-392 | every inventory that is built passes all checks exactly when the profile allows its shapes and statuses |
| EvidenceInventory.CountsSum | python/opl_framework/owner_evidence.py:156-170 | shape counts and status counts each sum to the item count |
| SkillDigest.Base64Tells | src/kernel/agent-package-skill-projection.ts:71 | base 64 text determines the bytes |
| DigestShape.GroupOfThree | src/kernel/agent-package-skill-projection.ts:71 | three bytes and four digits are one number of 24 bits (section 4 of RFC 4648) |
| DigestShape.LastGroups | src/kernel/agent-package-skill-projection.ts:71 | a last group of one or two bytes is read as if zeros followed, and padded |
| DigestShape.MoreBytes | src/kernel/agent-package-skill-projection.ts:71 | an example of section 10 of RFC 4648 |
| SkillDigest.JoinedTells | src/kernel/agent-package-skill-projection.ts:69-73 | joined records determine the list of files, empty files and the empty list included |
| SkillDigest.PreImageExactly | src/kernel/agent-package-skill-projection.ts:40-74 | two directories have the same pre-image if and only if they hold the same paths with the same bytes |
| DigestShape.PreImageShape | src/kernel/agent-package-skill-projection.ts:65-73 | the pre-image is the records in ascending order of their paths, a NUL between them, and a record is skill, slash, path, NUL and base 64 text |
| DigestShape.PairAt | src/kernel/agent-package-skill-projection.ts:76-80 | the combined text is that of the list of pairs of a skill and its digest, or null where there is none |
| SkillDigest.CombinedPreImageExactly | src/kernel/agent-package-skill-projection.ts:76-80 | two exports have one combined pre-image if and only if they list the same skills in the same order with the same digests |

## Left out

- File writes, renames, backups, environment variables, home and profile lookups of the Codex bootstrap: the profile, the environment and the receipt are parameters, the config text is state.
- JSON values other than strings that a TOML value parser would accept: the reader's own value forms are modelled, full TOML is not its specification.
- Number printing in canonical JSON: a finite double is represented by the text it is printed as, over characters that delimit nothing, so equality of numbers is equality of those texts with -0 read as 0.
- The path strings, offsets in messages and details of canonical JSON faults: the kind of the first fault is modelled, and the string offset in Utf16.
- HTML, labels, focus handling, SVG and the onContext callback of the workbench; the payload's fields that no check reads.
- Text handling of absolute paths in the file boundary: paths are lists of components, as the source requires them normalised.
- `os.path.realpath`: it may answer anything; soundness holds for whatever it answers, and completeness is stated for answers by a fixed book, which is the resolution of links the model does not carry out.
- Volume identities, stored re-attestations and their write path in the file boundary: answers from outside, consulted where the source consults them.
- SHA-256: results are about the bytes fed to the hash.
- FileKernel.Kernel.Install: descriptor numbers are any free ones, not the lowest.
- FileKernel.Kernel.Close: closing never fails.
- FileRead.ReadFile: which OSError a call raises is not modelled, nor `_test_interlock`, whose waiting is covered by the passing of time.
- NaN and infinite floats in schemas and documents, dictionary keys that are no strings, and the date-time parser, which is any predicate on strings.
- The order and wording of validation issues.
- Cyclic redundancy checks and the zlib decoder: any function of the bytes, and any decoder that maps one more byte to a new state, an amount of output, the end or an error.
- PngInflate.Decompressor.Decompress: it returns how many bytes it delivers, not the bytes, which nobody looks at; the stream's last byte yields no output and is read only when nothing is left to deliver, as for a trailing checksum.
- PngInflate.ValidateIdatStream: for a stream of exactly the budget, a budget of one mebibyte or more, and a payload that starts a whole number of mebibytes away from it, nothing is said, as it depends on how far the decoder reads ahead.
- PngInflate.PngInfo: likewise.
- `inspect_bitmap`'s dispatch on the three formats and its comparison with the file extension, which would add easy members.
- Ajv: the descriptor schema is written out as far as order, keys and emptiness depend on it; the rest of it, and the snapshot schema, are arbitrary predicates.
- Deep freezing of snapshots, error messages and details.
- Reading manifests and projections into registry entries, and the capability package entries.
- A readiness port that throws during discovery; the flag is then restored by the source's finally block.
- Normalising receipts when a ledger file is read: a stored receipt is taken to be its own normal form.
- Authority maps, forbidden-write proofs, ledger roles and states of owner evidence: checked for presence on both sides alike, and copied.
- Reading directories and refusing links for skill digests: a directory is its list of paths and bytes.
- Lone surrogates in file paths of a skill, which UTF-8 encoding before hashing would merge.
