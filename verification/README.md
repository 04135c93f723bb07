# Verified model of Liaiso

Liaiso turns HTTP endpoints into tools that an agent can call, and serves files to agents out of a sandbox. These Dafny
files model the code where that work is hardest, in the form the code has it: loops over arrays and maps stay methods
with loops, objects that update their fields stay classes, and pure functions stay functions. Each such method is tied
to a plain specification, and the promises of the design are proved about the specification, for every input.

| what is modelled | files |
|---|---|
| the compiler from type shapes to JSON Schema | `TypeShapes`, `SchemaEmission`, `SchemaMeaning`, `SchemaFaithful`, `SchemaCycles`, `SchemaCounting`, `SchemaNames`, `SchemaPlans`, `SchemaWriter`, `SchemaBudget`, `SchemaLosses`, `SchemaValues`, `Digraph` |
| the tool index and its ranking | `SearchCorpus`, `SearchIndex`, `SearchRanking`, `SearchBuild`, `SearchFill`, `SearchScoring`, `SearchTerms`, `ToolIndex`, `SearchLaws`, `SearchOrder` |
| the native file core: paths, links, the scan, SHA-256, and the listing built on the scan | `PathText`, `FileTree`, `PathResolution`, `TreeScan`, `ScanJob`, `SourceListing`, `Sha256Standard`, `Sha256Streaming`, `FileDigest` |
| curation, the published schema, the request template, and composing a request | `Curation`, `RequestSchema`, `RequestTemplates`, `RequestAgreement`, `RequestComposition`, `RequestConservation`, `RequestCaptures`, `RequestErrors` |
| what goes over the wire, and a reader that gets it back | `PercentCoding`, `QueryText`, `QueryMeaning`, `BlankDelimiter`, `CookieText`, `CookieMerge`, `PathSegments`, `RoutePlaceholders`, `MultipartText`, `InlineFiles`, `FormFields`, `FormReading` |
| the JSON printers, a parser to check them by, and canonical form | `JsonText`, `JsonRoundTrip`, `JsonWriter`, `CanonicalForm` |
| byte budgets | `Utf8Text`, `Utf16Text`, `PayloadBudget`, `ToolErrors`, `EnvelopeText` |
| two glob engines, the XML worker, the document store, operation folding | `GlobPatterns`, `RouteGlobs`, `RecencyMaps`, `Residency`, `XmlWorkers`, `DocumentStores`, `Folding`, `OperationFolding` |
| shared | `Wrappers`, `Ordering`, `Decimals` |

The main results:

- **Simplification** ends on every type shape, with a result that follows from the shape alone; it writes each declared
  body at most twice (once unless the root's own type is hoisted) and leaves no dangling `$ref`. Read through `$defs`
  to any depth, the document is the shape as it was written: cut exactly where the depth budget ends, with every
  keyword where it was put. Without a budget it is the shape itself exactly when no visible constraint was lost beside
  a `$ref`. Of all values it admits exactly those that the shape's types and constraints admit. The diagnostics name a
  cut exactly when the budget changed the result.
- **Search** over the flattened index answers exactly what scoring every document and ranking by score and then name
  answers; tags drop documents and never reorder the rest; the scratch totals are zero again after each term. Fields,
  occurrences, length and rarity move a document up as they should.
- **Resolution** of a rooted path ends on any tree of links with the answer of a recursive walk that never leaves the
  root; a link leads where its target does, and a resolved path resolves to itself. **A scan** that reports neither a
  reason nor an unreadable name has listed every real name once, so a listing that calls its total exact counts every
  chosen file.
- **SHA-256** gives the digest of FIPS 180-4 for every way of cutting the message; `digestFile` answers exactly when
  the file had its measured length and did not change.
- **Schema and template**, built apart from one endpoint, agree on names, and a request carries in a slot what was sent
  there, in a hidden slot its fill or nothing, and nothing else, exactly when conditions on the curation's names hold
  that are proved for every endpoint. They fail only for arguments both hidden and renamed, for a renamed body root,
  and for a visible name that is the wire name of another renamed or hidden argument. When a request is refused, and
  for what, is decided exactly.
- **Queries, form bodies, cookies, path segments and multipart bodies** read back; where they do not, the exact
  condition is given.
- **Canonical JSON** of two values is equal exactly when they are equal up to key order; parsing undoes printing.
- **Every guarded tool result** fits its byte limit whenever the envelope with an empty message does, and the message
  kept is the longest that fits.
- **The glob table** decides the declarative language of a pattern; the regular expression of the second engine is read
  back and compared with it.
- **The XML worker** keeps a bijection between names and resident documents over every run, evicts by last use, and
  disposes of each document once. **The document store** answers what a fresh parse would, and holds the keys last
  loaded. **Folding** loses nothing, does not depend on order, and done twice is done once.

Some promises fail on some inputs. Each such place has a lemma that names the failing inputs or states the exact
condition: definition names that repeat and constraints lost behind a hoisted reference (`SchemaLosses`), cycles of
wrappers only (`SchemaCycles`), names that lose to descriptions (`SearchOrder`), a renamed body root
(`RequestAgreement`), arguments both hidden and renamed (`RequestCaptures`), space-delimited arrays (`BlankDelimiter`),
exploded labels (`PathSegments`), placeholder names with braces (`RoutePlaceholders`), escaped multipart names
(`MultipartText`), dotted form keys (`FormReading`), glob engines that differ (`RouteGlobs`), and items listed twice
(`Folding`).

Where the code and its documents differ, the code is followed. `packages/http/spec/argument-curation.md` line 82 has
the new name of every hidden argument refused, and line 65 a rename that meets any other argument's name;
`allowedArgumentNames` allows every key of `bodyAliases`, a hidden field's too, and `assertAgentNamesUnique` skips
hidden arguments. `HiddenFieldWritten` shows what follows, and `HiddenCarriesFillExactly` when it does not.

## Model

| member | source | states |
|---|---|---|
| SchemaWriter.SimplifySchema | packages/http/core/src/schema-simplification.ts:416-421 | for every shape and budget the run ends with the schema, definitions and diagnostics that the shape alone determines; every `$ref` written, in the root or in a definition, names a definition; no declared body is written more than twice, or once unless the root's type is hoisted; with distinct definition names and no cycle of wrappers only, the document reads back as the shape as written, for any keywords looked at, and without a budget as the shape itself exactly when every visible place is faithful; and it admits exactly the values that the shape's own types and constraints admit |
| SchemaWriter.BuildGraph | packages/http/core/src/schema-simplification.ts:65-100 | the graph holds exactly the keys the root leads to, each visited once, and every mention is counted |
| Digraph.SearchReaches | packages/http/core/src/schema-simplification.ts:102-117 | the breadth-first search over a queue with repeats says exactly whether a path leads from one key to another |
| SchemaWriter.HoistedKeys | packages/http/core/src/schema-simplification.ts:207-221 | a key is hoisted exactly when it is used more than once or reaches itself |
| Digraph.AcyclicStepShrinks | packages/http/core/src/schema-simplification.ts:214-221 | stepping to a key on no cycle loses a reachable key, which is why recursion that stops at hoisted keys ends |
| SchemaMeaning.SimplifiedReadsAsWritten | packages/http/core/src/schema-simplification.ts:199-414 | unfolded to any number of levels, the written schema read through its definitions is the type shape, cut where the depth budget ends and nowhere else, with each keyword where it was written |
| SchemaMeaning.RefBodyExactly | packages/http/core/src/schema-simplification.ts:350-364 | a node is written as a bare `$ref` exactly when it leads, through wrappers, to a hoisted key |
| SchemaMeaning.AnnotationReads | packages/http/core/src/schema-simplification.ts:151-193 | annotating a written schema is annotating its reading, by the type there unless a `$ref` stands there |
| SchemaValues.DocumentAdmitsExactly | packages/http/core/src/schema-simplification.ts:199-414 | for every value, the document read as JSON Schema admits it exactly when the shape does: its types, the constraints on its members within those of the wrappers around them, its enumerations, dictionary keys and required members; beside a `$ref` no type is known |
| SchemaValues.LimitsAre | packages/http/core/src/schema-simplification.ts:151-193 | annotated keywords admit a value exactly when the constraints do: a number between `minimum` and `maximum` of a numeric type; a list, or else a text, of a size between `minSize` and `maxSize`; a text of the pattern, and of the type's own format or else the constraint's, where the type is a string |
| SchemaValues.LimitsWithin | packages/http/core/src/schema-simplification.ts:387-414 | constraints on a wrapped, constrained type are one set of constraints: the outer one counts, but for the format |
| SchemaValues.EnumValued | packages/http/core/src/schema-simplification.ts:119-136 | an enumeration's schema admits exactly its names or its numbers, by its wire form, and any value of that form where its members combine |
| SchemaValues.KeyNamesValued | packages/http/core/src/schema-simplification.ts:138-149 | a dictionary's key schema admits exactly the keys of its format, or else whole numbers where its keys are integers |
| SchemaValues.NumbersAdmitted | packages/http/core/src/schema-simplification.ts:180-186 | a member of a number type admits exactly the numbers from its minimum to its maximum |
| SchemaValues.TextsAdmitted | packages/http/core/src/schema-simplification.ts:168-192 | a text member admits exactly the texts of its sizes that have its pattern and format |
| SchemaValues.ListsAdmitted | packages/http/core/src/schema-simplification.ts:168-179 | a list member admits exactly the lists of its sizes whose items the element type admits |
| SchemaValues.DescriptionKeyword | packages/http/core/src/schema-simplification.ts:151-158 | a description is the type's own, or else the member's |
| SchemaValues.SelectedAre | packages/http/core/src/schema-simplification.ts:366-376 | the members kept are all of them, or all but those that are read-only, not bound by a constructor, and neither lists nor maps; none is kept twice |
| SchemaValues.SelectedJoined | packages/http/core/src/schema-simplification.ts:366-376 | the members kept stand in the order of the type |
| SchemaFaithful.FaithfulExactly | packages/http/core/src/schema-simplification.ts:199-414 | without a budget, the document reads as the shape itself exactly when each visible place shows the keywords its shape gives it |
| SchemaFaithful.SharedMemberExactly | packages/http/core/src/schema-simplification.ts:387-414 | a constrained member of a hoisted type that has no keywords itself is read as its shape says exactly when no constraint depends on the type at the end of the wrapper chain |
| SchemaFaithful.SurvivorsAreFaithful | packages/http/core/src/schema-simplification.ts:151-193 | if every constraint on a visible shared type survives without the type, nothing is lost; descriptions never matter |
| SchemaWriter.RunReadsBack | packages/http/core/src/schema-simplification.ts:247-267 | the definitions a run files under their names make the document readable, so the whole run keeps the meaning |
| SchemaWriter.RunIsPlanned | packages/http/core/src/schema-simplification.ts:207-221 | a run hoists exactly what the rule says of the keys the root leads to, in ascending order: hoisting follows from the shape |
| SchemaPlans.UsesAre | packages/http/core/src/schema-simplification.ts:65-100 | how often a key is mentioned does not depend on the order of the visit |
| SchemaPlans.PlanIsSound | packages/http/core/src/schema-simplification.ts:207-221 | the plan of any shape is closed under references and hoists every key on a cycle |
| SchemaWriter.RunRefsNamed | packages/http/core/src/schema-simplification.ts:247-267 | every reference written anywhere in the document has a definition |
| SchemaCounting.BodiesWrittenAtMostTwice | packages/http/core/src/schema-simplification.ts:350-385 | over root and definitions each body is written at most twice, and at most once unless the root's own type is hoisted |
| SchemaCounting.HoistedNotInNode | packages/http/core/src/schema-simplification.ts:350-385 | the body of a hoisted key is never written inside another |
| SchemaNames.NamesDistinctExactly | packages/http/core/src/schema-simplification.ts:223-241 | definition names are distinct exactly when no type already bears the name a duplicate would be given |
| SchemaLosses.NamesRepeat | packages/http/core/src/schema-simplification.ts:223-241 | an object that refers twice to each of three types named Foo, Foo and Foo_2 gets one definition for the last two, with the last one's body, and that is not the other's |
| SchemaLosses.PatternLost | packages/http/core/src/schema-simplification.ts:151-193 | an object with two members of one wrapped string, one with a pattern: the document does not read as the shape, because the pattern is lost |
| SchemaCycles.ReadableExactly | packages/http/core/src/schema-simplification.ts:350-385 | every definition shows a first level exactly when no cycle is made of wrappers only |
| SchemaBudget.BudgetExactly | packages/http/core/src/schema-simplification.ts:319-328 | a run under a depth budget gives what the run without one gives exactly when its diagnostics name no cut |
| SchemaBudget.RenamesReported | packages/http/core/src/schema-simplification.ts:223-241 | there is one report for each definition that did not get its simple name |
| SchemaFaithful.KeywordsSurviveExactly | packages/http/core/src/schema-simplification.ts:151-193 | the keywords written beside a typeless reference are those written beside the type itself exactly when no constraint depends on the type |
| SchemaWriter.Writer.Write | packages/http/core/src/schema-simplification.ts:247-267 | the root in place and one definition for every hoisted key, with the reports and the bodies written on the way |
| SchemaWriter.Writer.Node | packages/http/core/src/schema-simplification.ts:273-317 | the recursive writer of one node gives the specified schema, reports and bodies |
| SchemaWriter.Writer.BodyOf | packages/http/core/src/schema-simplification.ts:378-385 | the writer of a declared body gives the specified schema, reports and bodies |
| SchemaWriter.Writer.AssignNames | packages/http/core/src/schema-simplification.ts:223-241 | each hoisted key in order gets its simple name, or the name with the number of earlier claims, reported |
| ToolIndexes.ToolIndex.Search | packages/http/core/src/search.ts:299-416 | a limit below one is an error; otherwise the answer is the plain ranking of every document, restricted to those that carry the tags, cut at the limit |
| ToolIndexes.FilteredRanking | packages/http/core/src/search.ts:393-416 | dropping documents before sorting gives the plain ranking with those documents dropped |
| ToolIndexes.ToolIndex.constructor | packages/http/core/src/search.ts:156-256 | the index built from any documents flattens exactly their corpus |
| ToolIndexes.ToolIndex.ListByName | packages/http/core/src/search.ts:309-326 | the page of an empty query lists documents by name, restricted and cut |
| ToolIndexes.ToolIndex.TagFilterIds | packages/http/core/src/search.ts:258-274 | no filter without tags; otherwise one id for each wanted tag, and an id nobody has for an unknown tag |
| ToolIndexes.ToolIndex.CarriesEveryTag | packages/http/core/src/search.ts:276-293 | true exactly when every wanted tag is among the document's own |
| ToolIndexes.WantedIsNamed | packages/http/core/src/search.ts:276-293 | a run of tag ids holds a wanted id exactly when the texts it names hold the wanted tag |
| SearchRanking.RankingMeans | packages/http/core/src/search.ts:299-416 | the plain ranking holds each document with a positive score once and no other, in strict order of score and then name |
| SearchRanking.StrictlySortedUnique | packages/http/core/src/search.ts:393-416 | a set of documents has one strictly sorted listing |
| SearchRanking.CarryingKeeps | packages/http/core/src/search.ts:276-293 | restricting a ranking to the carriers of tags keeps its order and drops nothing else |
| SearchRanking.SortStrict | packages/http/core/src/search.ts:393-416 | a stable sort of distinct documents by score and rank lists them in strict order |
| SearchIndex.LowerBound | packages/http/core/src/search.ts:110-123 | everything before the returned place precedes the target, and nothing behind it does |
| SearchIndex.PrefixRun | packages/http/core/src/search.ts:345-364 | in an ascending vocabulary the entries that start with a term stand together, from the term's own place on |
| SearchIndex.SumMatchingIsFrequency | packages/http/core/src/search.ts:97-105 | summing a document's term weights over the vocabulary entries a term matches is summing them over the document's own tokens |
| SearchIndex.FlatSlice | packages/http/core/src/search.ts:222-239 | the slice between two offsets of the flattened postings is one entry's posting list |
| SearchIndex.SumOverIsTotal | packages/http/core/src/search.ts:181-186 | a document's stored length is the weight of all its tokens |
| SearchBuild.DocumentTerms | packages/http/core/src/search.ts:160-184 | the weighted terms of one document, with the keys in the order a map lists them |
| SearchBuild.ReadDocuments | packages/http/core/src/search.ts:156-201 | postings, tags and lengths gathered over all documents are those of the corpus |
| SearchFill.FillPostings | packages/http/core/src/search.ts:216-239 | the typed arrays flatten the posting lists in vocabulary order |
| SearchFill.FillRanks | packages/http/core/src/search.ts:202-215 | the rank of a document is its place in order of name |
| SearchFill.FillTags | packages/http/core/src/search.ts:240-256 | the tag arrays flatten the documents' tags |
| SearchFill.StableIsOrdinal | packages/http/core/src/search.ts:202-211 | the stable sort by name is the order by name and then by document |
| SearchScoring.AddPostingFrequencies | packages/http/core/src/search.ts:125-141 | adding a slice of postings adds each frequency to its document and lists a document when it is first touched |
| SearchScoring.MatchTerm | packages/http/core/src/search.ts:331-364 | for a long term the run of entries it starts, for a short one its own entry: the totals are each document's frequency of the term |
| SearchScoring.RunIsWhole | packages/http/core/src/search.ts:345-364 | when every match lies in a run of the vocabulary the run's sum is the whole sum |
| SearchTerms.TouchedAreCounted | packages/http/core/src/search.ts:365-373 | the number of touched documents is the number in which the term occurs |
| SearchTerms.ScoreTerm | packages/http/core/src/search.ts:331-391 | after a term the scores are the plain scores with that term counted, each scored document is listed once, and every scratch total is zero again |
| SearchTerms.ScoreTerms | packages/http/core/src/search.ts:328-391 | after all terms the scores are those of scoring every document |
| SearchCorpus.ContributionSign | packages/http/core/src/search.ts:374-390 | a document gains from a term exactly when the term occurs in it |
| SearchOrder.PlaceRanks | packages/http/core/src/search.ts:10-14 | of two documents that differ only in where one token stands, the one with it in the name is answered ahead of the other, and the one with it in the description ahead of those with it in tags, routes or parameters: for every corpus, tag filter and limit, and every query that the token answers and whose other terms these documents do not hold |
| SearchOrder.NameMayLose | packages/http/core/src/search.ts:374-390 | with another term in query and documents the order may turn, because a name makes its document longer: the input, for any logarithm |
| SearchOrder.MoreOccurrencesRank | packages/http/core/src/search.ts:374-390 | of two documents of one length, the one in which the terms occur no less often, and one more often, is answered ahead |
| SearchOrder.ShorterRanks | packages/http/core/src/search.ts:374-390 | of two documents in which each term occurs equally often, and one at all, the shorter is answered ahead |
| SearchOrder.RarerContributesMore | packages/http/core/src/search.ts:374-378 | with an increasing logarithm, of two terms that occur equally often in a document the one that fewer documents hold contributes more |
| SearchOrder.HigherIsAhead | packages/http/core/src/search.ts:399-416 | wherever the answer lists a document, each one with a higher score that carries the tags is listed before it |
| SearchLaws.FrequencyIs | packages/http/core/src/search.ts:160-184 | a term's frequency is three for each token of the name that it meets, one and a half for each of the description, and one for each of the tags, routes and parameters; the length counts all tokens so |
| SearchOrder.NormalizedIs | packages/http/core/src/search.ts:381-384 | the normalised frequency is that of Okapi BM25 with `k1` 1.2 and `b` 0.75, as an equation without quotients |
| SearchOrder.IdfIs | packages/http/core/src/search.ts:374-378 | a term's weight is the logarithm of one more than all documents over a half more than its own |
| SearchOrder.DocumentFrequencyIs | packages/http/core/src/search.ts:365-370 | a term's document frequency is the number of documents in which it meets some token |
| SearchOrder.AverageIs | packages/http/core/src/search.ts:197-201 | the average length is that of all documents, each counted once |
| PathText.Parts | packages/cores/file-core-native/src/secure.cc:148-160 | the loop gives the components between slashes |
| PathText.Joined | packages/cores/file-core-native/src/secure.cc:161-165 | the loop gives the components with slashes between |
| PathText.ComponentsOfJoin | packages/cores/file-core-native/src/secure.cc:148-165 | splitting a joined path gives its components back |
| PathResolution.Resolve | packages/cores/file-core-native/src/secure.cc:275-346 | on any tree of directories, files and links the work queue ends with exactly the answer, or the error, of the recursive rooted walk |
| PathResolution.Unwind | packages/cores/file-core-native/src/secure.cc:280-345 | the loop ends, by links left and then names pending, and its chain holds the node at each prefix of the names |
| PathResolution.ResolvedWithin | packages/cores/file-core-native/src/secure.cc:275-346 | the answer is the node its own path names from the root, through directories only, within the name limit |
| PathResolution.ResolvedAgain | packages/cores/file-core-native/src/secure.cc:275-346 | resolving the returned path gives the same node and path, and crosses no link |
| PathResolution.AbsoluteLinkLeads | packages/cores/file-core-native/src/secure.cc:198-236 | an absolute link spelled with the root's own path leads where the rest of it does from the root |
| PathResolution.RelativeLinkLeads | packages/cores/file-core-native/src/secure.cc:311-322 | where a name is a link with a relative target, the path of its directory, the name and any rest resolves to what the path of the directory, the target and the rest does, with one link more crossed, and fails where that fails or the links run out |
| PathResolution.RelativeLinkPath | packages/cores/file-core-native/src/secure.cc:311-322 | the same of the path texts `d/l/rest` and `d/t/rest` |
| PathResolution.RootedLinkLeads | packages/cores/file-core-native/src/secure.cc:311-322 | where a name is a link with an absolute target, the path resolves as what the target says beneath the root does from the root, with one link more crossed |
| PathResolution.SlashLinkLeads | packages/cores/file-core-native/src/secure.cc:198-236 | beneath the root of all files an absolute link leads where its components do |
| PathResolution.UpUndoes | packages/cores/file-core-native/src/secure.cc:284-287 | a step up undoes the last step down, and at the root is an error |
| PathResolution.PlaceResolves | packages/cores/file-core-native/src/secure.cc:275-346 | the joined path of a place resolves to the node there |
| FileTree.WalkSplits | packages/cores/file-core-native/src/secure.cc:148-165 | walking a list is walking its first part and then its second with the links that are left |
| FileTree.WalkEnds | packages/cores/file-core-native/src/secure.cc:275-346 | a walk that succeeds ends at a real place in the root |
| FileTree.WalkStraight | packages/cores/file-core-native/src/secure.cc:275-346 | the path of a place walks straight to it |
| ScanJob.Job.Scan | packages/cores/file-core-native/src/secure.cc:558-588 | entries and unreadable names together are the visited names, within the budget; each place is listed at most once; unless time or budget ran out exactly the wanted places are listed; with no reason and nothing unreadable every place beneath the base is; time is the reason only when the clock stood at its limit, entries only when the budget is used up, depth only when a directory lies too deep, and a name is called unreadable, or the scan fails, only when some place resolves to an error |
| ScanJob.Job.Execute | packages/cores/file-core-native/src/secure.cc:589-601 | the same from the node that a path resolves to, or the path's own error |
| TreeScan.ComingOpened | packages/cores/file-core-native/src/secure.cc:558-588 | a directory newly opened brings every place beneath it to the scan, once |
| TreeScan.Entered | packages/cores/file-core-native/src/secure.cc:572-582 | listing a directory and descending into it keeps every place listed or still to come, exactly once |
| TreeScan.ListedOnly | packages/cores/file-core-native/src/secure.cc:572-582 | listing without descending loses only what the depth limit does not want |
| SourceListing.ListSources | packages/cores/file-core/src/listing.ts:63-135 | argument and path errors pass through, and it fails otherwise only for a base that is no directory or a place that resolves to an internal error; the chosen files are in ascending order of path, each once, each a file with a format whose path or name the folded glob accepts; the total is called exact exactly when there is neither a reason nor an unreadable name, and then every such file beneath the base is counted; each reason has its cause |
| SourceListing.EntriesDistinct | packages/cores/file-core/src/listing.ts:103-118 | a scan's entries have distinct paths |
| SourceListing.PickedRight | packages/cores/file-core/src/listing.ts:103-118 | choosing from the entries of a scan is right about each place of the tree |
| SourceListing.BasenameIs | packages/cores/file-core/src/listing.ts:113-117 | a path's last name holds no slash and ends the path, all of it or behind a slash |
| SourceListing.BasenameOfPlace | packages/cores/file-core/src/listing.ts:113-117 | the last name of a place's path is the last name of the place |
| Sha256Standard.InitialAt | packages/cores/file-core-native/src/secure.cc:413-414 | each initial word is the fraction of a square root of a prime, as section 5.3.3 of FIPS 180-4 derives it |
| Sha256Standard.ConstantAt | packages/cores/file-core-native/src/secure.cc:396-404 | each round constant is the fraction of a cube root of a prime, as section 4.2.2 of FIPS 180-4 derives it |
| Sha256Standard.PaddedLength | packages/cores/file-core-native/src/secure.cc:450-463 | padding ends on a block boundary |
| Sha256Standard.BigEndianAt | packages/cores/file-core-native/src/secure.cc:450-463 | each byte of the length field is the length shifted down |
| Sha256Standard.BytesRoundTrip | packages/cores/file-core-native/src/secure.cc:418-439 | a word is read back from its bytes |
| Sha256Standard.WordOfBytes | packages/cores/file-core-native/src/secure.cc:419-420 | the first of four bytes is the most significant |
| Sha256Standard.BigSigma0Bits | packages/cores/file-core-native/src/secure.cc:431-432 | the lowest bit is the sum of bits 2, 13 and 22, and one is sent to bits 30, 19 and 10 |
| Sha256Standard.BigSigma1Bits | packages/cores/file-core-native/src/secure.cc:427-428 | the lowest bit is the sum of bits 6, 11 and 25, and one is sent to bits 26, 21 and 7 |
| Sha256Standard.SmallSigma0Bits | packages/cores/file-core-native/src/secure.cc:421-423 | the lowest bit is the sum of bits 7, 18 and 3, and one is sent to bits 25 and 14 |
| Sha256Standard.SmallSigma1Bits | packages/cores/file-core-native/src/secure.cc:423-424 | the lowest bit is the sum of bits 17, 19 and 10, and one is sent to bits 15 and 13 |
| Sha256Standard.ChChooses | packages/cores/file-core-native/src/secure.cc:428-429 | the second word where the first has a bit, and the third elsewhere |
| Sha256Standard.MajHolds | packages/cores/file-core-native/src/secure.cc:432-434 | what two of the words have is the majority's |
| Sha256Standard.MajLacks | packages/cores/file-core-native/src/secure.cc:432-434 | what two of the words have not is not the majority's |
| Sha256Standard.ScheduledAsStandard | packages/cores/file-core-native/src/secure.cc:421-425 | the code's order of adding gives the schedule of section 6.2.2 of FIPS 180-4 |
| Sha256Standard.RoundAsStandard | packages/cores/file-core-native/src/secure.cc:427-434 | the code's order of adding gives the round of section 6.2.2 of FIPS 180-4 |
| Sha256Streaming.Sha256.Compress | packages/cores/file-core-native/src/secure.cc:418-439 | one block is compressed as section 6.2.2 of FIPS 180-4 says |
| Sha256Streaming.Sha256.Update | packages/cores/file-core-native/src/secure.cc:440-449 | however a message is cut, the object stands for all that was given |
| Sha256Streaming.PaddedIs | packages/cores/file-core-native/src/secure.cc:450-463 | what `finish` appends, in one block or in two, is the padding of section 5.1.1 of FIPS 180-4 |
| Sha256Streaming.Sha256.Finish | packages/cores/file-core-native/src/secure.cc:450-463 | the digest of the concatenation of everything given |
| FileDigest.ReadAt | packages/cores/file-core-native/src/secure.cc:493-515 | short reads are taken up until the amount is read or the file ends |
| FileDigest.CloseWindow | packages/cores/file-core-native/src/secure.cc:522-525 | true exactly when nothing lies behind the measured size and the file is what it was |
| FileDigest.DigestFile | packages/cores/file-core-native/src/secure.cc:543-557 | the digest of the whole content exactly when the content has the measured length and the file is unchanged; otherwise an error |
| Curation.VariantReplaces | packages/http/core/src/curation.ts:61-87 | a variant's declaration replaces the endpoint's own of the same name whole |
| Curation.ResolveCuration | packages/http/core/src/curation.ts:133-198 | the declarations resolve, or fail with the first error, as specified |
| Curation.FaultIsFirst | packages/http/core/src/curation.ts:147-165 | declarations resolve exactly when each names an argument of the kept or of a folded route and leaves out nothing required; otherwise the error is that of the first that does not |
| Curation.ResolvedAsDeclared | packages/http/core/src/curation.ts:166-178 | an argument declared once is hidden and named as its declaration says, and nothing else is curated |
| Curation.AgentNamesUnique | packages/http/core/src/curation.ts:200-223 | true exactly when no two visible arguments have one name |
| Curation.ResolutionApart | packages/http/core/src/curation.ts:133-223 | a curation that resolves over distinct wire names leaves the visible names distinct |
| Curation.VisibleApart | packages/http/core/src/curation.ts:200-223 | two visible arguments with one name are one argument |
| RequestSchema.BuildInputSchema | packages/http/core/src/tool-definition.ts:212-347 | the input schema under a curation: a key is required exactly when the agent must send it, no key is required twice, and every required key is published |
| RequestSchema.PublishedKeys | packages/http/core/src/tool-definition.ts:266-314 | a key is published exactly for a visible wire name, under its agent-facing name |
| RequestSchema.RequiredIsPublished | packages/http/core/src/tool-definition.ts:282-331 | what is required is published |
| RequestSchema.RequiredExactly | packages/http/core/src/tool-definition.ts:282-331 | a key is required exactly when it is the agent name of a visible required parameter, of a visible root whose body is not optional, or of a visible required field under which something is published; no key is required twice |
| RequestSchema.RootExactly | packages/http/core/src/tool-definition.ts:92-196 | a body travels as one argument exactly when it is optional, is not an object or cannot be flattened, or shares a field's name with a parameter |
| RequestTemplates.CreateRequestTemplate | packages/http/core/src/tool.ts:257-397 | the template of the same endpoint and curation, or the error of the name checks |
| RequestTemplates.AllowedArgumentNames | packages/http/core/src/request-template.ts:679-704 | the loops collect the names an agent may use |
| RequestTemplates.DeniedArgumentNames | packages/http/core/src/request-template.ts:711-730 | the loops collect the wire names that curation took away |
| RequestTemplates.BuildTable | packages/http/core/src/request-composer.ts:436-454 | the table from agent-facing names to wire names |
| RequestAgreement.PublishedExactly | packages/http/core/src/tool-definition.ts:212-347 | the published keys are the template's allowed names exactly when the body root keeps its name, every name given to a hidden field is some visible argument's too, and every visible field whose new name a hidden one took is called by a name that is shown |
| RequestAgreement.RootLost | packages/http/core/src/tool.ts:342-354 | under any curation, a renamed root is published under a name that the template does not allow |
| RequestAgreement.AcceptedExactly | packages/http/core/src/request-composer.ts:625-648 | under any curation, a key is accepted just when it is published, or is not refused and the schema admits extra keys: for all keys exactly when no visible name is refused as a wire name, the root keeps its name, and, for a closed body, no name given to a hidden field is accepted unpublished and no field's new name was taken |
| RequestAgreement.AllowedIs | packages/http/core/src/request-template.ts:679-704 | under any curation, a name is allowed when a visible parameter is called so, when any field, hidden or not, was renamed to it, when it is a visible field without an alias, or the visible root |
| RequestAgreement.DeniedIs | packages/http/core/src/request-template.ts:711-730 | under any curation, the denied names are the wire names of what is hidden or renamed, but for a visible field whose new name another field took |
| RequestAgreement.KeysReachTheirSlots | packages/http/core/src/request-composer.ts:436-454 | a published key is translated to the wire name whose schema it was published with, exactly when no hidden argument holds that name and it is not a renamed root's |
| RequestAgreement.TableIs | packages/http/core/src/request-composer.ts:436-454 | the table sends a name to the last field renamed to it, or else to the last such parameter |
| RequestCaptures.BothCaptures | packages/http/core/src/curation.ts:200-223 | a parameter both hidden and renamed to another's name takes what is sent to the other, though every check passes |
| RequestCaptures.HiddenFieldWritten | packages/http/core/src/tool.ts:366-381 | an optional body field left out and renamed is not published, its new name is accepted, and the value sent under it is in the request |
| RequestCaptures.HiddenCarriesFillExactly | packages/http/core/src/request-composer.ts:542-576 | for all argument lists and values a hidden slot carries its fill or nothing, exactly when no hidden argument that may be without a fill is reached by a new name of its own, or no request can be composed at all; what its fill is, is said by the curation's own words (`HiddenFill`) |
| RequestCaptures.AcceptedIsCarriedExactly | packages/http/core/src/request-composer.ts:39-254 | for all argument lists and values what was accepted stands in its slot, exactly when no hidden argument that may have a fill is reached by a new name of its own, or no request can be composed at all |
| RequestCaptures.ReachedExactly | packages/http/core/src/request-composer.ts:625-648 | the condition on names says exactly when some accepted key leads to a parameter's or a hidden field's slot |
| RequestCaptures.AbsentableExactly | packages/http/core/src/request-composer.ts:456-491 | the condition on fills says exactly when some values suffice for every hidden argument and leave this one without |
| RequestCaptures.ComposableExactly | packages/http/core/src/request-composer.ts:39-69 | some argument list composes exactly when each path parameter without a fill is reached by its name and every constant can be written |
| RequestCaptures.HiddenAloneHolds | packages/http/core/src/request-template.ts:711-730 | an argument that is hidden and keeps its name is never reached |
| RequestComposition.RejectUnknown | packages/http/core/src/request-composer.ts:625-648 | refused exactly when some key is not accepted |
| RequestComposition.Translate | packages/http/core/src/request-composer.ts:436-454 | each entry under its wire name |
| RequestComposition.ApplyFills | packages/http/core/src/request-composer.ts:542-576 | hidden slots are filled, left out, or reported as missing |
| RequestComposition.WriteParameters | packages/http/core/src/request-composer.ts:52-184 | one location's parameters that are written, or the first error |
| RequestComposition.Compose | packages/http/core/src/request-composer.ts:39-254 | the composed request, or the first error, as specified |
| RequestConservation.AcceptedLeads | packages/http/core/src/request-composer.ts:625-648 | under any curation, an accepted key leads to the argument of that name, or to one whose new name is out of use, or stays itself as an extra field of an open body; a hidden argument is led to only by the name it holds |
| RequestConservation.AcceptedApart | packages/http/core/src/request-composer.ts:436-454 | under any curation, two accepted keys never share a slot |
| RequestConservation.TranslatedHolds | packages/http/core/src/request-composer.ts:436-454 | under any curation, translation loses no accepted entry |
| RequestConservation.TranslatedBack | packages/http/core/src/request-composer.ts:436-454 | translation adds no entry |
| RequestConservation.AcceptedIsCarried | packages/http/core/src/request-composer.ts:39-254 | under any curation, what was sent under an accepted key stands in its slot, unless it is an empty array parameter or the slot is hidden and has a fill |
| RequestConservation.HiddenCarries | packages/http/core/src/request-composer.ts:542-576 | under any curation, a hidden slot carries its fill, or without one what an accepted argument led there, or nothing; the fill is the constant, or the deferred value unless it is missing, or nothing |
| RequestConservation.HiddenFillIs | packages/http/core/src/request-composer.ts:456-489 | for each hidden argument what `resolveFill` answers is its constant; its deferred value, unless that is missing or, for a parameter, null; an error exactly when such a value is missing and the operation needs one; nothing when it is left out |
| RequestConservation.DemandedIs | packages/http/core/src/tool.ts:283-397 | a hidden argument is marked as required exactly when it is a required or path parameter, a body that is not optional, or a required field |
| RequestErrors.RefusedExactly | packages/http/core/src/request-composer.ts:39-254 | for every argument list and deferred values, composing fails exactly when there is a reason, and with the first: an argument not accepted, a hidden argument in want of a value, a path parameter with nothing to put in its place, a null for another parameter, a hidden body in want of a value |
| RequestErrors.FillsFailExactly | packages/http/core/src/request-composer.ts:542-576 | the fills fail exactly when some hidden argument waits for a value that the operation needs |
| RequestConservation.CarriedWasSent | packages/http/core/src/request-composer.ts:39-254 | what a visible slot carries was sent under some key |
| PercentCoding.DecodeEncode | packages/http/core/src/wire-encoding.ts:15-33 | decoding undoes both encodings (section 2.1 of RFC 3986) |
| PercentCoding.EncodedChars | packages/http/core/src/wire-encoding.ts:15-33 | encoded text holds unreserved characters, percent signs and, where allowed, the kept reserved ones |
| PercentCoding.SplitJoinExactly | packages/http/core/src/request-composer.ts:107-122 | joined items split back exactly when none holds the separator |
| QueryText.ComposeQuery | packages/http/core/src/request-composer.ts:71-138 | the query's text splits at ampersands and first equals signs into the pairs of the arguments in template order |
| QueryText.QueryReadsBack | packages/http/core/src/request-composer.ts:71-138 | the same about the text of any argument list |
| QueryText.PairDecodes | packages/http/core/src/request-composer.ts:124-132 | name and value of a pair decode to what was given |
| QueryMeaning.QuerySaysExactly | packages/http/core/src/request-composer.ts:71-138 | the whole query, split, cut and decoded, gives every name and value in template order exactly when no item of a space-delimited array holds a space |
| QueryText.DelimitedReadsBack | packages/http/core/src/request-composer.ts:99-122 | comma- and pipe-joined arrays split and decode to their items, reserved characters allowed or not |
| QueryText.MemberKeyReadsBack | packages/http/core/src/wire-encoding.ts:42-51 | a member's key reads back as group and member |
| BlankDelimiter.BlankReadsBackExactly | packages/http/core/src/request-composer.ts:99-122 | a space-delimited array reads back exactly when no item holds a space |
| CookieText.HeaderReadsBack | packages/http/core/src/request-composer.ts:184-222 | the header splits into the cookies in order (section 4.2.1 of RFC 6265) |
| CookieText.ValueReadsBack | packages/http/core/src/request-composer.ts:378-390 | a cookie's value splits and decodes to its items |
| CookieMerge.MergeCookieHeader | packages/http/core/src/request-composer.ts:399-418 | refused exactly when carried and composed cookies share a name, and then for the first shared one; otherwise the header names what both name, the carried first |
| CookieMerge.JoinedNames | packages/http/core/src/request-composer.ts:420-426 | the names of two headers joined are the names of the first and then of the second |
| PathSegments.OneReadsBack | packages/http/core/src/request-composer.ts:338-376 | a single value reads back in every style |
| PathSegments.ManyReadBack | packages/http/core/src/request-composer.ts:338-376 | items read back in every style but the exploded label |
| PathSegments.ExplodedLabelExactly | packages/http/core/src/request-composer.ts:338-376 | an exploded label reads back exactly when no item is written with a dot |
| PathSegments.SegmentBraceless | packages/http/core/src/wire-encoding.ts:28-33 | a written segment holds no brace and no dollar sign |
| RoutePlaceholders.FillRoute | packages/http/core/src/request-composer.ts:51-69 | on any route and any parameters the loop is the turns one after another, and without a clash of names it is replacing all at once |
| RoutePlaceholders.InTurnExactly | packages/http/core/src/request-composer.ts:51-69 | for parameters in one order, the turns give what replacing all at once gives for all segments exactly when none comes before one whose name ends with an opening brace and its own |
| RoutePlaceholders.AnyOrderExactly | packages/http/core/src/request-composer.ts:51-69 | for all orders and segments, the turns give what replacing all at once gives exactly when no placeholder's name ends with an opening brace and a parameter's name |
| RoutePlaceholders.ParseIsRouted | packages/http/core/src/request-template.ts:733-742 | every route is read into literals and placeholders whose names hold no stop character, with no placeholder among the literals |
| RoutePlaceholders.ParseBack | packages/http/core/src/request-template.ts:843-846 | reading a normalized route again gives the same placeholders |
| RoutePlaceholders.BraceNamesClash | packages/http/core/src/request-composer.ts:51-69 | in a route `{{a}{a}` with `a` first, the other placeholder keeps a brace and takes the wrong segment |
| MultipartText.WriteMultipart | packages/http/core/src/body-writer.ts:105-135 | the body of any parts, which a reader by section 5.1.1 of RFC 2046 takes apart again when the boundary occurs in no part and media types are one line |
| MultipartText.BodyReadsBack | packages/http/core/src/body-writer.ts:105-135 | the same parts in the same order with the same media types and content, and with names and file names as they were quoted |
| MultipartText.BodyIsItselfExactly | packages/http/core/src/body-writer.ts:105-135 | the parts read back with the names and file names that were given exactly when no name holds a quote or a line end and no file name a quote |
| MultipartText.UnquotedExactly | packages/http/core/src/body-writer.ts:27-34 | a reader that undoes the escapes gets a name back exactly when no escape stood in it already |
| MultipartText.DispositionReadsBack | packages/http/core/src/body-writer.ts:36-50 | name and fallback file name, as quoted, and the extended file name whole are read back from a disposition |
| MultipartText.QuotedExactly | packages/http/core/src/body-writer.ts:27-34 | quoting changes nothing exactly when there is no quote and no line end |
| InlineFiles.ReadFile | packages/http/core/src/request-body.ts:143-240 | a file argument that is read has a source that is offered, with the content it holds under it; base64 passes the strict gate |
| InlineFiles.LengthIsDecoded | packages/http/core/src/request-body.ts:109-112 | counting a text that passes the gate is decoding it and counting its bytes |
| InlineFiles.EncodedCounts | packages/http/core/src/request-body.ts:91-112 | the base64 text of any bytes passes the gate and is counted as their number (section 4 of RFC 4648) |
| InlineFiles.AssertInlineBudget | packages/http/core/src/request-body.ts:366-386 | refused exactly when the inline files decode to more than the limit |
| FormFields.EmitFields | packages/http/core/src/request-body.ts:254-364 | the walk writes what each declared field says, in order, or ends in the first error |
| FormFields.ScalarsAre | packages/http/core/src/wire-encoding.ts:53-84 | a scalar is written exactly when it is of its field's kind, a text or a number as it is |
| FormFields.FlagsAre | packages/http/core/src/wire-encoding.ts:74-78 | a flag is written `true` or `false`, as it is |
| FormReading.FieldHolds | packages/http/core/src/request-body.ts:254-364 | in the slots of a field there is what that field wrote and nothing from another |
| FormReading.MemberHolds | packages/http/core/src/request-body.ts:292-325 | in the slot of a member there is what that member wrote and nothing from another |
| FormReading.KeysApartExactly | packages/http/core/src/wire-encoding.ts:42-51 | each slot has a key of its own exactly when no field's name spells a member, as `group.member`, or unencoded as `group[member]` |
| FormReading.ClashIsKey | packages/http/core/src/wire-encoding.ts:42-51 | a field and a member share a key exactly when the field's name spells the member so |
| FormReading.BracketsNeverClash | packages/http/core/src/wire-encoding.ts:42-51 | percent-encoded bracket keys are always apart |
| FormReading.DotsClash | packages/http/core/src/wire-encoding.ts:42-51 | the field `a.b` has the key of member `b` of `a` |
| FormReading.BodyReadsBack | packages/http/core/src/request-body.ts:446-456 | from a urlencoded body a reader gets, under each slot's key, the texts that the slot's field wrote, in order, and nothing else |
| FormReading.EncodeUrlEncoded | packages/http/core/src/request-body.ts:446-456 | the error of the walk, or a body that splits into the pairs of its entries |
| FormReading.EncodeMultipart | packages/http/core/src/request-body.ts:457-461 | the error of the walk, or its entries, or too large exactly when their inline files decode to more than the limit |
| JsonRoundTrip.ParseStringified | sdks/dotnet/src/Liaiso.AspNetCore/CanonicalJson.cs:16-116 | an RFC 8259 parser gives back every value from its text |
| JsonRoundTrip.ValueBack | sdks/dotnet/src/Liaiso.AspNetCore/CanonicalJson.cs:23-73 | parsing undoes printing whatever follows the value |
| JsonWriter.Stringify | sdks/dotnet/src/Liaiso.AspNetCore/CanonicalJson.cs:16-21 | the builder's loops write the value's text |
| JsonWriter.WriteString | sdks/dotnet/src/Liaiso.AspNetCore/CanonicalJson.cs:75-116 | the builder gains the quoted and escaped string |
| JsonText.CharLength | sdks/dotnet/src/Liaiso.AspNetCore/CanonicalJson.cs:75-116 | a character is written as itself, as a short escape where JSON has one, or else by its number |
| CanonicalForm.CanonicalExactly | packages/http/core/src/tool-definition.ts:426-438 | two values have one canonical text exactly when they are equal up to key order at every depth |
| CanonicalForm.SortedSame | packages/http/core/src/tool-definition.ts:426-438 | values with one sorted form are equal up to key order |
| Utf8Text.DecodeEncode | packages/cores/mcp-core/src/unicode.ts:47-60 | decoding undoes UTF-8 (section 3 of RFC 3629) |
| Utf8Text.TruncateUtf8 | packages/cores/mcp-core/src/unicode.ts:47-60 | the longest prefix of whole characters within the limit, or nothing |
| Utf8Text.Boundaries | packages/cores/mcp-core/src/payload.ts:53-61 | exactly the places where characters start or the text ends |
| Utf16Text.TruncatedIsLongest | packages/cores/mcp-core/src/unicode.ts:38-45 | the longest well-formed prefix within the limit |
| PayloadBudget.ClampJsonField | packages/cores/mcp-core/src/payload.ts:63-88 | the longest prefix whose measured field fits, or the empty one |
| PayloadBudget.PageBudget.Admit | packages/cores/mcp-core/src/payload.ts:20-51 | the page holds the longest run of offered items, from the first on, that fits |
| ToolErrors.ToToolError | packages/cores/mcp-core/src/tools.ts:115-146 | code kept, message cut to the longest that fits; within the limit whenever the envelope with an empty message is |
| ToolErrors.PayloadBytes | packages/cores/mcp-core/src/tools.ts:148-156 | the sum of the blocks' bytes |
| ToolErrors.Guard | packages/cores/mcp-core/src/tools.ts:176-217 | a result that fits passes unchanged; everything else leaves as an envelope with its code, within the limit whenever the smallest envelope is |
| EnvelopeText.EnvelopeIsMeasured | packages/cores/mcp-core/src/tools.ts:101-131 | the size by which an envelope is bounded is the number of UTF-8 octets of its JSON text |
| EnvelopeText.PageIsMeasured | packages/cores/mcp-core/src/payload.ts:20-51 | what a page is charged for its items is the JSON text of their array, without the brackets |
| EnvelopeText.SizeIsEncoded | packages/cores/mcp-core/src/payload.ts:3-6 | the size of a text is the number of its UTF-8 octets |
| GlobPatterns.GlobMatches | packages/cores/file-core/src/listing.ts:11-39 | the table accepts exactly the values that can be cut into pieces that fit the pattern's tokens |
| GlobPatterns.AcceptsSnoc | packages/cores/file-core/src/listing.ts:11-39 | with one token more, a value is accepted when some prefix was and the rest fits the token |
| GlobPatterns.StepStar | packages/cores/file-core/src/listing.ts:19-27 | a star takes nothing, or one character more than it took before |
| RouteGlobs.SourceReadsBack | packages/http/core/src/route-glob.ts:8-24 | the regular expression built from any pattern is well formed and reads back as the pattern's tokens |
| RouteGlobs.RouteMatchesExactly | packages/http/core/src/route-glob.ts:8-24 | it matches exactly the values so cut whose catch-all pieces hold no line end |
| RouteGlobs.EnginesAgree | packages/http/core/src/route-glob.ts:8-24 | without a question mark, and on values of one line or without a catch-all, both engines agree |
| RouteGlobs.AgreeExactly | packages/http/core/src/route-glob.ts:8-24 | both engines agree on every value exactly when the pattern has neither a question mark nor a catch-all |
| RouteGlobs.QuestionMarkParts | packages/cores/file-core/src/listing.ts:29-35 | every pattern with a question mark has a value that the table accepts and the expression does not |
| RouteGlobs.LineBreakParts | packages/http/core/src/route-glob.ts:8-24 | for every pattern with a catch-all and no question mark, the table accepts a value of many lines that the expression does not |
| Residency.RunKeeps | packages/servers/xml-mcp/src/xml-worker.ts:32-121 | after every run of messages the names are a bijection onto the residents, the residents are in order of last use and within capacity, and every document made is accounted for |
| Residency.DisposedOnce | packages/servers/xml-mcp/src/xml-worker.ts:35-42 | each document ever made is resident and undisposed, or was disposed of exactly once |
| Residency.EvictsLeastRecent | packages/servers/xml-mcp/src/xml-worker.ts:52-65 | only the excess goes, and each document that goes was used before all that stay |
| Residency.AnswersAreLive | packages/servers/xml-mcp/src/xml-worker.ts:75-83 | no answer is read from a disposed document, nor from one made for another stamp |
| Residency.ParseTakesName | packages/servers/xml-mcp/src/xml-worker.ts:85-113 | a parse that succeeds, with room, leaves its stamp resident under its name and the name's older document gone and disposed of |
| XmlWorkers.XmlWorker.Forget | packages/servers/xml-mcp/src/xml-worker.ts:35-42 | a resident stamp is disposed of and deleted; another changes nothing |
| XmlWorkers.XmlWorker.Supersede | packages/servers/xml-mcp/src/xml-worker.ts:44-50 | a name's other stamp is forgotten and the name set |
| XmlWorkers.XmlWorker.Evict | packages/servers/xml-mcp/src/xml-worker.ts:52-65 | the loops drop exactly the excess at the front, with its names |
| XmlWorkers.XmlWorker.Touch | packages/servers/xml-mcp/src/xml-worker.ts:75-83 | a resident stamp is moved last |
| XmlWorkers.XmlWorker.Adopt | packages/servers/xml-mcp/src/xml-worker.ts:85-113 | a resident stamp is used again; otherwise what the parse makes is kept or disposed of |
| XmlWorkers.XmlWorker.ReleaseAll | packages/servers/xml-mcp/src/xml-worker.ts:115-121 | every resident is disposed of, once, and both tables are empty |
| XmlWorkers.XmlWorker.Handle | packages/servers/xml-mcp/src/xml-worker.ts:131-238 | one message is one step of the specified run, with its reply |
| XmlWorkers.XmlWorker.Serve | packages/servers/xml-mcp/src/xml-worker.ts:131-238 | a worker fed any messages is in the state of that run, and all invariants hold |
| DocumentStores.BoundedIsLast | packages/cores/file-core/src/documents.ts:77-91 | a store after any history holds the keys last remembered, up to its limit |
| DocumentStores.UnboundedMeans | packages/cores/file-core/src/documents.ts:77-91 | without a limit it holds each key once, in order of last use, with its latest document |
| DocumentStores.FoundIsLatest | packages/cores/file-core/src/documents.ts:77-91 | what a key finds is what was last remembered for it |
| DocumentStores.DroppedIsOlder | packages/cores/file-core/src/documents.ts:77-91 | a key that is gone was used before every key that is kept, and the store is full |
| DocumentStores.KeptIsFresh | packages/cores/file-core/src/documents.ts:127-140 | with stamp and time equal, a kept document is what a fresh parse would make |
| DocumentStores.DocumentStore.Remember | packages/cores/file-core/src/documents.ts:77-91 | the key is last, and the store is that of the longer history |
| DocumentStores.DocumentStore.Begin | packages/cores/file-core/src/documents.ts:100-140 | a hit answers what a fresh parse would; an error is the read's own; anything else waits for its parse |
| DocumentStores.DocumentStore.Finish | packages/cores/file-core/src/documents.ts:141-160 | after its parse a load answers the same whatever other loads did meanwhile |
| DocumentStores.DocumentStore.Load | packages/cores/file-core/src/documents.ts:100-160 | the answer is that of a fresh parse of the bytes just read |
| OperationFolding.DeduplicateOperations | packages/http/core/src/naming.ts:172-220 | the pass over the items gives the folded operations in order of first occurrence, and a report for every group that folded something |
| Folding.BestMeans | packages/http/core/src/naming.ts:160-165 | the kept item is in its group, no route in it is shorter, and it is the first of the shortest |
| Folding.GatheredAll | packages/http/core/src/naming.ts:172-220 | groups and items without an operation are a partition of the items |
| Folding.NothingLost | packages/http/core/src/naming.ts:172-220 | when no object is listed twice, kept and reported items together are the items given |
| Folding.FoldIsWholeExactly | packages/http/core/src/naming.ts:210-218 | kept and folded are the whole group exactly when the kept object is in it once |
| Folding.KeptExactly | packages/http/core/src/naming.ts:160-220 | an operation is kept with a route exactly when that is the shortest of its items' routes |
| Folding.OrderIrrelevant | packages/http/core/src/naming.ts:172-220 | the operations kept, each with its route, are the same for the items in any other order |
| Folding.FoldedAgain | packages/http/core/src/naming.ts:172-220 | folding twice is folding once |

## Left out

- The Windows branches of `secure.cc`, system calls, permissions beyond a node that cannot be opened, races and changes
  during a scan: the tree is static, `realpath` is a function, and the clock is an arbitrary function of the turn.
- Tokenising, folding and trimming by Unicode tables, upper case, and number-to-text conversion: they are parameters,
  or texts are carried as they are.
- IEEE rounding: scores are reals, and `log` is any function that is positive above one, and increasing where rarity is
  compared.
- ToolIndexes.ToolIndex.Search: the limit is an integer; a fractional or not-a-number limit is not modelled.
- Messages of errors and diagnostics, except for the message that an error envelope carries; which error is raised is
  modelled.
- The type and media-type gates of templates, styles of parameters, content parameters and the querystring location,
  and the members of object parameters in `rejectUnknownMembers`: they decide whether a template exists or what one
  value looks like, not which slot it reaches.
- RequestComposition.Compose: follows names and values into slots; the texts of the slots are the subject of the wire
  modules.
- RoutePlaceholders.InTurnExactly: segments are any text without braces, which those that `pathSegment` writes are
  (`SegmentBraceless`), and every placeholder has its parameter, as templates are checked for.
- RequestSchema.BuildInputSchema: carries for each key the wire name whose schema is published; the schemas, their
  descriptions and the lifting of `$defs` are not modelled.
- RequestTemplates.CreateRequestTemplate: only the checks on names and on required arguments are modelled.
- RequestComposition.WriteParameters: which value each parameter writes, without type errors; the texts are the subject
  of the wire modules.
- MultipartText.WriteMultipart: a reader gets names as they were quoted; `BodyIsItselfExactly` and `UnquotedExactly`
  say when that loses nothing.
- QueryMeaning.QuerySaysExactly: the reader knows how each pair was written, and member names hold no dots, as
  templates are checked for.
- SchemaValues.DocumentAdmitsExactly: what literals, patterns, formats and a host's own schema beyond its type say is a
  parameter, the same on both sides.
- SchemaWriter.SimplifySchema: a keyword beside a `$ref` is read over the definition's, except description and format,
  where the definition's own comes first; the order of members in `properties` is not kept, since they are a map, and
  the reading is about documents with distinct definition names and no cycle of wrappers only (`NamesDistinctExactly`,
  `NamesRepeat` and `ReadableExactly` say when those fail).
- SchemaWriter.RunRefsNamed: speaks of the references the writer writes; a schema the host wrote itself is carried as
  it is and may hold references of its own.
- InlineFiles.ReadFile: the safe file name and the media-type grammar are parameters, and names and media types of the
  result are not carried.
- Lone surrogates: strings with them are not texts in UTF-8, and JSON strings are sequences of characters without them.
- SourceListing.ListSources: the check that a subdirectory lies lexically within the root, file sizes and times are not
  modelled.
- DocumentStores.DocumentStore.Load: parsing is a function of context and variant key, and the fingerprint is taken as
  injective.
- Residency.RunKeeps: XML documents are opaque; what queries compute from them is not modelled.
- The text of header values, and the refusal of control characters in them; `readSnapshot` and `readWindow`, which read
  what `digestFile` reads.
- Streams and fetching in `writeBody`, the binary and text bodies of `encodeBody`, and the C# request composer, a twin
  of the modelled one.
- The heuristics made of long regular expressions, network, transport, server wiring and command lines.
