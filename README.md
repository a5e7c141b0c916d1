# nix-weather, modelled in Dafny

nix-weather measures how much of a Nix derivation's closure is already
available in binary caches. It reads a `.drv` file and gathers its
build-time closure into a store cache. It asks each cache root for the
`.narinfo` record of every output. It then walks the runtime closure and
reports coverage: how many paths were found, their file and NAR sizes, and
the sorted names of what is missing.

This project models the deterministic core of that pipeline:
- the `.drv` grammar and the `.narinfo` line grammar, as parsers from
  `seq<char>` to `Option<(value, rest)>`, with printers that they invert;
- the identification of store hashes from file names and paths;
- the `StoreCache`:
  - the memoised discovery of the build-time closure;
  - the candidates for fetching;
  - the per-hash retry and backoff search over the cache roots;
  - the merge of fetched records;
- the runtime `Closure`: its depth-first walk and the coverage statistics;
- `read_drv` and `gather_closure` of the command-line tool.

The parsers are pure functions. The cache, the closure set and the
command-line tool's path map are classes whose methods update their fields
in the source's order. Each method is proved against ghost functions
and predicates that say what the state means. Lemmas relate the
functions to their inverses and invariants.

Modules:
- `Wrappers`: `Option`.
- `Derivation` and `DerivationProofs`: the `.drv` parsers; the printer and
  the round-trip, escape, list and struct lemmas; the test vectors.
- `Narinfo` and `NarinfoProofs`: the `.narinfo` parsers; the printer,
  the round trip, and the `404` and empty-value cases.
- `StorePaths`: store hashes, `split`, `from_name`, `from_path` and
  `split_path`.
- `Fetch`: one request's outcome, the attempt loop at one root, and the
  search over the roots.
- `Store`: store items, discovery, candidates and the merge
  (`StoreCache`).
- `SortedNames`: `sort` followed by `dedup` on names.
- `Runtime`: `add_runtime_closure_of`, `process` and
  `coverage_statistics` (`Closure`).
- `Gather`: `read_drv`, `add_to_closure` and `gather_closure`
  (`DrvClosure`).

Input text is a sequence of characters, each standing for one byte.
`String::from_utf8_lossy` is the identity. The file system, the HTTP client,
`Drv::find_name`, `InputDrv::resolve`, and the splitting of a `References`
line into names are parameters of the operations that use them:
- `files`, `load` and `read` stand for the file system;
- `fetch` and `fetchFor` stand for the HTTP client;
- `findName` stands for `Drv::find_name`;
- `resolve` stands for `InputDrv::resolve`;
- `refNames` stands for the splitting of a `References` line.

Recursions the source leaves unbounded (discovery, gathering, the runtime
walk) terminate on a ghost finite `universe` of hashes or paths. Each step
removes one more element from it.

## Model

| member | source | states |
|---|---|---|
| Derivation.Tag | src/derivation.rs:117 | a literal tag succeeds exactly when it prefixes the input, and leaves what follows it |
| Derivation.OptComma | src/derivation.rs:50 | `opt!(comma)` leaves the input unchanged or removes one leading comma |
| Derivation.Field | src/derivation.rs:63 | a struct field succeeds exactly when its parser does, with the same value, consuming at least as much |
| Derivation.ParseDrv | src/derivation.rs:115-130 | a parsed derivation starts with `Derive` and consumes input, returning the remainder |
| Derivation.StringBody | src/derivation.rs:30-42 | the body parser consumes input; what it accepts and refuses is stated by `DerivationProofs.ScanStops` and `DerivationProofs.StringBodyOfEscape` |
| Derivation.ParseString | src/derivation.rs:28-43 | `string` consumes at least its opening quote; `DerivationProofs.ParseQuote`, `ScanStops` and the failure lemmas state what it accepts |
| Derivation.Elements | src/derivation.rs:75-78 | the separated list never returns more than its input; `DerivationProofs.ElementsOfShow` states what it reads |
| Derivation.MoreElements | src/derivation.rs:75-78 | the elements after the first never return more than the input; `MoreElementsStep`, `MoreElementsStopBase` and `MoreElementsBeforeTrailingComma` state how it continues and stops |
| Derivation.ListOf | src/derivation.rs:71-82 | a list consumes at least its brackets; `DerivationProofs.ListRoundTrip` and `TrailingCommaFails` state what it accepts |
| Derivation.StringList | src/derivation.rs:109 | consumes input; `DerivationProofs.StringListRoundTrip` states what it reads |
| Derivation.ParseDrvOutput | src/derivation.rs:84-93 | consumes input; `DerivationProofs.DrvOutputRoundTrip` and `DrvOutputVector` state what it reads |
| Derivation.ParseInputDrv | src/derivation.rs:95-102 | consumes input; `DerivationProofs.InputDrvRoundTrip` and `InputDrvVector` state what it reads |
| Derivation.ParseEnvPair | src/derivation.rs:112 | consumes input; `DerivationProofs.EnvPairRoundTrip`, `EnvPairTrailingComma` and `EnvPairNoCommas` state what it reads |
| Derivation.DrvOutputList | src/derivation.rs:110 | consumes input; `DerivationProofs.DrvOutputListRoundTrip` states what it reads |
| Derivation.InputDrvList | src/derivation.rs:111 | consumes input; `DerivationProofs.InputDrvListRoundTrip` states what it reads |
| Derivation.EnvList | src/derivation.rs:113 | consumes input; `DerivationProofs.EnvListRoundTrip` states what it reads |
| DerivationProofs.StringBodyOfEscape | src/derivation.rs:33-38 | the escaped body of any string, then a closing quote, reads back as that string and leaves what follows |
| DerivationProofs.ParseQuote | src/derivation.rs:28-43 | any string, escaped and quoted, parses back to itself and leaves what follows |
| DerivationProofs.QuoteInverse | src/derivation.rs:28-43 | `string` is a left inverse of quoting, whatever follows |
| DerivationProofs.OpenBodyCloses | src/derivation.rs:30-42 | after any open body (plain characters and the four escapes), a quote ends the string, consumed, leaving the rest |
| DerivationProofs.ScanStops | src/derivation.rs:30-42 | the body parser reads the longest open body and succeeds exactly when a quote follows it; otherwise it stops at the end of the input or at a backslash not starting one of the four escapes |
| DerivationProofs.PlainIsOpen | src/derivation.rs:33 | text without `\` or `"` is an open body |
| DerivationProofs.EscapeIsOpen | src/derivation.rs:33-38 | any escaped text, including `\\` and `\"`, is an open body |
| DerivationProofs.UnknownEscapeFails | src/derivation.rs:33-38 | after any open body, a backslash followed by anything but `\`, `"`, `n` or `t` makes the string fail |
| DerivationProofs.DanglingBackslashFails | src/derivation.rs:33-38 | after any open body, a backslash at the end of the input makes the string fail |
| DerivationProofs.UnterminatedFails | src/derivation.rs:41 | an open body that runs to the end of the input, without its closing quote, fails |
| DerivationProofs.StringVectorPlain | src/derivation.rs:134-137 | a quoted plain text (`foo`, the empty string, `foo/bar`) parses to itself with nothing left |
| DerivationProofs.StringVectorsEscaped | src/derivation.rs:138-141 | the four escape vectors parse to `"`, `\`, tab and newline with nothing left |
| DerivationProofs.EscapeThenClose | src/derivation.rs:33-38 | each accepted escape is replaced by the character it stands for |
| DerivationProofs.MoreElementsOfTail | src/derivation.rs:75-78 | after a first element, comma-separated printed elements are read up to the closing bracket |
| DerivationProofs.ElementsOfShow | src/derivation.rs:75-78 | printed elements separated by commas read back as the elements, stopping at `]` |
| DerivationProofs.ListRoundTrip | src/derivation.rs:71-82 | a printed list parses back to its elements and leaves what follows |
| DerivationProofs.MoreElementsStep | src/derivation.rs:75-78 | a comma followed by an element continues the list |
| DerivationProofs.MoreElementsStopBase | src/derivation.rs:75-78 | text that is not a comma followed by an element ends the list, unconsumed |
| DerivationProofs.MoreElementsBeforeTrailingComma | src/derivation.rs:75-78 | a comma before `]` is left unconsumed by the separated list |
| DerivationProofs.TrailingCommaFails | src/derivation.rs:71-82 | a non-empty list with a comma before `]` fails |
| DerivationProofs.EmptyListVectors | src/derivation.rs:71-82 | `[]` is the empty list and `[,]` fails |
| DerivationProofs.ListVectorText | src/derivation.rs:151-155 | how a one-element list prints, with and without a trailing comma |
| DerivationProofs.ListVectors | src/derivation.rs:151-155 | `["x"]` parses to `[x]` with nothing left; `["x",]` fails |
| DerivationProofs.FieldThenComma | src/derivation.rs:58-69 | a struct field followed by a comma consumes the comma |
| DerivationProofs.FieldThenClose | src/derivation.rs:58-69 | a struct field followed by `)` leaves the `)` |
| DerivationProofs.QuotedThenComma | src/derivation.rs:45-56 | a quoted field followed by a comma consumes both |
| DerivationProofs.QuotedThenClose | src/derivation.rs:45-56 | a quoted field followed by `)` leaves the `)` |
| DerivationProofs.QuotedThenQuoted | src/derivation.rs:45-56 | a quoted field needs no comma before the next field |
| DerivationProofs.EnvPairTrailingComma | src/derivation.rs:45-56 | a pair with a comma after each field, including the last, parses |
| DerivationProofs.EnvPairNoCommas | src/derivation.rs:45-56 | a pair with no commas at all parses |
| DerivationProofs.PairVectorText | src/derivation.rs:144-149 | how a pair of plain texts prints |
| DerivationProofs.PairVector | src/derivation.rs:144-149 | `("foo","bar")`, for any plain texts, parses to the pair with nothing left |
| DerivationProofs.StringListRoundTrip | src/derivation.rs:109 | a printed list of strings parses back to itself |
| DerivationProofs.DrvOutputRoundTrip | src/derivation.rs:84-93 | a printed output record parses back to itself |
| DerivationProofs.InputDrvRoundTrip | src/derivation.rs:95-102 | a printed input derivation parses back to itself |
| DerivationProofs.EnvPairRoundTrip | src/derivation.rs:112 | a printed environment pair parses back to itself |
| DerivationProofs.DrvOutputListRoundTrip | src/derivation.rs:110 | a printed list of outputs parses back to itself |
| DerivationProofs.InputDrvListRoundTrip | src/derivation.rs:111 | a printed list of input derivations parses back to itself |
| DerivationProofs.EnvListRoundTrip | src/derivation.rs:113 | a printed environment parses back to itself |
| DerivationProofs.DrvRoundTrip | src/derivation.rs:115-130 | a printed derivation parses back to itself and the text after it is returned, not rejected |
| DerivationProofs.DrvOutputVectorText | src/derivation.rs:158-159 | how the `parse_drv_output` record prints |
| DerivationProofs.DrvOutputVector | src/derivation.rs:157-166 | `("out","<path>","","")` parses to that output record with nothing left |
| DerivationProofs.InputDrvVectorText | src/derivation.rs:169-170 | how the `parse_input_drv` record prints |
| DerivationProofs.InputDrvVector | src/derivation.rs:168-175 | `("<path>",["out"])` parses to that input derivation with nothing left |
| Narinfo.Data | src/narinfo.rs:18-21 | succeeds exactly when a newline is present; a bare newline yields `"\n"`; otherwise the non-empty newline-free run before it, newline consumed |
| Narinfo.Size | src/narinfo.rs:25 | a size is a line whose text parses as a u64; `NarinfoProofs.TagSizeOfKeyLine` and `ParseU64Decimal` state which lines read as which numbers |
| Narinfo.ParseU64 | src/narinfo.rs:25 | `parse_to!(u64)` accepts only non-empty text other than a lone `+`; `NarinfoProofs.ParseU64Decimal`, `ParseU64Plus` and `ParseU64RejectsMinus` state what it accepts |
| Narinfo.TagData | src/narinfo.rs:29-38 | a key succeeds exactly when its tag prefixes the input and a line follows; `NarinfoProofs.TagDataOfKeyLine` states that a printed key line reads back as its value |
| Narinfo.TagSize | src/narinfo.rs:33-35 | a size key succeeds exactly when its tag prefixes the input and a size follows; `NarinfoProofs.TagSizeOfKeyLine` states that a printed size line reads back as its number |
| Narinfo.OptDeriver | src/narinfo.rs:37 | without the `Deriver: ` tag nothing is consumed and the deriver is absent; with it, the line is the deriver; `NarinfoProofs.OptDeriverOfShow` states that both forms read back |
| Narinfo.ParseNarInfo | src/narinfo.rs:27-48 | a record starts with its `StorePath: ` tag |
| Narinfo.NarInfoFrom | src/narinfo.rs:50-55 | the body `404` is absent; any other body is the parsed record, or absent when it does not parse |
| NarinfoProofs.DataOfShowLine | src/narinfo.rs:18-21 | a non-empty newline-free value followed by a newline reads back as the value |
| NarinfoProofs.DataVectors | src/narinfo.rs:57-61 | `\n` succeeds and `  foo\n` yields `  foo` with nothing left |
| NarinfoProofs.NoNewlineFails | src/narinfo.rs:18-21 | input without a newline is not a record |
| NarinfoProofs.ParseU64Decimal | src/narinfo.rs:25 | a decimal numeral parses as its value exactly when the value fits in 64 bits |
| NarinfoProofs.ParseU64Plus | src/narinfo.rs:25 | a leading `+` is accepted and ignored |
| NarinfoProofs.ParseU64RejectsMinus | src/narinfo.rs:25 | a leading `-` is refused |
| NarinfoProofs.EmptySizeFails | src/narinfo.rs:25 | an empty size value (the line `\n`) fails |
| NarinfoProofs.TagDataOfKeyLine | src/narinfo.rs:29-38 | a printed key line reads back as its value |
| NarinfoProofs.TagSizeOfKeyLine | src/narinfo.rs:33-35 | a printed size line reads back as its number |
| NarinfoProofs.OptDeriverOfShow | src/narinfo.rs:37 | a present or absent `Deriver` line reads back as that option, before the `Sig` line |
| NarinfoProofs.NarInfoRoundTrip | src/narinfo.rs:27-48 | a printed record, fields in their fixed order, parses back to itself and leaves what follows |
| NarinfoProofs.NarInfoFromRoundTrip | src/narinfo.rs:50-55 | a printed record followed by any bytes is read as that record |
| NarinfoProofs.NotFoundIsNoRecord | src/narinfo.rs:52 | the body `404` is absent, and would not parse as a record either |
| StorePaths.FromName | src/lib.rs:53-57 | the name is the hash followed by the rest of the name |
| StorePaths.Split | src/lib.rs:39-42 | the name is the hash, one separator character, and the returned name |
| StorePaths.SplitPath | src/lib.rs:44-50 | the file name is the returned hash, one separator character and the returned name; the hash is the one `from_path` gives |
| StorePaths.FromPath | src/lib.rs:60-65 | the hash is the start of the path's file name |
| StorePaths.FromNameOfHash | src/lib.rs:53-57 | `from_name` recovers the hash at the start of any name |
| StorePaths.SplitOfName | src/lib.rs:39-42 | `split` recovers the hash and name a file name was made of, whatever the separator |
| StorePaths.FileNameIsLastSegment | src/lib.rs:45-46 | `FileName`: the file name has no slash, is a suffix of the path, and is preceded by a slash unless it is the whole path |
| StorePaths.FileNameOfPath | src/lib.rs:61-62 | the file name of `dir/name` is `name` |
| StorePaths.StorePathParts | src/lib.rs:44-65 | `from_path` and `split_path` of a store path recover its hash and name |
| Fetch.LookupOf | src/lib.rs:141-149 | a transport error is a failure; a 404 status or a body that is not a record is absent; otherwise the record |
| Fetch.Attempts | src/lib.rs:159-169 | at most one sleep per remaining attempt; the root is exhausted exactly when every remaining attempt failed and slept |
| Fetch.FromRoot | src/lib.rs:153-172 | at most `max_attempts` sleeps per root; `FirstHitWins` and `NoneIffAllMiss` state the record found |
| Fetch.NotFoundBodyIsAbsent | src/lib.rs:143-148 | a body `404` or an unparsable body is treated as a 404 status |
| Fetch.TryRoot | src/lib.rs:157-169 | the attempt loop at one root computes the outcome and the delays of `Attempts` |
| Fetch.FetchFirstNarInfo | src/lib.rs:151-173 | the search over the roots computes the record and the delays of `FromRoot` |
| Fetch.Backoff | src/lib.rs:157-168 | the delays slept are 64 doubled once per earlier failure |
| Fetch.AttemptsSkipFailures | src/lib.rs:159-169 | failing attempts each sleep the next delay and move on |
| Fetch.RootOutcomes | src/lib.rs:153-169 | at one root: the first non-failure decides; found wins, absent moves on, all failures exhaust; one delay per failure |
| Fetch.FromRootStep | src/lib.rs:153-170 | a hit at a root ends the search; otherwise the next root decides |
| Fetch.FirstHitWins | src/lib.rs:151-173 | the result is the record of the first root that has one |
| Fetch.NoneIffAllMiss | src/lib.rs:153-172 | the search yields nothing exactly when no root has the record |
| Store.SourceItems | src/lib.rs:105-110 | one `Source` entry per input source, keyed by its hash, in order |
| Store.OutputItems | src/lib.rs:112-117 | one `Output` entry per output, naming the derivation's hash as deriver |
| Store.ItemKeys | src/lib.rs:105-117 | the keys written are the source hashes and the output hashes |
| Store.PutsAt | src/lib.rs:103-117 | after successive inserts a key holds its last write; other keys are untouched |
| Store.RegisteredAt | src/lib.rs:101-117 | after registration: outputs override sources, which override the derivation; other keys are unchanged |
| Store.ClosureInvariantCarries | src/lib.rs:98-99 | discovery's three facts carry the closure invariant over |
| Store.RegisteredGrown | src/lib.rs:103-117 | registration starts the discovery progress and keeps derivations within the universe |
| Store.StepGrown | src/lib.rs:119-128 | discovering one input keeps the progress facts |
| Store.FinishGrown | src/lib.rs:119-128 | once all inputs are keys, every hash the derivation mentions is a key |
| Store.StoreCache.constructor | src/lib.rs:92-93 | the cache starts empty |
| Store.StoreCache.RegisterDrv | src/lib.rs:103-117 | inserts the derivation, then each source, then each output, as `Registered` says |
| Store.Walk | src/lib.rs:100-129 | discovery as a recursive definition over the cache: the keys grow by at least the hash, and cached derivations stay within the universe |
| Store.WalkInputs | src/lib.rs:119-128 | the input derivations from the `i`-th on, discovered in turn: keys only grow, derivations stay within the universe |
| Store.WalkInputsStep | src/lib.rs:120-127 | the `i`-th input is discovered first, with the derivation cached at its hash or else the one read from its path |
| Store.StoreCache.Discover | src/lib.rs:100-129 | the cache becomes `Walk` of the old one: no-op if present; keys only grow; every hash the derivation mentions becomes a key; the hash holds the derivation unless a later write replaced it; the one-step closure invariant is preserved |
| Store.StoreCache.DiscoverInputs | src/lib.rs:119-128 | the cache becomes `WalkInputs` of the old one, and every input derivation's hash becomes a key |
| Store.StoreCache.DiscoverInput | src/lib.rs:120-127 | one more input derivation's hash becomes a key, as one step of `WalkInputs` |
| Store.Candidates | src/lib.rs:132-137 | the candidates are exactly the keys holding an `Output` |
| Store.MergeOne | src/lib.rs:190-197 | a vacant or `Output` key gets the record; any other entry and every other key is unchanged |
| Store.MergeAll | src/lib.rs:186-200 | keys only grow, and every fetched hash becomes a key |
| Store.MergeAllUntouched | src/lib.rs:186-200 | the keys are the old ones plus the fetched hashes; keys without a result are untouched |
| Store.MergeAllKeepsOthers | src/lib.rs:192-195 | an entry that is not an `Output` is never replaced |
| Store.MergeAllFirstWins | src/lib.rs:190-194 | the first result for a vacant or `Output` key is the record it ends up with |
| Store.FetchedUpgrade | src/lib.rs:190-194 | with distinct candidate results, every result is merged as a record |
| Store.StoreCache.MergeNarInfos | src/lib.rs:186-200 | the cache becomes the merge of the results, and the count is the number of results |
| Store.StoreCache.FetchNarInfo | src/lib.rs:131-200 | one result per candidate whose search finds a record, holding that record, merged into the cache, counted |
| SortedNames.LessIrreflexive | src/lib.rs:268 | no name sorts before itself |
| SortedNames.LessTransitive | src/lib.rs:268 | the name order is transitive |
| SortedNames.LessTotal | src/lib.rs:268 | of two different names, one sorts first |
| SortedNames.InsertSorted | src/lib.rs:268-269 | inserting keeps the list strictly sorted and adds exactly the one name |
| SortedNames.SortDedup | src/lib.rs:268-269 | sort then dedup gives a strictly increasing list of exactly the given names |
| SortedNames.SortedUnique | src/lib.rs:268-269 | two strictly sorted lists with the same names are equal, so the order of collection does not matter |
| Runtime.Successors | src/lib.rs:221-234 | a record continues with the hashes at the start of its reference names, an output with its deriver, a derivation with the hash of each resolved path, in order; sources and unknown hashes are leaves |
| Runtime.UniverseClosed | src/lib.rs:217-237 | when every key resolves, the store's keys and successors form a finite set closed under the walk |
| Runtime.StepMinimal | src/lib.rs:219-234 | walking one more successor adds nothing outside any closed set holding the start |
| Runtime.StepClosed | src/lib.rs:219-234 | walking one more successor keeps every added hash's successors in the set |
| Runtime.Closure.Empty | src/lib.rs:215 | the closure starts empty |
| Runtime.Closure.AddRuntimeClosureOf | src/lib.rs:217-237 | needs only the hashes the walk reaches to resolve; no-op if present; the set holds the hash, only grows, is closed over successors, adds nothing outside any closed set; a source or absent hash adds only itself |
| Runtime.Process | src/lib.rs:243-263 | a record contributes its own sizes, a derivation its name as missing, a source nothing, an unknown hash its hash as missing; an output deriving itself is the assertion's fault |
| Runtime.OutputProcessedAsDeriver | src/lib.rs:255-258 | an output whose deriver is not yet on the chain is processed as its deriver |
| Runtime.ContributesChainEnd | src/lib.rs:243-262 | a hash that contributes contributes what the first non-output on its deriver chain does |
| Runtime.AddOneFound | src/lib.rs:245-246 | found grows by one exactly when the hash yields a record |
| Runtime.AddOneSum | src/lib.rs:247-248 | the sum over a set grows by the new hash's value |
| Runtime.AddOneMissing | src/lib.rs:250-261 | missing grows by exactly the name the hash reports |
| Runtime.ProcessInto | src/lib.rs:243-263 | `process` aborts exactly on a fault; otherwise the statistics tally one more hash |
| Runtime.TalliedCoverage | src/lib.rs:265-271 | a full tally with its missing names sorted is the reported statistics |
| Runtime.Closure.CoverageStatistics | src/lib.rs:240-272 | aborts exactly when some hash faults; otherwise total, found, both size sums and the sorted de-duplicated missing names |
| Runtime.Tally | src/lib.rs:265-266 | the loop over the closure: a fault is that of some hash of the closure whose processing aborts; otherwise every hash contributes, and the count, sizes and missing names are those of all the hashes |
| Gather.ReadDrv | src/main.rs:10-15 | a derivation is read exactly when the file exists and parses with nothing left over |
| Gather.ReadDrvOfShow | src/main.rs:12-13 | a file holding a printed derivation reads as that derivation |
| Gather.ReadDrvRejectsTrailing | src/main.rs:13 | anything after the derivation makes the read fail |
| Gather.Gathered | src/main.rs:18-32 | (ghost) `add_to_closure` as a recursive definition: the old entries stay; the name holds its derivation; new entries other than the name are what their files hold; unless a load failed, every new entry's inputs are keys; a failure names a path that could not be loaded |
| Gather.GatheredInputs | src/main.rs:22-31 | the input derivations from the `i`-th on, added in turn until one fails: old entries stay, new entries are what their files hold, and without a failure every input is a key |
| Gather.GatheredInput | src/main.rs:23-30 | one input path: a recorded path changes nothing; otherwise its loaded derivation is added, or the path is the failure |
| Gather.GatheredInputsStep | src/main.rs:22-31 | the `i`-th input is added first, and the walk over the rest continues from there unless it failed |
| Gather.GatheredLeaf | src/main.rs:18-36 | a derivation without input derivations gathers into a map holding only itself |
| Gather.DrvClosure.Empty | src/main.rs:34 | the map starts empty |
| Gather.DrvClosure.AddToClosure | src/main.rs:18-32 | the map and failure become `Gathered` of the old map: no-op if present; entries are only added; the name maps to its derivation; new entries' inputs are keys and were loaded from their files |
| Gather.DrvClosure.AddInputs | src/main.rs:22-31 | the map and failure become `GatheredInputs` of the map with the name recorded, so every input path of the derivation becomes a key unless a load fails |
| Gather.DrvClosure.AddInput | src/main.rs:23-30 | the map and failure become `GatheredInput` of the old map, one step of `GatheredInputs`: a present path's derivation is reused and nothing changes; otherwise the loaded derivation is added |
| Gather.GatherClosure | src/main.rs:17-37 | the map and failure are `Gathered` of the empty map, which fixes its key set and so the count printed at main.rs 43; the root maps to its derivation, every input of every entry is a key, every other entry is its file's derivation |

## Left out

- The HTTP client, `tokio`'s timer and `buffer_unordered` (lib.rs 141-149, 167, 175-184). Each request's outcome is a parameter, and the sleeps are returned as a list of delays.
- Store.StoreCache.FetchNarInfo: the order in which the searches complete is arbitrary, so the model picks each candidate with `:|`. Concurrency is not modelled. The `Err` arm at lib.rs 183 cannot occur, because `fetch_first_narinfo` always returns `Ok`.
- Fetch.FetchFirstNarInfo: the URL join and its `expect` are not modelled. The delay is unbounded, so the `u64` overflow after many doublings is not modelled.
- The file reads `fs::read` and `Drv::read_from`. `Drv::read_from` is not part of this model.
- Store.StoreCache.Discover: the derivation reader `read` is a total oracle, so a read or parse failure there is not modelled. It must give well-formed derivations within the universe only at paths whose file name starts with a hash of the universe; other paths are never read. `Gather` models `read_drv`'s failures, returning the path that could not be loaded where the tool panics.
- Store.StoreCache.Discover: the condition that the hash matches the derivation (lib.rs 98) is not checked.
- Store.StoreCache.Discover: the invariant of lib.rs 99 is proved in its one-step form: every cached derivation names only keys. The transitive form does not follow when an input derivation's hash already holds an item that is not a derivation. Discovery then returns at once (lib.rs 101), so the derivation read for that hash is not registered, and its own sources and inputs need not become keys.
- `Drv::find_name`, `InputDrv::resolve` and the splitting of the `References` line into names are parameters. lib.rs treats `references` as a list of names, while narinfo.rs stores one string.
- StorePaths.FileName: `Path::file_name` is modelled as the text after the last `/`. Its normalisation of `..` and trailing slashes is not modelled, and neither is the UTF-8 check of `to_str`.
- The `expect`s of `from_name`, `from_path` and `split_path` are preconditions: `WellFormed` for discovery, and `ResolvableAt` at every hash the runtime walk reaches.
- Runtime.Process: only a self-derivation is the assertion of lib.rs 256. A longer deriver cycle would make the source recurse without end. The model reports it as a `DeriverCycle` fault instead.
- Runtime.Closure.CoverageStatistics: `total`, `found` and the size sums are unbounded, so `u64` overflow is not modelled. The in-place `sort` and `dedup` are modelled by the function `SortDedup`.
- Runtime.Closure.AddRuntimeClosureOf: the store is passed as the value of its map rather than as a reference to the `StoreCache`.
- The test vectors of `string`, `pair`, `drv_output` and `input_drv` are proved for any plain text in place of the concrete names and paths. This covers the concrete vectors. The tests that parse asset files (`parse_derivation`, `parse_narinfo`) are not modelled, because the assets are not part of this model.
- Logging, `Serialize`, `main`'s argument handling and `println!`. The accessors `entries`, `get`, `as_drv`, `as_narinfo` and `to_str` are plain map and field reads.

## Notes

Two behaviours of the code that the model keeps:
- `fetch_narinfo` counts every record returned (lib.rs 186-189). That includes a record that is not merged because its key already holds something other than an `Output` (lib.rs 195).
- A response body that does not parse as a record is treated as absent (lib.rs 147-148, narinfo.rs 50-55). The attempt loop then moves to the next root instead of retrying (lib.rs 159-163).
