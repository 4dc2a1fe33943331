# A verified model of log2grok

log2grok reads log lines and infers one Grok pattern for them, or a small set of patterns that
covers them. This project models the parts of it where a mistake would be hard to see: scans split
over workers that stop early, rankings made on truncated counts, caches rebuilt while the
configuration changes, a coordinator that cancels stages, a greedy selector, a tokeniser and typer
that must keep accepting the lines they learned from, and a handful of parsers and printers that
must agree with each other.

`dafny verify dfyconfig.toml` checks everything.

How the source is rendered:

- A compiled regular expression is a predicate on strings (`Matcher`). Primitives are context-free
  predicates; the trailing `\r?` that every compiled pattern tolerates, and word boundaries that look
  past a span, are not represented. Bytes are characters, coverage ratios and thresholds are exact
  reals, counters are unbounded.
- Goroutines are transition systems. One step is one access to a shared atomic, one critical section,
  one token read, one line matched, or one pattern compiled. The theorems are about every state of
  every run, so about every interleaving. Each system comes with an invariant that holds initially
  (`InitInv`) and that every step keeps (`StepKeepsInv`). The two scans are also methods whose loop
  is a scheduler that picks any unfinished worker, or raises the cancellation token, at each turn.
- Code that mutates local state in a loop is a method with that loop, proved against a function or a
  predicate; the theorems about the function are lemmas. Slices shared by the workers (`chunkMiss`,
  the match bitmap) are components of the shared state.
- What the code asks of the regexp engine is a parameter: whether a rendered pattern compiles, how a
  line aligns with a template, where the captures of a match lie. What is assumed of these is stated
  where it is used: `Typing.Trusted` (a classifier accepts no more than the primitive it stands for,
  the last primitive of the list accepts every token free of white space, `DATA` accepts every quoted
  value free of line breaks, alignments are alignments; `Typing.PlainTablesTrusted` shows that `\S+`
  and `.*?`, which are what ships, satisfy this) and `LineTokens.Compiled` (the compiled groups are
  those of the expansion, match indices lie in the line).

One module per component:

| modules | what they cover |
|---|---|
| `Coverage`, `WorkQueue`, `Scan`, `BitmapScan`, `Evaluate` | counting matches, sequentially and in parallel, with a floor and with a bitmap |
| `LibraryStage`, `Sorting` | short-listing library entries and ranking them by floor-pruned counts |
| `Multi`, `MultiFigures` | greedy set cover and the figures reported for the set |
| `Segmentation`, `SubSplit`, `Probe`, `Pieces`, `Typing`, `SlotPieces`, `HostLines` | the tiler: cutting a line into units, learning values, typing by vote, which piece comes out, finding the host |
| `Relaxation`, `ShapeUnion` | relaxing a tiling's tail; alternating several shapes |
| `LibraryCache`, `TilerCache` | versioned caches racing with configuration writers |
| `Discovery` | the three concurrent stages and their coordinator |
| `Logfmt`, `FieldNames` | logfmt pairs, field naming |
| `Grok`, `GrokShape`, `GrokNames`, `GrokText` | Grok expansion: when it fails, what it is, what its groups are called, what it looks like as text |
| `Multiline`, `BlankLines` | multi-line folding and what it loses |
| `WebTokens`, `LineSegments`, `LineTokens` | what the web UI shows for a matched line |

## Where the code and what is said about it differ

- A library candidate that only ties the current best reports its true count exactly when it misses
  the last line, or there is at most one line (`Coverage.TieIsExactIff`). Otherwise the scan stops
  short and the tie-break on typed captures is never reached: `LibraryStage.PrunedDecision` gives the
  exact condition under which ranking pruned counts differs from ranking true counts, and
  `LibraryStage.HiddenTieExample` a pair of lines where it does. The comment at
  internal/pattern/coverage.go:18-30 describes the pruned outcome as intended. The candidate returned
  has the greatest true count; in the full order it is the best of the first candidate with that count
  and of the later ones whose tie shows (`LibraryStage.TryLibrary`), and it tops all of them exactly
  when no later hidden tie beats it (`LibraryStage.TopsIff`).
- The comment of `resetTilerCaches` (internal/pattern/tiler.go:131-138) says a bumped version forces a
  rebuild before anything observes stale regexes. A slow builder can store regexes of an older version
  between another reader's ensure and its read, with no commit in between (`TilerCache.Job.StaleRun`).
  The read is sure to be current exactly when no builder still holds a regex of other primitives
  (`StaysCurrentIff`). A cache marked with the current version is always current
  (`MarkedCurrentIsCurrent`), and reads are always in bounds (`ReadersInBounds`).
- The single-token slice of the tiler shrinks from one current build to a later one exactly when the
  later primitives compile fewer of the tokens (`SliceShrinksIff`, `ShrinkingRun`); it is never empty.
  The composite slice keeps its length.
- `uniqueName` does not record the names it makes up, so generated group names are distinct exactly
  when no field is spelled like one of them (`FieldNames.NamesDistinctIff`); `n_2`, `n`, `n` is the
  smallest clash.
- The groups of a definition are named afresh by every reference around it. Groups spelled apart come
  out with one `_2` for every second time they are named (`GrokNames.GroupsApart`): a group written
  `(?P<n>...)` keeps its name exactly behind at most one reference (`LoneGroupKeepsNameIff`), one named
  by a field exactly when no reference stands around that (`FieldKeepsNameIff`). The design document
  says that `%{SYSLOGBASE}` exposes `timestamp`, `logsource` and `pid`; all three groups are called
  otherwise (`SyslogBaseNames`), as is the one of `%{SYSLOGPROG}` (`SyslogProgNames`).
- The multi-line documentation (pkg/log2grok/multiline.go:114-115) says blank lines are preserved unless
  they join a record. A blank line that would open a record is lost, as in `a`, blank, `b` under
  indentation (`Multiline.BlankLostExample`). A line is lost exactly when a blank line stands at the head
  of a run of continuations or where records packed from there reach a limit
  (`BlankLines.LostIffMisplaced`). So every blank line is lost when blanks are no continuations
  (`EveryBlankLost`); otherwise, within the limits, only one the input starts with (`OnlyFirstLost`), and
  in longer runs those a whole number of full records after the head (`LostAtLineLimitIff`).

## Model

| member | source | states |
|---|---|---|
| Coverage.HitsPlusMisses | internal/pattern/coverage.go:63-80 | over any stretch of lines, matches and misses add up to its length |
| Coverage.PrunedAtMiss | internal/pattern/scan.go:147-150 | wherever the B-th miss is found, at line i, the pruned count is i+1-B |
| Coverage.MissUnique | internal/pattern/scan.go:208-226 | at most one line holds the B-th miss |
| Coverage.PrunedCountDecides | internal/pattern/coverage.go:18-33 | a pruned count never exceeds the true one, beats the floor exactly when the true one does, and is exact as soon as it reaches the floor |
| Coverage.TieIsExactIff | internal/pattern/coverage.go:18-30 | a candidate whose true count equals the floor reports it if and only if there is at most one line or the last line is a miss |
| Coverage.EvaluateCoverageWithFloorSeq | internal/pattern/coverage.go:60-80 | un-aborted, the sequential scan returns the count defined by the position of the B-th miss; aborted, it returns no more than the true count |
| Evaluate.EvaluateCoverageWithFloorCtl | internal/pattern/coverage.go:43-58 | whichever scan the machine and the input size select, and in every schedule, an un-aborted evaluation returns the same number; a pattern that did not compile counts 0 |
| WorkQueue.ScanChunkSize | internal/pattern/scan.go:10-25 | chunks hold between 32 and 1024 lines |
| WorkQueue.ChunksPerWorker | internal/pattern/scan.go:20-25 | inputs of up to 4096 lines a worker are cut into at most four chunks a worker |
| WorkQueue.MakeGridValid | internal/pattern/scan.go:84-88 | the chunks cover the input, in order, and none is empty |
| WorkQueue.Grid.StartIsProduct | internal/pattern/scan.go:186-188 | chunk c starts at line min(c*chunk, n) |
| WorkQueue.Grid.OneChunkPerLine | internal/pattern/scan.go:98-106 | workers on different chunks never touch the same line |
| Scan.FloorJob.LoadStop | internal/pattern/scan.go:176 | the stop test changes nothing but the worker's position, and the worker leaves exactly when stop is set |
| Scan.FloorJob.ClaimChunk | internal/pattern/scan.go:177-180 | a claim hands one fresh chunk to one worker and disturbs no other worker or chunk |
| Scan.FloorJob.ReadToken | internal/pattern/scan.go:181-187 | after the token test a worker is inside its chunk, or knows the token was raised |
| Scan.FloorJob.MatchLine | internal/pattern/scan.go:188-192 | inside a chunk the private count is the misses of the lines passed |
| Scan.FloorJob.StoreMisses | internal/pattern/scan.go:193 | the slot of a claimed chunk receives that chunk's misses, and no other slot changes |
| Scan.FloorJob.AddMisses | internal/pattern/scan.go:194-196 | a chunk not yet added is added by its claimer, raising the shared counter by exactly its misses, and the worker goes on to raise stop exactly when the budget is reached |
| Scan.FloorJob.Finish | internal/pattern/scan.go:182-196 | raising a flag disturbs no other worker or chunk |
| Scan.FloorJob.InitInv | internal/pattern/scan.go:168-172 | the invariant holds before any worker moves |
| Scan.FloorJob.StepKeepsInv | internal/pattern/scan.go:173-199 | every step of every worker keeps it: each claimed chunk is counted in full, or still held by its claimer, or the token was seen |
| Scan.FloorJob.AbortKeepsInv | internal/pattern/scan.go:49-57 | raising the token at any moment keeps it |
| Scan.FloorJob.StepShrinks | internal/pattern/scan.go:173-200 | every step of an unfinished worker uses up work, so every schedule ends |
| Scan.FloorJob.FinishedPrefix | internal/pattern/scan.go:150-153 | when all workers return un-aborted, the claimed chunks are a completed prefix, and a prefix short of the input holds at least B misses |
| Scan.RunWorkers | internal/pattern/scan.go:168-200 | any number of workers under any scheduler terminates in a finished state satisfying the invariant |
| Scan.RescanChunk | internal/pattern/scan.go:217-225 | rescanning the chunk where the misses reach B finds the line holding the B-th |
| Scan.LocateMiss | internal/pattern/scan.go:208-229 | walking the completed chunks yields the sequential pruned count |
| Scan.ScanMatchesFloor | internal/pattern/scan.go:147-230 | for every schedule, worker count and chunk size, an un-aborted parallel scan returns exactly what the sequential pruned scan returns |
| BitmapScan.MatchJob.ClaimChunk | internal/pattern/scan.go:98-101 | a claim hands one fresh chunk to one worker and disturbs no other |
| BitmapScan.MatchJob.MatchLine | internal/pattern/scan.go:106-114 | matching a line sets that line's bit if it matches, and no other, and moves the worker's own count by the same |
| BitmapScan.MatchJob.InitInv | internal/pattern/scan.go:84-93 | the invariant holds before any worker moves |
| BitmapScan.MatchJob.StepKeepsInv | internal/pattern/scan.go:94-119 | every step keeps it: published and private counts add up to the matches among the scanned lines, and the bitmap marks exactly those |
| BitmapScan.MatchJob.AbortKeepsInv | internal/pattern/scan.go:102-105 | raising the token at any moment keeps it |
| BitmapScan.MatchJob.StepShrinks | internal/pattern/scan.go:94-121 | every schedule ends |
| BitmapScan.MatchJob.FinishedScan | internal/pattern/scan.go:121-125 | at the end all private counts are published; un-aborted, every line was scanned |
| BitmapScan.RunWorkers | internal/pattern/scan.go:89-121 | any number of workers under any scheduler terminates in a finished state satisfying the invariant |
| BitmapScan.ScanMatchesSeq | internal/pattern/scan.go:128-145 | the sequential scan, cut short anywhere, counts and marks exactly the matches of the prefix it got through |
| BitmapScan.ScanMatchesInto | internal/pattern/scan.go:67-126 | un-aborted, in every interleaving, the count is the exact match count and each bit is set exactly if it was or its line matches; aborted, both describe the same set of scanned lines |
| BitmapScan.CleanScan | internal/pattern/scan.go:67-73 | from an all-false bitmap, even when aborted, the count is the number of set bits and every set bit is a true match |
| BitmapScan.MatchBitmap | internal/pattern/multi.go:297-304 | the bitmap is the exact match set and the count its size |
| Sorting.SortSorted | internal/pattern/score.go:186-194 | sorting by a ranking leaves nothing ranked before an earlier element |
| Sorting.SortKeepsTies | internal/pattern/score.go:186-194 | tied elements keep their order |
| LibraryStage.KeptInOrder | internal/pattern/score.go:185-199 | the short list over the fields: kept entries descend by matches on the sample, then specificity, then ascend by priority; nothing dropped is better than anything kept, and entries equal in all three keep library order across the cut |
| LibraryStage.PassesFloorIff | internal/pattern/discovery.go:436-446 | the sample floor is passed with half the sample, or with a tenth of it and three fifths of the threshold |
| LibraryStage.TryLibrary | internal/pattern/discovery.go:432-483 | the final best carries its own true match count, the maximum among candidates above the sample floor; it is the earliest best, in the full order, of the first candidate at that count and the later ones whose tie is not hidden by pruning |
| LibraryStage.WinnerInOrder | internal/pattern/score.go:144-183 | over the fields: no candidate above the floor matches more lines than the winner; any fairly compared at its count has no more typed captures, at as many no greater specificity, at that no fewer GREEDYDATA, at as many no smaller priority, and at that stands later |
| LibraryStage.TopsIff | internal/pattern/discovery.go:453-469 | it tops every candidate in the full order if and only if no later one at its count has a hidden tie and beats it |
| LibraryStage.Decide | internal/pattern/discovery.go:453-469 | a candidate accepted on its pruned count carries its true count; one rejected has no more matches, and loses the full comparison unless its tie was hidden |
| LibraryStage.PrunedDecision | internal/pattern/score.go:162-183 | the pruned comparison agrees with the comparison of true counts except exactly on a hidden tie |
| LibraryStage.HiddenTieExample | internal/pattern/coverage.go:20-26 | two lines on which a candidate that beats the best on true counts loses on pruned ones |
| Multi.GreedyCover | internal/pattern/multi.go:223-282 | the run is greedy at every round, every round was worthwhile, the covered count is the size of the union of the chosen bitmaps, and the run stopped for one of the four stated reasons |
| Multi.TakeRound | internal/pattern/multi.go:241-280 | a round takes the earliest best candidate and keeps all bookkeeping, or stops with its reason |
| Multi.BestCandidate | internal/pattern/multi.go:242-259 | the pick is the earliest unused candidate that no other beats under gain, family rank, typed captures and specificity; none when nothing adds a line |
| Multi.MarginalGain | internal/pattern/multi.go:247-252 | the gain is the number of marked lines not yet covered |
| Multi.Cover | internal/pattern/multi.go:269-276 | the covered set becomes its union with the candidate's lines, and the count grows by the gain |
| Multi.PickIsMaximal | internal/pattern/multi.go:223-229 | no pool candidate, used or not, gains more than the round's pick |
| Multi.PicksInOrder | internal/pattern/multi.go:242-259 | over the fields: at every round an unused candidate adds no more lines than the pick; at as many its family ranks no better, at that it has no more typed captures, at as many no greater specificity, and at that it stands later in the pool |
| Multi.GainFloor | internal/pattern/multi.go:235-238 | the gain floor is a hundredth of the lines rounded up, and at least one |
| Multi.GainsDescend | internal/pattern/multi.go:223-229 | marginal gains are positive and never increase |
| Multi.UnionStep | internal/pattern/multi.go:271-276 | the covered count grows by exactly the pick's gain |
| Multi.RivalsWithinGain | internal/pattern/multi.go:223-229 | any k candidates together cover at most the covered count plus k times the next gain |
| Multi.GreedyApproximation | internal/pattern/multi.go:223-282 | after m picks, for every k >= 1 candidates covering OPT lines, k^m * (OPT - covered) <= (k-1)^m * OPT |
| Multi.StopCertificate | internal/pattern/multi.go:260-268 | a run that stopped short of target and cap proves that any k candidates cover at most covered + k * (floor - 1) lines |
| MultiFigures.FiguresConsistent | internal/pattern/multi.go:117-131 | no selected pattern is reported to match more lines than the set, nor the set more than the input, scaled or not |
| MultiFigures.ReportedOrdered | internal/pattern/discovery.go:233-245 | scaling to the whole input keeps order, stays within the total, and is within half a line of the share; without it the count is reported as it is |
| MultiFigures.TargetMet | internal/pattern/multi.go:234 | the target count is reachable; reaching it leaves coverage less than a thousandth of a line short, and meeting the target always reaches it |
| MultiFigures.TargetIs | internal/pattern/multi.go:74-81 | a target between 0 and 1 is the one in force; unset means 0.90 and more means 1 |
| Segmentation.SegmentLine | internal/pattern/tiler.go:400-445 | the loop computes the segmentation function |
| Segmentation.SegmentsLossless | internal/pattern/tiler.go:400-445 | unit texts, quotes restored, spell the line; no two literals are adjacent; every unit holds what its kind says |
| Segmentation.CutPriorities | internal/pattern/tiler.go:413-441 | at each byte: a quoted region whenever its closing quote follows, else a delimiter, else the first composite that fits, else a token up to the next delimiter |
| Segmentation.MatchesFirst | internal/pattern/tiler.go:151-177 | the composite matched is the first of the list that fits, and none is matched only if none fits |
| Segmentation.CompositeSpans | internal/pattern/tiler.go:151-177 | a composite unit spans what its recogniser matched, its expression accepts the span, and a boundary follows; no composite that could stand there is passed over for a token |
| SubSplit.SplitSub | internal/pattern/tiler.go:703-740 | the loop computes the cut; no result exactly for tokens without a separator |
| SubSplit.SplitOf | internal/pattern/tiler.go:699-740 | interleaving the parts and separators of a cut rebuilds the token |
| SubSplit.CutUnique | internal/pattern/tiler.go:699-740 | a token has only one cut into parts and maximal separator runs |
| SubSplit.SignatureInjective | internal/pattern/tiler.go:700-702 | equal signatures force equal separators, part counts and emptiness patterns |
| Probe.CollectSpec | internal/pattern/tiler.go:451-473 | a slot remembers distinct observed values, at most 64, and overflows exactly when an observed value was dropped |
| Probe.UnitStats.Add | internal/pattern/tiler.go:462-473 | one observation updates the slot as the statistics prescribe |
| Probe.ProbeUnits | internal/pattern/tiler.go:480-528 | every slot has its own statistics, of exactly the values the aligned lines hold in it, in order |
| Probe.ColumnSpec | internal/pattern/tiler.go:514-527 | every slot sees every aligned line, and only values it may hold |
| Probe.ColumnInOrder | internal/pattern/tiler.go:514-527 | each aligned line adds to every slot the value it holds there, after those of the lines aligned before it |
| Pieces.AcceptsAppend | internal/pattern/tiler.go:853-896 | rendered sequences accept the concatenations of what they accept |
| Pieces.WrapDashAccepts | internal/pattern/tiler.go:681-686 | wrapping keeps everything accepted and adds the dash when asked to |
| Pieces.QuotedAccepts | internal/pattern/tiler.go:808-814 | a quoted group accepts the quoted text of whatever its inside accepts |
| Pieces.CountsOfLeaves | internal/pattern/tiler.go:921-942 | the counts of a tree are those of its leaves: timestamps and promoted fields, and the other fields |
| Typing.VoteIsFirst | internal/pattern/tiler.go:342-363 | the vote goes to the first primitive matching every value, or to the catch-all |
| SlotPieces.VoteIs | internal/pattern/tiler.go:326-363 | the vote is the first primitive whose classifier accepts every value seen, in whatever order and however often |
| Typing.VoteAccepts | internal/pattern/tiler.go:342-363 | the primitive voted for, as rendered, accepts every value voted on |
| Typing.SubSplitSound | internal/pattern/tiler.go:747-789 | a sub-tiling accepts every value it was built from |
| SlotPieces.SubSplitIs | internal/pattern/tiler.go:742-789 | a sub-tiling comes out exactly when all values have the same separators and empty parts and a high-confidence primitive is the first to take some column; it alternates the columns with the separators, each column the field of the first primitive to take it, or its one text if that is no high-confidence one |
| Typing.TokenSound | internal/pattern/tiler.go:643-679 | a typed token slot accepts every remembered value, dashes included |
| SlotPieces.TokenTyped | internal/pattern/tiler.go:643-679 | which piece a slot with evidence becomes, with k the first primitive to take every value but the dash: a dash if nothing else was seen; the field of k if it is high-confidence; else the sub-tiling; else the one value that never varied; else the field of k - with a dash alternative exactly when a dash was seen that the field does not take |
| SlotPieces.TemplateTyped | internal/pattern/tiler.go:643-648 | without two aligned lines it is the field of the first primitive to take the template token |
| Typing.DemotedIff | internal/pattern/tiler.go:658-678 | a slot becomes literal text exactly when every aligned line holds that text in it and the text is a keyword |
| Typing.QuoteSound | internal/pattern/tiler.go:803-834 | a typed quoted region accepts, in quotes, its one value if it never varied, else every value its kept tiling accepts, or every value without a line break when none was kept |
| Typing.KeptTilingCovers | internal/pattern/tiler.go:822-847 | a kept inner tiling excludes at most one remembered value in twenty |
| SlotPieces.KeptIff | internal/pattern/tiler.go:822-834 | an inner tiling is kept exactly when the text is more than delimiters, the tiling compiles, rejects at most one remembered value in twenty, and has a high-confidence leaf |
| SlotPieces.QuoteTyped | internal/pattern/tiler.go:803-834 | which piece a quoted region becomes: its text typed on its own without evidence, its one value, the kept tiling, or DATA, between quotes |
| HostLines.Rfc3164Host | internal/pattern/tiler.go:582-618 | in any line that opens with a syslog timestamp, then blanks, then a token, segmentation and the host rule single out that token |
| HostLines.Rfc5424Host | internal/pattern/tiler.go:600-618 | in any line that opens with priority, version, an ISO 8601 timestamp and blanks, they single out the next token |
| HostLines.ConstantHostIsData | internal/pattern/tiler.go:582-587 | a hostname-shaped value that never varies, which would have become literal text, is rendered HOSTNAME in the host slot |
| Typing.HostGrammarSound | internal/pattern/tiler.go:582-638 | the hostname upgrade keeps accepting every remembered value of its slot |
| HostLines.HostSlotIff | internal/pattern/tiler.go:588-618 | the host slot is a token after blanks after the first timestamp, and only if that opens the line as a syslog timestamp or is an ISO 8601 one behind a header |
| HostLines.HeaderIff | internal/pattern/tiler.go:640 | a header is `<`, digits, `>`, digits and blanks, and nothing else |
| SlotPieces.LineTyped | internal/pattern/tiler.go:558-638 | what typing makes of a whole line: every unit its piece, and HOSTNAME in the host slot exactly when that is literal text or a low-confidence field and every value seen is hostname-shaped |
| Typing.PopulationSound | internal/pattern/tiler.go:558-580 | with two aligned lines, every line aligned to the units is accepted by the typed tree if its tokens are remembered values (of any lines), its composite spans satisfy their expressions, and its quoted values are the constant, accepted by the kept tiling, or free of line breaks where none was kept |
| Typing.SampleAccepted | internal/pattern/tiler.go:948-965 | an aligned sample line is accepted if no token slot overflowed, its composite spans satisfy their expressions, and its quoted values are accepted by the kept tilings or hold no line break where none was kept |
| Relaxation.RelaxTail | internal/pattern/tiler.go:1052-1110 | with pruned scans it returns the cut full scans would choose: the latest of the best gaining cuts among the first 24, with its exact count |
| Relaxation.TryCut | internal/pattern/tiler.go:1079-1107 | one pruned scan decides one cut as a full scan would |
| Relaxation.KeptInOrder | internal/pattern/tiler.go:1112-1128 | over the fields: every gaining cut matches no more lines than the one kept; at as many it has no more high-confidence fields, at that no fewer speculative ones, at that no more typed captures, and at that it comes no later |
| Relaxation.MarginIs | internal/pattern/tiler.go:1062 | a relaxation must gain a fiftieth of the lines, rounded down, and at least one |
| ShapeUnion.TiledUnion | internal/pattern/tiler.go:1242-1314 | an alternation is returned if and only if the shapes, best first, yield two branches that compile together, cover 90% and gain 15 points; it matches exactly the lines not left over, which are the lines its branches claimed |
| ShapeUnion.ChooseBranches | internal/pattern/tiler.go:1250-1285 | branches are taken best-matching first, each explains at least two lines no earlier one does, and below the cap no usable shape is left that would |
| ShapeUnion.OfferedInOrder | internal/pattern/tiler.go:1250-1252 | shapes are offered by descending match count, those with equal counts as they came |
| ShapeUnion.TryBranch | internal/pattern/tiler.go:1270-1284 | a shape is taken exactly if it explains two more lines, and only then consumes lines |
| ShapeUnion.UnionConserves | internal/pattern/tiler.go:1253-1299 | the alternation's match count is the sum of the lines each branch newly explained |
| ShapeUnion.LeftIsTheRest | internal/pattern/tiler.go:1253-1299 | the alternation matches all lines but those still unexplained |
| LibraryCache.StepKeepsInv | internal/pattern/score.go:28-82 | every step of readers, builders, resets and commits keeps the cache whole |
| LibraryCache.RunKeepsInv | internal/pattern/state.go:33-105 | so does every run from the initial state |
| LibraryCache.ConfigSorted | internal/pattern/score.go:52-64 | what a configuration compiles to: in library order, exactly the entries the compiler accepts under its primitives, each with that regexp, and the names of the others |
| LibraryCache.CacheAlwaysWhole | internal/pattern/score.go:72-77 | a filled cache is the compilation of the whole configuration of the version it is marked with, entry by entry, although primitives are re-read per entry |
| LibraryCache.WasCurrent | internal/pattern/state.go:67-105 | every version between two instants was current at an instant between them |
| LibraryCache.Linearizable | internal/pattern/score.go:36-82 | every call returns the compilation of one configuration that was current at an instant of the call, entry by entry, and starts over at most once per commit made meanwhile |
| LibraryCache.RebuiltAfterReset | internal/pattern/score.go:24-34 | whatever the cache holds after a reset was published since, into a cache found empty |
| LibraryCache.FirstBuildStays | internal/pattern/score.go:72-77 | only a reset takes a published build away from its version |
| TilerCache.Job.StepKeepsInv | internal/pattern/tiler.go:103-149 | every step of readers, builders, resets and commits keeps the invariant of both caches |
| TilerCache.Job.RunKeepsInv | internal/pattern/tiler.go:282-302 | so does every run from the initial state |
| TilerCache.Job.MarkedCurrentIsCurrent | internal/pattern/tiler.go:103-128 | a cache marked current and loaded holds exactly the regexes of the current primitives, expression by expression, although builders never re-check the version |
| TilerCache.Job.ReadersInBounds | internal/pattern/tiler.go:131-142 | a reader between ensure and index finds one composite entry per composite, and a non-empty single-token slice made of the entries of the stored build that compiled, whatever resets and builds intervene |
| TilerCache.Job.Slice | internal/pattern/tiler.go:246-280 | the single-token slice has one entry per token primitive that compiled, and one catch-all when none did |
| TilerCache.Job.SliceEntries | internal/pattern/tiler.go:246-280 | they are the entries that compiled, in order |
| TilerCache.Job.RebuiltAfterReset | internal/pattern/tiler.go:131-149 | after a reset no reader skips the build until a builder has stored again |
| TilerCache.Job.FirstBuildStays | internal/pattern/tiler.go:120-128 | no step but a reset replaces a build by another of its version |
| TilerCache.Job.SliceShrinksIff | internal/pattern/tiler.go:246-252 | in any run, between two instants at which the cache is marked current the slice has shrunk if and only if the later primitives compile fewer of the tokens |
| TilerCache.Job.StepShrinksIff | internal/pattern/tiler.go:293-301 | one step shrinks the slice if and only if it stores a build with fewer compiled tokens |
| TilerCache.Job.ShrinkingRun | internal/pattern/tiler.go:282-302 | whatever the tokens, two tables of which the second compiles fewer give a run that shrinks the slice a caller has ensured |
| TilerCache.Job.StaysCurrentIff | internal/pattern/tiler.go:131-142 | from a state in which a reader would accept the cache, every continuation without a commit keeps it current if and only if no builder of it holds a regex the current primitives do not compile to |
| TilerCache.Job.StrayPublishes | internal/pattern/tiler.go:112-128 | a builder that disagrees with the current primitives has a way to publish what it holds over a current cache |
| TilerCache.Job.StaleRun | internal/pattern/tiler.go:131-142 | whatever the expressions, two tables that compile them differently give a run in which a reader indexes stale regexes right after ensuring current ones, with no commit in between |
| Discovery.Call.StepKeepsInv | internal/pattern/discovery.go:124-227 | every step keeps: an un-aborted stage's result is true, and what the coordinator has read is true |
| Discovery.Call.RunKeepsInv | internal/pattern/discovery.go:124-227 | so does every run |
| Discovery.Call.ScheduleIndependent | internal/pattern/discovery.go:172-227 | whatever the interleaving, a returned answer is one fixed function of the un-aborted stage results |
| Discovery.Call.AnswerIsBest | internal/pattern/discovery.go:178-226 | the answer clears the threshold whenever a stage does; otherwise no stage matched more lines |
| Discovery.Call.AnswerByPriority | internal/pattern/discovery.go:172-226 | over the fields, for results that reach the threshold: a structured one with a typed capture comes first, then a library one that is not generic and has two, then any structured, any library, any inferred; when none reaches it, the answer has the most matched lines, then typed captures, then the better family, earlier stages first on full ties, and the fallback stands in only if nothing matched |
| Discovery.Call.ReadsAreTrue | internal/pattern/discovery.go:172-175 | no result computed under a raised token is ever read |
| Discovery.Call.SendsNeverBlock | internal/pattern/discovery.go:118-126 | a running stage always finds its channel empty |
| Discovery.Call.Progress | internal/pattern/discovery.go:177-211 | until the coordinator returns, some step is possible |
| Discovery.Call.RunIsBounded | internal/pattern/discovery.go:124-227 | no run outlasts the work there was at the start |
| Discovery.PickBetterLaws | internal/pattern/discovery.go:282-309 | comparing candidates is associative, and order matters only between full ties |
| Discovery.PickedInOrder | internal/pattern/discovery.go:280-309 | over the fields: the candidate picked has no fewer matched lines, at as many no fewer typed captures, and at that no worse family; between full ties the first stays |
| Discovery.Call.NoneLeftScanning | internal/pattern/discovery.go:111-122 | when the call returns, every stage was read or has its token raised |
| Logfmt.ParseLogfmtPairs | internal/pattern/logfmt_keyed.go:27-82 | it succeeds exactly on the texts some well-formed pair list prints as (minus one trailing carriage return), and returns that list |
| Logfmt.ParseThenPrint | internal/pattern/logfmt_keyed.go:30-82 | a successful parse yields well-formed pairs that print back to the text |
| Logfmt.PrintThenParse | internal/pattern/logfmt_keyed.go:30-82 | printing any non-empty well-formed list parses back to the list |
| Logfmt.ParsesIffPrinted | internal/pattern/logfmt_keyed.go:27-29 | a text parses if and only if a well-formed list prints as it |
| Logfmt.PrintInjective | internal/pattern/logfmt_keyed.go:27-29 | a text has only one reading |
| Logfmt.ParseLoop | internal/pattern/logfmt_keyed.go:32-81 | the loop over the line computes the outcome of the grammar |
| Logfmt.ParseOne | internal/pattern/logfmt_keyed.go:35-72 | one turn of it reads one pair |
| Logfmt.ScanValue | internal/pattern/logfmt_keyed.go:45-71 | the switch on the first byte reads a bare or quoted value |
| Logfmt.ScanDouble | internal/pattern/logfmt_keyed.go:50-58 | the scan skipping escapes stops at the closing quote or past the end |
| Logfmt.ScanKey | internal/pattern/logfmt_keyed.go:35-38 | the key is the longest run of key bytes |
| FieldNames.SuffixedInjective | internal/pattern/compile.go:110-117 | a made-up name determines its field and its number |
| FieldNames.DecimalReads | internal/pattern/compile.go:110-117 | the number in a made-up name reads back, without leading zeros |
| FieldNames.NamesDistinctIff | internal/pattern/compile.go:110-117 | the names handed out are pairwise distinct exactly when no field is spelled like a made-up one |
| FieldNames.NoSuffixesNoClash | internal/pattern/compile.go:110-117 | fields that do not end in an underscore and digits never clash |
| FieldNames.ClashExample | internal/pattern/compile.go:110-117 | n_2, n, n receive two equal names |
| FieldNames.SanitizeFieldName | internal/pattern/compile.go:86-108 | the result is empty only for the empty field, does not start with a digit and holds word characters only |
| FieldNames.SanitizeIs | internal/pattern/compile.go:86-108 | word characters stay where they are, anything else becomes an underscore, and one goes before a leading digit |
| FieldNames.SanitizeIdempotent | internal/pattern/compile.go:86-108 | sanitising twice is sanitising once |
| FieldNames.TrimSuffixed | internal/webapi/webapi.go:239-251 | trimming the suffix of a made-up name gives back the field |
| FieldNames.TrimIff | internal/webapi/webapi.go:239-251 | a name loses exactly an underscore and digits at its end, if something stands before them |
| FieldNames.LogfmtFieldName | internal/pattern/logfmt_keyed.go:84-97 | the name given is new, and is the base or its first free suffix |
| Grok.ExpandFailsIff | internal/pattern/compile.go:35-84 | expansion fails exactly when some reference chain meets an unknown name or exceeds 32 levels |
| Grok.CyclesFail | internal/pattern/compile.go:36-38 | every cycle a pattern can reach is an error |
| GrokShape.ExpansionIs | internal/pattern/compile.go:45-83 | up to the names of its groups, a successful expansion is the pattern with its texts kept and every reference replaced by an opener, named exactly if it has a field, the expansion of its definition, and a closer; nothing else is |
| GrokShape.BodyIff | internal/pattern/compile.go:52-66 | a definition is the pattern's own if it has one, else the primitive |
| GrokShape.TextReference | internal/pattern/compile.go:73-80 | a reference to a definition that is one text expands to that text between `(?P<field>` or `(?:` and `)` |
| GrokNames.DedupNames | internal/pattern/compile.go:119-125 | deduplication gives the groups of a body the names uniqueName hands out, and changes nothing else |
| GrokNames.GroupOfNames | internal/pattern/compile.go:73-80 | a reference names the groups inside its body first and its own group last, although that opens before them |
| GrokNames.GroupsAreNames | internal/pattern/compile.go:73-80 | if only the pattern's own fields open groups, whatever other definitions the tables hold, the groups are named after the fields, repeats by occurrence number |
| GrokNames.GroupsDistinctIff | internal/pattern/compile.go:73-80 | and are pairwise distinct exactly when no field clashes with a made-up name |
| GrokNames.ExpandSilent | internal/pattern/compile.go:45-81 | a pattern that reaches no group opens none and moves no counter |
| GrokNames.GroupsApart | internal/pattern/compile.go:65-80 | over any tables, groups spelled apart (up to trailing "_2"s) each come out with one "_2" for every second time they are named, and are all called as spelled if and only if none is named twice |
| GrokNames.DedupAgain | internal/pattern/compile.go:119-125 | deduplication names each such group once more, independently of the others |
| GrokNames.BehindOpened | internal/pattern/compile.go:65-80 | d references around a pattern name its groups d more times |
| GrokNames.LoneGroupKeepsNameIff | internal/pattern/compile.go:65-80 | a lone group (?P<n>...) behind d references comes out as n with d/2 copies of "_2", so it keeps its name if and only if d is at most 1 |
| GrokNames.FieldKeepsNameIff | internal/pattern/compile.go:65-80 | a lone field behind d references comes out with (d+1)/2 copies, so it keeps its name if and only if d is 0 |
| GrokNames.SyslogProgNames | internal/pattern/embedded/primitives.json:63 | %{SYSLOGPROG} exposes pid_2 |
| GrokNames.SyslogBaseNames | internal/pattern/embedded/primitives.json:60 | %{SYSLOGBASE} exposes timestamp_2, logsource_2 and pid_2 |
| GrokText.NoReferenceLeft | internal/pattern/compile.go:40-83 | the text of a successful expansion holds no reference, not even across the place where two pieces meet |
| GrokText.NoneAcross | internal/pattern/compile.go:9-12 | no reference comes about where two texts meet if the first is sealed by a character no reference holds, or the second opens with one |
| WebTokens.BuildQueues | internal/webapi/webapi.go:166-173 | every field's queue holds the primitives of its references in order |
| WebTokens.RefsInOrder | internal/webapi/webapi.go:166-173 | the references are those of the pattern that have a field, in order, each with its field sanitised and the primitive it names |
| WebTokens.GroupTokens | internal/webapi/webapi.go:162-193 | when names are as compiled and do not clash, the i-th named group gets the primitive of the i-th reference with a field |
| WebTokens.HeadOfQueue | internal/webapi/webapi.go:180-190 | the r-th named group finds the r-th reference at the head of its field's queue, suffix or not |
| WebTokens.CompiledNames | internal/pattern/compile.go:75-79 | if only a pattern's own fields open groups, they are named as groupTokens expects |
| LineSegments.CaptureSpans | internal/webapi/webapi.go:203-210 | the spans are exactly the groups that matched something, in group order |
| LineSegments.SegmentsFor | internal/webapi/webapi.go:195-237 | for any in-range match the segments spell the line; for nested or disjoint captures the token segments are exactly the maximal spans, first group first among equals |
| LineSegments.CutLine | internal/webapi/webapi.go:211-236 | the same for any list of spans in group order |
| LineSegments.SortOrdered | internal/webapi/webapi.go:211-216 | the sort puts outer spans before inner ones and keeps group order on ties |
| LineTokens.BuildLineTokens | internal/webapi/webapi.go:136-160 | a line that does not match is shown plain, any other by segments that spell it and whose tokens are, for nested or disjoint captures, exactly the maximal ones; when only the pattern's own fields open groups, the i-th named group carries the primitive of the i-th reference with a field |
| Multiline.Validate | pkg/log2grok/multiline.go:60-88 | it fails exactly on an incomplete or unknown mode; positive limits and a joiner are kept, anything else becomes 100 lines, 1 MiB and a space |
| Multiline.JoinMultilineStrings | pkg/log2grok/multiline.go:166-207 | the records are the joins of consecutive blocks of the input, in order; only blank lines that would open a record are lost; every block is a head and continuations within both limits, and ends only when it must - in each mode's own terms |
| Multiline.FoldedByMode | pkg/log2grok/multiline.go:90-107 | with a header, no line after a block's first matches it and a block ends only before one that does or when full; under indentation, later lines start with space or tab and a block ends only before one that does not or when full; with a caller's predicate, exactly the lines it accepts join until a block is full |
| Multiline.HeaderOpens | pkg/log2grok/multiline.go:13-16 | a line that matches the header always opens a block, unless it is blank and lost |
| Multiline.FoldLine | pkg/log2grok/multiline.go:186-204 | one line extends the open record or closes it and starts afresh, and all lines stay accounted for |
| Multiline.NextOpen | pkg/log2grok/multiline.go:186-204 | what one line does to the records and the open block |
| Multiline.FoldedIsFold | pkg/log2grok/multiline.go:186-205 | an input has only one folding into blocks that end only when they must |
| BlankLines.LostIffMisplaced | pkg/log2grok/multiline.go:186-204 | a line is lost if and only if a blank line stands at the head of a run of continuations, or where records packed from there to their limits would open another |
| BlankLines.EveryBlankLost | pkg/log2grok/multiline.go:114-115 | when blank lines are no continuations, a line is lost if and only if there is a blank one |
| BlankLines.OnlyFirstLost | pkg/log2grok/multiline.go:114-115 | when they are, and the limits have room for the whole input, a line is lost if and only if the first is blank |
| BlankLines.LostAtLineLimitIff | pkg/log2grok/multiline.go:190-195 | with the byte limit out of reach, a line is lost if and only if a blank one stands a whole number of full records after the head of its run |
| Multiline.BlankLostExample | pkg/log2grok/multiline.go:98-102 | under indentation the blank line of a, blank, b is lost |

## Left out

- Regular expressions themselves: syntax, matching, `QuoteMeta`, the alignment the relaxed probe picks, and whether a rendered pattern compiles. The probe's pattern is taken to compile.
- float64 rounding in ratios, thresholds and scaled counts; exact reals stand for them.
- Version numbers wrapping around 2^64, and code that assigns the package variables directly without the state lock.
- Array aliasing between the workers of a scan: the bitmap and the per-chunk counts are components of the shared state, updated one element per step.
- Scan.ScanMatchesFloor: the hook called when a scan is aborted is not modelled; an aborted scan reports that it was.
- TilerCache.Job.Slice: compiled entries are compared as predicates, and the classifier overrides count as part of compiling an entry. The DATA and HOSTNAME helpers are kept with the build, without their own fallbacks.
- ShapeUnion.TiledUnion: the language of the alternation is taken to be the union of its branches' languages.
- GrokNames.GroupsApart: groups that definitions open and that are spelled alike are covered by GrokNames.DedupNames and GrokNames.GroupOfNames, one reference at a time.
- Grok.ExpandFailsIff: patterns are token sequences; cutting a text into tokens is the regexp engine's part, and what GrokText.NoReferenceLeft asks of it is stated there.
- WebTokens.GroupTokens: nothing is promised when field names clash.
- LibraryStage.TryLibrary: scoring entries on the sample is a parameter; the scan that scores them is the sequential one above.
- Typing.PopulationSound: stated with primitives and composites as context-free predicates, and for lines without a trailing carriage return. A quoted value with a line break is not promised where the region is rendered as DATA, which rejects it.
- The template choice and the thresholds around tilings (pickTemplateLines, the honesty gates of tryTiling), chooseSample, limitLines and normalizeLines, and the safe fallback.
- The structured probes for JSON, CSV and the rest, the text envelope, DiscoverTopK, the assembly of the candidate pool of DiscoverMulti, and concurrent decoding.
- The reader form of multi-line folding, which runs the same loop over a scanner.
- Rendering field names in a tiling (tileFieldName) and logfmt column typing.
- Pattern data, configuration files, HTTP, the command line, the browser front end, diagnostics and timing.
