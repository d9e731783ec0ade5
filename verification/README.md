# Verification of pq-consensus-bandwidth

A Dafny model of the parts of pq-consensus-bandwidth that compute something, with
proofs about them. `dafny verify dfyconfig.toml` checks the whole project.

The program sizes CometBFT messages for signature schemes it does not implement,
inverts a bandwidth model to say what would fit, and regenerates two document
indexes. The model follows the same four lines.

- **Wire sizes** (`Varint`, `Wire`, `Measure`, `ReadBack`, `Handshake`, `Breakdown`,
  `Migration`). Votes, commits, validator sets and AuthSigMessages are built as
  trees of fields and marshalled to bytes by the rules of the Protocol Buffers
  encoding guide ("Base 128 Varints", "Length-Delimited Records", "Submessages").
  The schema is CometBFT's: zero scalars and empty byte strings are not emitted;
  BlockID, PartSetHeader, Timestamp and PublicKey are emitted even when empty; a
  key oneof that is set is always emitted. The encoder is tied down by a
  parser without a schema, by readers that give back every vote and every commit,
  and by the published figures of `measure_test.go` and `docs/RESULTS_20260906.md`.
- **Ceilings** (`Ceiling`, `Solve`). Two floor divisions, one per direction, with
  int64 wrap-around and division panics modelled, the feasibility verdict and the
  grid of budgets.
- **Document indexes** (`DocIndex`, `DocComplete`, `DocClean`, `DocRun`, `DocSettle`,
  `DocLinks`, `DocNames`, `DocLayout`). A run is a step on a map from paths to contents,
  whose output is part of its own input through titles. Names, titles, dates and groups
  are said of the text itself, both indexes line by line, and what they link is read
  back by a scanner.
- **Sampling, scaling and parsing** (`CpuTime`, `Format`, `ParseInts`), over the
  helper modules `GoInt`, `Text`, `Sorting` and `Outcomes`.

Loops that update variables, slices, maps and the working tree are methods (and
`DocSettle.Checkout` a class) proved against functions; the properties are lemmas
about those functions.

## What was found

- **The handshake shortcut is short by one length prefix.** `handshake.go:128-132`
  corrects an Ed25519 message for a longer key and for the prefix of the key
  field, but not for the prefix of the submessage around it.
  `Handshake.ShortcutExactIff` gives the exact condition: keys of at most 125
  bytes. ML-DSA-65 is reported at 5269 bytes and marshals to 5270, so the 5,301
  and 7,573 bytes of the README tables are each one byte low.
- **The index generator is not idempotent, though its header says so**
  (`scripts/build_doc_indexes.py:8`). Both texts are made before either file is
  written, so the root index can quote the old title of docs/INDEX.md.
  `DocSettle.SecondRunIdleIff` says exactly when one run is enough,
  `DocSettle.FirstRunCanBeStale` gives a case where it is not, and
  `DocSettle.RunsSettle` proves that two always are.
- **A heading can put links into the indexes.** The generated text links exactly the
  tracked documents when no title holds a link (`DocLinks.RootLinksExactIff`,
  `DocLinks.TitleCanAddLink`), and a parenthesis in a path cuts its link short
  (`DocLinks.RowLinksIff`).
- **The ceiling and its inverse part ways under int64 overflow**, and the inverse
  can divide by zero. `Ceiling.GaloisIff` says exactly for which costs, set sizes and
  peer counts they are adjoint, `Solve.VerdictIff` the same of the verdict for a
  signature length, and `Ceiling.CeilingSoundIff` and `Ceiling.RequirementSoundIff`
  when each agrees with unbounded arithmetic. With `--peers 2691383728291444` the
  ceiling of ML-DSA-65 admits 2248 validators where the requirement leaves a single one
  nothing (`Solve.VerdictOverflows`); with `--peers 4611686018427387904` the first
  default target divides by zero (`Ceiling.RequirementPanics`).
- **Other overflows.** With the same peers a longer signature raises the ceiling
  (`Solve.LongerSignatureIff` says exactly when) and the worst corner of a grid does
  not bind (`Solve.CornerOverflows`, and exactly when, `Solve.CornerBindsIff`). The round verdict is right exactly when the
  serial time fits int64 (`CpuTime.RoundSoundIff`); 2^47 + 1 validators at 65_536 ns
  are reported to need no time at all (`CpuTime.RoundOverflows`). The broadcast bound of
  the gossip estimate is the true traffic exactly when that fits int64
  (`Migration.GossipSoundIff`); otherwise it can come out negative
  (`Migration.GossipOverflows`) or small (`Migration.GossipUnderstates`).
- **A profile over many keys panics for fewer than eight iterations**
  (`CpuTime.MeasureAcrossKeys`), since no key then receives a sample; one over a single
  key panics only for none (`CpuTime.MeasureOneKey`). The program itself always asks
  for 2000 (`main.go:409`).

## Model

| member | source | states |
|---|---|---|
| Varint.VarintLen | handshake.go:141-148 | the shift loop returns the length of the real base-128 encoding, which brackets the argument between two powers of 128; a negative argument gives 1 |
| Varint.DecodeEncode | handshake.go:141-148 | decoding the bytes whose number the loop counts gives the number back and leaves what follows untouched |
| Varint.EncodingIsShortest | handshake.go:135-148 | no byte string that decodes to n spends fewer bytes on it than the counted length |
| Wire.MarshalledSize | measure.go:68-74 | the marshalled bytes of any nested message are exactly as many as the size arithmetic on lengths says |
| Wire.ShapeFixesSize | measure.go:62-74 | messages whose scalars and byte strings have equal lengths at every depth marshal to equally many bytes, whatever the contents |
| Wire.ParseMarshal | measure.go:90-94 | a parser without a schema recovers every record of a marshalled message, in order |
| Wire.MarshalInjective | measure.go:90-94 | messages of one schema with the same bytes are the same message |
| Wire.GuideExamples | measure.go:90-94 | the examples of the Protocol Buffers encoding guide marshal to the published bytes |
| ReadBack.VoteRoundTrip | measure.go:80-94 | every vote reads back from its bytes, including every combination of zero and empty fields that are not emitted |
| ReadBack.CommitRoundTrip | measure.go:108-118 | every commit reads back from its bytes, with all its signatures in order |
| Measure.VoteIsSumOfParts | measure.go:80-94 | a vote's bytes are 19 plus one field each for the BlockID, the address and the signature |
| Measure.VoteSizeClosedForm | measure.go:68-95 | a vote takes 115 bytes (45 for nil) plus its signature field, for any digest, address and signature bytes |
| Measure.CommitSizeClosedForm | measure.go:97-119 | a commit takes 78 bytes plus n prefixed entries of 37 bytes and a signature field, for any contents of its n signatures |
| Measure.CommitDoubles | measure.go:97-119 | twice the validators take twice the bytes less the 78-byte header |
| Measure.VoteGrows | measure.go:75-95 | a longer signature makes every vote strictly longer |
| Measure.CommitGrows | measure.go:97-119 | a longer signature makes every non-empty commit strictly longer, through two levels of prefix |
| Measure.VoteBytes | measure.go:75-95 | the size depends on the signature length and on whether there is a BlockID, and not on the vote type |
| Measure.CommitBytes | measure.go:97-119 | the slice-filling loop yields the closed form |
| Measure.Measure | measure.go:121-148 | prevote and precommit agree, a BlockID costs 70 bytes, and exactly the requested counts are in the commit map with their closed form |
| Measure.RoundTripGrows | measure.go:36-38 | a round costs at least 230 bytes and strictly more with a longer signature |
| Measure.PublishedCompositeFigures | measure_test.go:14-37 | the closed forms give the five pinned figures |
| Handshake.AuthSigSize | handshake.go:120-127 | the message is a key field inside a prefixed submessage plus a signature field, whatever the key and signature bytes are |
| Handshake.ShortcutShortfall | handshake.go:111-133 | for every key and signature length the shortcut is short by exactly the growth of the outer key prefix, one byte for keys of 126 to 16380 bytes |
| Handshake.ShortcutExactIff | handshake.go:93-133 | the reported size is the true one exactly for keys of at most 125 bytes, or for Ed25519 with a 32-byte key |
| Handshake.MlDsa65IsOneByteShort | handshake.go:128-132 | the published ML-DSA-65 message is 5269 by the shortcut and 5270 when marshalled |
| Handshake.Total | handshake.go:80-86 | the loop adds up all legs |
| Handshake.ProfileTotals | handshake.go:150-222 | upstream takes 134 bytes, the key agreement adds 2272 for every scheme, and the identity key adds its reported growth; the published constants come first and only the last message is measured |
| Breakdown.PartsAreIndependent | breakdown.go:31-52 | with any of the eight combinations of parts present each part adds the same bytes to a 23-byte frame |
| Breakdown.Breakdown | breakdown.go:54-81 | the four named parts are the signature field, 70, 22 and a remainder of 23 for every scheme; they add up to the total, which is the precommit Measure reports |
| Migration.ValidatorSetClosedForm | migration.go:46-63 | a set takes a fixed number of bytes per validator, for any key and address bytes, plus the varint of its total power |
| Migration.TotalPowerFieldBound | migration.go:59 | the power field takes at most ten bytes, eleven once the total has overflowed int64 |
| Migration.ValidatorSetIsAlmostAdditive | migration.go:46-63 | joining two sets never costs more than the two apart; it saves at most ten bytes while the joint power fits int64 and at most 22 once it overflows |
| Migration.MeasureClientUpdate | migration.go:38-71 | the slice-filling loop yields both closed forms and their sum, with one million of voting power per validator |
| Migration.ClientUpdateGrows | migration.go:38-71 | for a non-empty set a longer signature strictly enlarges the commit and a longer key the validator set, through every level of prefix |
| Migration.PublishedClientUpdates | docs/RESULTS_20260906.md:315-320 | the closed forms give the published commit, validator-set and total columns of all four rows |
| Migration.GossipIsBounded | migration.go:95-110 | the upper bound is the wrapped product; the modelled traffic is the whole bytes of its unsuppressed share, stays between zero and it for any suppression exactly when it is not negative, falls as suppression rises, and meets both ends always |
| Migration.GossipShare | migration.go:95-110 | for a suppression s inside the unit interval the modelled bytes are the bound times 1 - s without the fraction; one outside gives the estimate of its nearer end |
| Migration.GossipSoundIff | migration.go:95-110 | for all non-negative arguments the upper bound is the true traffic exactly when that fits int64, understates it exactly when it does not, and the modelled bytes are the unsuppressed share of the true traffic for every suppression in the same case only |
| Migration.GossipOverflows | migration.go:102-108 | 100_000 validators at 6,854 bytes and 20 billion peers give a negative bound |
| Migration.GossipUnderstates | migration.go:102 | one validator at 6,854 bytes and 2691383728291444 peers: more than 2^64 bytes are bounded by 5560 |
| Migration.Mitigations | migration.go:127-169 | compact votes save exactly 132 bytes a round for every scheme and still cost something |
| Ceiling.BytesOfLink | ceiling.go:44 | eight times the byte budget is at most link times round, fractions of a second included, and eight more bits would exceed it |
| Ceiling.CeilingAdmits | ceiling.go:43-59 | for any cost, peers, link and round, n validators are within the ceiling exactly when n is at most 100,000, the wrapped product of cost and peers is positive, and eight times n of it are at most link times round |
| Ceiling.RequirementAllows | solve.go:41-48 | for any set size, peers, link and round, the division panics exactly when the product wraps to zero, and a cost is allowed exactly when eight times that many copies of the wrapped product, of either sign, are at most link times round |
| Ceiling.RequirementExact | solve.go:41-48 | the requirement is the quotient of the budget by the wrapped product, truncated toward zero, and nothing without a target or peers |
| Ceiling.GaloisConnection | solve.go:8-15 | while both products fit int64 the two floor divisions are adjoint on every budget, including negative ones and non-positive peer counts |
| Ceiling.GaloisIff | solve.go:8-15 | for every cost, set size and peer count: the requirement returns and the two divisions are adjoint on all non-negative budgets exactly when the set size does not panic and both turn at the same budget, computed from the two wrapped products |
| Ceiling.FittingProductsMeet | solve.go:8-15 | that condition holds whenever both products fit int64 and the search covers the set |
| Ceiling.RequireClosesIff | measure_test.go:383-400 | over all non-negative budgets, the requirement returns, and a positive one admits its set and is required again by its own ceiling, exactly when the search covers the set and set size times peers fits int64, or nothing is ever allowed and the product does not wrap to zero |
| Ceiling.CeilingClosesIff | ceiling.go:43-75 | the dual closure law for ceilings holds over all non-negative budgets exactly when cost times peers fits int64 or wraps to a rejected value |
| Ceiling.CeilingIsMaximal | ceiling.go:51-74 | for every cost and peers: the budget is that of link and round, traffic at the maximum is exact and within it, one more validator is not unless the search stopped at 100,000, the search flag is exact, utilization is the exact ratio of the two, and a rejected product or a negative budget reports nothing |
| Ceiling.CeilingSoundCall | ceiling.go:46-59 | one ceiling agrees with unbounded arithmetic for every set size exactly when cost times peers fits int64, wraps to a rejected value, or wraps beyond the budget |
| Ceiling.CeilingSoundIff | ceiling.go:46-51 | the ceiling is right for every non-negative budget exactly when cost times peers fits int64 or wraps to a non-positive value |
| Ceiling.RequirementSoundCall | solve.go:44-46 | one requirement returns and agrees with unbounded arithmetic for every cost exactly when set size times peers fits int64, wraps to a negative value, or wraps beyond the budget |
| Ceiling.RequirementSoundIff | solve.go:44-46 | the requirement is right and does not panic for every non-negative budget exactly when set size times peers fits int64 or wraps to a negative value |
| Ceiling.RequirementPanics | solve.go:44-46 | with 2^62 peers the requirement of the default target of four validators divides by zero |
| Solve.Assess | solve.go:59-77 | feasible exactly when the measured cost meets the requirement; the reduction factor is the cost over the requirement, zero without one, and lies in (0, 1] exactly when feasible |
| Solve.VerdictMatchesCeiling | solve.go:59-77 | from signature length to verdict and to ceiling, each decided exactly at the products as they wrap, and the panic where the divisor wraps to zero; they agree wherever the two divisions meet, and the verdict is the exact inequality wherever its product fits int64 |
| Solve.VerdictIff | solve.go:59-77 | for every signature length, target and peer count: verdict and ceiling agree on all non-negative budgets, without a panic, exactly when the two divisions meet at the measured cost |
| Solve.VerdictOverflows | solve.go:41-48 | 100 Mbit/s, one second and 2691383728291444 peers: the ceiling of ML-DSA-65 admits 2248 validators and that of Ed25519 none, while the requirement for one allows nothing |
| Solve.Verdict | solve.go:189 | the verdict reached through the requirement panics exactly when the divisor wraps to zero, is otherwise decided by the wrapped product, and is the ceiling's where the divisions meet |
| Solve.CeilingMonotone | ceiling.go:43-59 | fewer bytes at a product that is rejected or no smaller never admit more validators |
| Solve.CeilingMonotoneIff | ceiling.go:43-59 | a dearer cost or more peers never admit more validators on a smaller budget, over all pairs of non-negative budgets, exactly when the wrapped products are ordered |
| Solve.LongerSignatureIff | ceiling.go:43-59 | a longer signature never admits more validators exactly when its wrapped product is rejected or no smaller, which holds whenever it fits int64 |
| Solve.BuildGrid | main.go:184-193 | the three nested loops make one ceiling per cell, and the ceiling of link i, round j and peers k is at position (i rounds + j) peers + k |
| Solve.GridAt | main.go:184-193 | the recursively defined grid holds the ceiling of every cell at that position |
| Solve.CellInGrid | main.go:184-193 | every cell has its ceiling in the grid |
| Solve.GridCeilingHasCell | main.go:184-193 | every ceiling of the grid belongs to a cell |
| Solve.Tightest | ceiling.go:77-90 | the first of the ceilings that admit the fewest validators, and nothing for an empty list |
| Solve.TightestIsWorstCorner | main.go:184-208 | over any positive grid whose largest peer count dominates, the tightest ceiling admits what the slowest link, the shortest round and the most peers admit together |
| Solve.CornerBindsIff | main.go:184-208 | for given peer counts the worst corner binds on every grid of links and rounds exactly when the product at the most peers is rejected, or no other is rejected or larger |
| Solve.CornerOverflows | main.go:184-208 | beside 50 peers, 2691383728291444 peers admit 2248 validators where 50 admit 36, so the worst corner of that grid does not bind |
| Solve.FittingPeersDominate | main.go:184-208 | that condition holds whenever cost times the most peers fits int64 |
| Solve.BindingConstraint | main.go:184-208 | the reported constraint is the first tightest ceiling of the grid, and that of the worst corner where the largest peer count dominates; there is none exactly for an empty list |
| DocComplete.RootIndexComplete | scripts/build_doc_indexes.py:78-111 | grouping, sorting and filtering keep the multiset: the rows of the root index link every tracked document but itself, as often as it is tracked, and nothing else |
| DocComplete.SectionsAreNewestFirst | scripts/build_doc_indexes.py:102-109 | within a section, later date keys come first and equal dates by descending path |
| DocComplete.SectionOrderIsTotalOrder | scripts/build_doc_indexes.py:90-92 | the section key orders all folders totally and transitively, which is what sorting by it needs |
| DocComplete.SectionsInOrder | scripts/build_doc_indexes.py:90-101 | the root section comes first, then docs and the folders below it, scripts and the folders below it, and the rest, by name within each, and no folder has two sections |
| DocComplete.SectionsExact | scripts/build_doc_indexes.py:79-101 | there is a section for each folder that holds a tracked document, and for no other |
| DocComplete.RowsUnderOwnHeading | scripts/build_doc_indexes.py:101-110 | every row of the root index stands under the heading of its document's group, which DocNames.GroupIff and DocLayout.RowHeading state on the path |
| DocComplete.PrefixIsFolder | scripts/build_doc_indexes.py:61-67 | a path carries a folder's prefix exactly when it lies in that folder, so no two prefixes overlap |
| DocComplete.FolderRowsTargets | scripts/build_doc_indexes.py:63-69 | for every path: a folder's rows stand for it once if it is the folder's tracked README, as often as it is tracked if it is another document of the folder, and not otherwise |
| DocComplete.DocsIndexComplete | scripts/build_doc_indexes.py:54-75 | for every path: the rows of the docs index link a document below docs/ as often as it is tracked, a sub-folder README once, and no other path; docs/README.md and docs/INDEX.md have no row |
| DocComplete.DocsIndexOnce | scripts/build_doc_indexes.py:54-75 | when no path is tracked twice, those rows are the documents below docs/, once each |
| DocComplete.DocumentsAreBelowDocs | scripts/build_doc_indexes.py:54-69 | those documents are the paths that start with docs/ apart from the two docs-level indexes |
| DocNames.WordsOfLaid | scripts/build_doc_indexes.py:30 | splitting at white space gives back the words of any text, whatever the gaps |
| DocNames.TrackedOfLaid | scripts/build_doc_indexes.py:28-31 | from any listing exactly the paths with no part among the seven skipped directories are tracked, in order |
| DocNames.NameAfterSlash | scripts/build_doc_indexes.py:107 | the name of a path is what follows its last slash |
| DocNames.StemAtDot | scripts/build_doc_indexes.py:41 | the stem ends at the last dot of the name, unless nothing stands before or after it |
| DocNames.UniversalConcat | scripts/build_doc_indexes.py:36 | reading with universal newlines works piece by piece, wherever no line end is cut in two |
| DocNames.UniversalUnits | scripts/build_doc_indexes.py:36 | each of the three line ends reads as a line feed and every other character as itself |
| DocNames.HeadingOf | scripts/build_doc_indexes.py:37-38 | a heading is what stands between the hashes with their white space and the white space at the end, cut at 110 characters |
| DocNames.TitleIsFirstHeading | scripts/build_doc_indexes.py:34-41 | the title of a document is the heading on its first line that starts with a hash |
| DocNames.TitleIsStem | scripts/build_doc_indexes.py:34-41 | without such a line, or without the file, the title is the stem of the name |
| DocNames.DateKeyIff | scripts/build_doc_indexes.py:44-46 | the key is the first date in the name, its year, month and day without hyphens, and 0 exactly when there is none |
| Text.StrLeIff | scripts/build_doc_indexes.py:56 | the order of paths: a prefix comes first, and otherwise the smaller code point at the first difference |
| DocNames.GroupIff | scripts/build_doc_indexes.py:80-88 | a path is grouped under the root exactly without a slash, under docs/s exactly when it starts with docs/s/, and under any other top folder exactly when it starts with that and is not in a folder of docs |
| DocLayout.RootLayout | scripts/build_doc_indexes.py:94-111 | the root text line by line: the opening, then per folder its heading, a blank line, one titled link per listed document, and a blank line |
| DocLayout.RowHeading | scripts/build_doc_indexes.py:80-110 | the heading above each row from the path it links: the root heading, `docs/s/`, or the top folder |
| DocLayout.DocsLayout | scripts/build_doc_indexes.py:54-75 | the docs text line by line, with the README of a sub-folder before its other documents in tracked order, and the remark where there are no sub-folders |
| DocLayout.DirectDocsInOrder | scripts/build_doc_indexes.py:56-60 | documents directly under docs/ come in path order, as often as they are tracked, the two indexes left out |
| DocLayout.SubFoldersInOrder | scripts/build_doc_indexes.py:61 | sub-folders come in name order without repetition and are exactly those a tracked path lies in |
| DocClean.TrackedPathsAreClean | scripts/build_doc_indexes.py:28-31 | tracked paths contain no line break |
| DocClean.RootIndexIsClean | scripts/build_doc_indexes.py:78-111 | the lines of the root text are exactly its rows, and it contains no carriage return, so it reads back as written |
| DocClean.DocsTextIsLines | scripts/build_doc_indexes.py:70-75 | the docs text, concatenated from paragraphs, is the joined list of its lines, with or without rows |
| DocClean.DocsIndexIsClean | scripts/build_doc_indexes.py:54-75 | the lines of the docs text are exactly its rows, and it contains no carriage return, so it reads back as written |
| DocClean.GeneratedLines | scripts/build_doc_indexes.py:54-111 | for any output of git ls-files, the lines of both texts are the rendered rows for its tracked documents |
| DocRun.DocsIndexReadsNoIndex | scripts/build_doc_indexes.py:54-69 | the docs index depends on the title of no generated file |
| DocRun.RootIndexReadsOneTitle | scripts/build_doc_indexes.py:101-111 | when only generated files differ, the root index is the same text exactly when docs/INDEX.md has the same title or is untracked |
| DocSettle.RunWritesOnlyIndexes | scripts/build_doc_indexes.py:114-125 | a run leaves both indexes reading as generated and every other file as it was |
| DocSettle.RunIsIdentityIff | scripts/build_doc_indexes.py:118-125 | a run changes nothing exactly when both files exist and read as generated |
| DocSettle.SecondRunIdleIff | scripts/build_doc_indexes.py:114-125 | a second run changes nothing exactly when docs/INDEX.md is untracked or carried the generated title before the first |
| DocSettle.RunsSettle | scripts/build_doc_indexes.py:114-125 | from any files, any number of runs from two on ends where two do |
| DocSettle.FirstRunCanBeStale | scripts/build_doc_indexes.py:8 | with docs/INDEX.md tracked but missing, a second run changes the files again |
| DocSettle.SettledIndexesAgree | scripts/build_doc_indexes.py:114-125 | checkouts that differ only in their generated files settle on the same two indexes |
| DocSettle.Checkout.ReadTitle | scripts/build_doc_indexes.py:34-41 | the scan returns the first heading, or the stem |
| DocSettle.Checkout.GroupByFolder | scripts/build_doc_indexes.py:79-88 | the dictionary holds each folder's documents in tracked order, its keys in first-seen order, and a document is in a group exactly when its path says so |
| DocSettle.Checkout.BuildRootIndex | scripts/build_doc_indexes.py:78-111 | grouping, in-place sorting and appending produce the specified text, which DocLayout.RootLayout gives line by line |
| DocSettle.Checkout.BuildDocsIndex | scripts/build_doc_indexes.py:54-75 | the two loops produce the specified text |
| DocSettle.Checkout.Regenerate | scripts/build_doc_indexes.py:114-130 | the tree ends as one run leaves it, untouched with --check, the count is that of stale files, and the exit code of --check is 1 exactly when a run would change something |
| DocSettle.Checkout.RegenerateTwiceThenCheck | scripts/build_doc_indexes.py:114-130 | whatever the files held, a check passes after two runs |
| DocLinks.LinksOfReadsRows | scripts/build_doc_indexes.py:59-69 | a scanner for Markdown links satisfies the laws of link readers the next rows assume: it finds a row's link before those of its title, and nothing without a closing bracket |
| DocLinks.RowLinksIff | scripts/build_doc_indexes.py:110 | a row links its path exactly when no parenthesis closes inside the path |
| DocLinks.RootIndexLinks | scripts/build_doc_indexes.py:78-111 | scanning the root text finds, as a multiset, the links of the fixed prose, every tracked document but itself, and whatever the titles of those documents link, for paths in which no bracket closes |
| DocLinks.RootLinksExactIff | scripts/build_doc_indexes.py:78-111 | nothing but the fixed links and the tracked documents is found exactly when no listed title holds a link |
| DocLinks.DocsIndexLinks | scripts/build_doc_indexes.py:54-75 | scanning the docs text finds, as a multiset, the links of the fixed prose, the targets of the rows, and whatever the titles of the documents below docs/ link |
| DocLinks.DocsLinksExactIff | scripts/build_doc_indexes.py:54-75 | nothing but the fixed links and the row targets is found exactly when no title shown there holds a link |
| DocLinks.EveryDocumentIsLinked | scripts/build_doc_indexes.py:4-11 | after a run, every tracked document is found by scanning the written root index, whatever the files held before, for paths in which no bracket closes |
| DocLinks.TitleCanAddLink | scripts/build_doc_indexes.py:34-41 | a tracked document whose heading is a link makes the root index link an untracked one |
| CpuTime.KeyRounds | cputime.go:87-96 | a hundredth of the iterations, but at least 8 and at most 32 keys, and never more than the iterations once there are eight |
| CpuTime.Sample | cputime.go:70-82 | the filled array ends as the sorted readings |
| CpuTime.PctIndex | cputime.go:102-108 | the index is in range and is the integer part of the fraction of the last index |
| CpuTime.SameSorted | cputime.go:164-168 | sorting depends on the multiset of readings alone, so pooling sorted samples loses nothing |
| CpuTime.PooledSize | cputime.go:153-166 | the pooled sample falls short of the iterations by less than one per key, and is empty exactly below one per key |
| CpuTime.MeasureAcrossKeys | cputime.go:152-169 | panics exactly below eight iterations; otherwise minimum and maximum bound all signing readings, and the median and 95th percentile of signing and of verification are readings of exactly that rank |
| CpuTime.MeasureOneKey | cputime.go:132-141 | the same of one key, whose profile panics exactly for an empty sample |
| CpuTime.AssessedFigures | cputime.go:232-254 | while the serial time fits int64: it is 2(n - 1) verifications, its share is truncated over at least one core, the budget is the whole nanoseconds of the round, and the two are compared |
| CpuTime.RoundFitsIff | cputime.go:232-254 | for a round that converts to int64 nanoseconds, the truncated division fits exactly when the undivided verification time is below the budget of all cores |
| CpuTime.RoundSoundIff | cputime.go:240-252 | that verdict holds for every convertible round and core count exactly when the reported serial time is the true one, which for sets above -2^62 is exactly when the true one fits int64 |
| CpuTime.RoundOverflows | cputime.go:240-252 | 2^47 + 1 validators at 65_536 ns take 2^64 ns, are reported to take none, and fit one second on eight cores |
| CpuTime.FittingIsMonotone | cputime.go:232-254 | fewer validators, faster verification, more cores and longer convertible rounds keep a round that fits |
| Format.HumanBytes | breakdown.go:106-117 | below 1024 plain; otherwise one of the six pairs of a power of 1024 and its letter, with div <= n < 1024 div, and no overflow of int64 |
| ParseInts.ParseInts | main.go:226-243 | fails exactly when some field is neither blank nor spells a positive int64, naming the first such field, or when every field is blank; otherwise returns the values in order |
| ParseInts.FieldValueIff | main.go:234-238 | a field has the value n exactly when 1 <= n < 2^63 and its trimmed text is an optional plus sign, zeros and the digits of n |
| ParseInts.PaddedFieldReads | main.go:229-236 | a printed positive integer reads back through any surrounding white space |
| ParseInts.BlankFieldIgnored | main.go:229-232 | a blank field anywhere changes neither the values nor whether the list is accepted |
| ParseInts.ReadJoined | main.go:226-243 | reading any comma-joined mix of padded numbers in range and blanks returns those numbers in order, and no values when there are none |

## Left out

- Floating point: byte budgets, percentile indices, the suppressed share and ratios are taken over exact reals and truncated; IEEE-754 rounding, infinities and NaN are not part of this model. Members about byte budgets and rounds require that the truncated value fits int64, since Go leaves the conversion of others to the platform.
- Negative budgets, which the flag parsers do not let through: the exact conditions quantify over the others; `Ceiling.CeilingAdmits`, `Ceiling.RequirementAllows` and `Ceiling.GaloisConnection` cover them.
- CpuTime.RoundSoundIff: the int64 condition leaves out set sizes at or below -2^62, where doubling overflows; sizes come from a parser that admits positive ones only.
- The wording of the indexes: the titles, introductions and the row for the docs indexes are parameters without line breaks (`DocIndex.Wording`); headings that steer later runs are literal.
- Markdown beyond links of the form `[text](target)` on one line: escapes, code spans, images, nested brackets and reference links are not part of the link scanner.
- Error returns of the marshaller, key generation and signing: none of them can fail on the values built here.
- SHA-256: digests stand for any 32 bytes, since only their width matters.
- 32-bit platforms: Go's `int` is taken to be 64 bits wide.
- Allocation limits: slices may have any length.
- The clock and the operations it times: what the clock reads is an input, and warm-up calls leave no trace.
- `Share` in the round verdict and `SignSpread`: quotients that are only printed.
- `ProjectStorage`, `humanBits`, `lookupScheme`, the scheme table, `parseFloats` and `parseLinks`: they would only add easy members or rest on `ParseFloat`.
- Tables, notes, approach and mitigation prose, safety booleans, flags and other output.
- `git ls-files` and its quoting of unusual names: its output is an input; paths are taken as git prints them, with no empty or dot components, so splitting at slashes gives their parts.
- Decoding errors of documents: contents are text, and universal newlines are modelled.
