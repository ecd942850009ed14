# Verified model of the modernization and validation engine

The repository modernizes COBOL programs to Java and certifies the result by running both programs,
comparing what they did, and sealing the evidence. This project models its exact cores in Dafny and
proves what they are for:

* **A MATCH means alike.** `Pipeline`, `GeneratedFiles` and `Behaviour` model which effects of two
  executions are compared. All comparisons are MATCH *if and only if* stdout, stderr, exit status,
  every declared artifact and every undeclared file agree, where images of INDEXED and RELATIVE files
  agree when they hold the same records. That last step rests on the byte-level readers
  (`BtreeImage`, `RelativeImage`, `EmulatedFiles`: each reads exactly the images of its format;
  `BtreeLayout` writes a database page by page and proves what is read from it), on the injective record texts (`CanonicalRecords`) and on the comparators (`Comparators`).
* **Evidence is admitted exactly when it is well formed.** `Integrity` reports exactly the faults of a
  manifest; `Assembly` shows exactly when the evidence the pipeline assembles causes none: when the names
  of what one side lacks tell types and markers apart, a condition on the declaration and the files.
* **What is stored is what was sealed.** `Serialization` and `ManifestCodec` prove the codec round
  trip exact; `SealCoverage` proves what a seal commits to.
* **A run's lifecycle is safe under every interleaving.** `RunStages` and `RunStore` model the locked
  store, and `RunEffects` says column by column what each of its calls and each step writes; `Lifecycle`, `RunHistory` and `Approvals` interleave requests, workers, resets and restarts, and prove
  that approvals rest on certified evidence of the current attempt, that stale writes never land, that
  runs only move forward, that job slots are conserved, and when an approved run can still fail.
* **Import cycles.** `ImportGraph` and `DependencyMap` prove the repository's strongly-connected-component
  search correct for every graph.
* **CICS split and merge.** `CicsModel`, `CicsNames`, `CicsMapper` and `CicsGenerator` prove that splitting a
  command list into four grouped lists and merging it back with four cursors loses and reorders
  nothing, and when every emitted call is declared.

`Ordering`, `Bytes`, `Numerals`, `Options`, `Json`, `Evidence` and `Verdicts` hold the data the others share.
Code that changes variables step by step is a method with loops, or a class with those fields, proved
against a specification; code made of expressions is functions. Where several threads interleave, each
locked store call is one step of a state machine. SHA-256 is a function parameter; only
`SealDeterminesEvidence` assumes it collision-free.

## What the proofs found

Each is a lemma with a concrete input or an exact condition.

* A LINK or XCTL without a program name emits a call no interface declares; the mapper's ERROR check
  sees the raw operand, so a name made of colons passes it (`ClientCallsDeclared`,
  `CheckedProgramsClose`, `ColonEscapesTheCheck`). Two programs such as `A-B` and `A_B` get one client
  method; names collide exactly when their lower-cased tokens agree, apart from tokens that start with a
  digit (`HyphenAndUnderscoreCollide`, `ClientMethodsDistinct`, `SameNameExactly`).
* The B-tree reader is documented to answer a malformed page with `UnreadableImage`, which keeps the
  image INCONCLUSIVE (engine/comparators/indexed_records.py:10-16). A page whose entry table, or whose
  child number, runs past its end raises `struct.error` instead, and that ends the run: exactly on the
  images of `RaisesExactly`, two of which `MalformedPagesRaise` gives.
* Candidate images that are not UTF-8 end the run too, and so do numerals that `str.isdigit` accepts and
  `int` refuses: superscripts and other digits that are not decimal, and more than 4300 digits
  (`EmulatedIndexRecords`, `EmulatedRelativeRecords`, `SuperscriptRaises`, `LongNumeralRaises`).
  `DeclarationDriven` says exactly when a run ends this way; `SuperscriptEndsRun` is such a run.
* A RELATIVE image can fit two record lengths and is then refused; a wrong one is never returned
  (`TwoLayoutsFit`, `WrittenNeverMisread`).
* SORTED comparison compares line multisets for text that ends in a line feed and has carriage returns
  only in CRLF (`SortedComparesLines`); without either, different texts can compare equal
  (`UnterminatedCollides`, `CarriageReturnCollides`).
* No exit code and exit code -1 compare equal (`NoExitCodeIsMinusOne`, `ExitCodeByValue`).
* A file named only by a STDOUT, STDERR or EXIT_STATUS artifact is compared by no one
  (`FilesAccountedExactly`).
* Artifact ids could clash if one execution id ended in a dash and the other; the ids of a run never
  do (`SuffixIdsClash`, `RunIdsApart`).
* A declared name can spoil the evidence of a run: a record file called like an unobserved channel or like
  the comparison of an undeclared file shares its id with another artifact when both are missing on one
  side, and the manifest is then rejected (`ChannelNameClashes`, `GeneratedNameClashes`, `Assemble`).
* A stored artifact of an unknown type or role raises a plain ValueError, where every structural deviation
  is documented to raise `PersistenceCorruptionError` (api/serialization.py:522-529) (`RefusedExactly`,
  `UnknownArtifactEscapes`).
* The seal leaves out what an artifact's identity says about its own hash, size and record count,
  although `EvidenceManifest.manifest_hash` is documented to cover all artifact identities
  (engine/evidence/models.py:410-420) (`SealIgnoresIdentity`).
* An approved run can be in stage FAILED. It never is, in its attempt, if and only if it was COMPLETED
  when the approval was written (`ApprovedStaysExactly`, `ApprovingCompletedIsExact`). Two ways lead
  there: a result is stored and can be approved before the run ends, and a restart then fails the run
  (`ApprovedRunCanFail`); or sealing fails after the verdict, and the VERIFIED result is stored under
  FAILED and then approved (`FailedRunCanBeApproved`).

## Model

| member | source | states |
|---|---|---|
| ImportGraph.ListingIsUnique | tools/dependency_map.py:66-101 | a graph has only one listing of its import cycles, so the specification of `_cycles` determines its result |
| ImportGraph.NoCyclesMeansAcyclic | tools/dependency_map.py:66-101 | the listing is empty exactly when no two different modules reach each other; importing oneself is no cycle |
| ImportGraph.CyclesShareNothing | tools/dependency_map.py:66-101 | two cycles with a common module are the same cycle |
| ImportGraph.CycleOf | tools/dependency_map.py:66-101 | any two modules that reach each other lie together in a listed cycle |
| ImportGraph.ReachByImports | tools/dependency_map.py:66-101 | a module reaches itself and what its imports reach, and nothing else |
| ImportGraph.ListingOrder | tools/dependency_map.py:94-101 | modules are ordered by the first character in which their names differ, a prefix before what it starts, and cycles with different first modules by these |
| DependencyMap.FindCycles | tools/dependency_map.py:66-101 | for every finite import graph the result lists exactly the strongly connected components of at least two modules, each once, members and list sorted; it is empty exactly when the graph is acyclic apart from self-imports |
| DependencyMap.CycleSearch.Visit | tools/dependency_map.py:75-95 | a visit numbers everything it can newly reach, lists every component it completes and leaves on the stack only what still reaches an open module; it terminates on every graph |
| DependencyMap.CycleSearch.PopComponent | tools/dependency_map.py:87-93 | the pop loop removes exactly the stack from the visited module up |
| DependencyMap.CycleSearch.Cycles | tools/dependency_map.py:66-101 | visiting every module not yet numbered yields the complete listing |
| DependencyMap.SegmentIsComponent | tools/dependency_map.py:86-95 | when a module's low number is its own, the stack from it up is exactly its strongly connected component |
| DependencyMap.AllListed | tools/dependency_map.py:97-101 | between visits the stack is empty, so every module in a cycle has been listed |
| CicsMapper.Map | engine/cics/mapper.py:105-190 | the loop over a program's commands builds the flow and the four lists, each list holding the contributions of the commands in source order |
| CicsMapper.Merge | engine/cics/mapper.py:192-235 | the merged application holds each program's service, in order |
| CicsMapper.Validate | engine/cics/mapper.py:345-391 | an ERROR is reported exactly for file commands without a resource and LINK or XCTL without a program, a WARNING exactly for nameless queue commands, a RETURN before the end and a missing final RETURN |
| CicsGenerator.ElementInPlace | engine/cics/mapper.py:128-163 | the element a command contributes sits in its list right after those of the commands before it |
| CicsMapper.CollectMember | engine/cics/mapper.py:128-163 | a list holds an element exactly when some command contributed it |
| CicsMapper.ContributionsByCategory | engine/cics/subset.py:55-163 | each command contributes one element to the list of its category and none elsewhere, except that RETURN is both an interaction and a boundary |
| CicsMapper.FlowSays | engine/cics/mapper.py:128-163 | the flow has one step for each command, with its position, its type and its text; exactly HANDLE and ASSIGN are explicit only, and exactly eight types unsupported |
| CicsMapper.IosSay | engine/cics/mapper.py:237-252 | a terminal operation carries the map name and the names behind the colons of length and INTO, or FROM without it |
| CicsMapper.InteractionsSay | engine/cics/mapper.py:254-265 | an interaction carries the names of its program and its COMMAREA |
| CicsMapper.AccessesSay | engine/cics/mapper.py:282-300 | an access carries the name of its resource, and is of a queue exactly for the queue commands |
| CicsMapper.BoundariesSay | engine/cics/mapper.py:267-280 | a boundary carries transaction and COMMAREA; SYNCPOINT commits, ABEND rolls back, RETURN is pseudo-conversational |
| CicsModel.ValueNameIsBehind | engine/cics/mapper.py:393-395 | the name of a host variable is what stands behind the colons its operand starts with |
| CicsModel.OneBehind | engine/cics/mapper.py:393-395 | only one name stands there |
| CicsGenerator.AdvanceBoundary | engine/cics/generator.py:553-560 | the loop stops just past the first boundary of the wanted kind, or at the end |
| CicsGenerator.RenderStep | engine/cics/generator.py:426-551 | one step renders, or fails with an IndexError, exactly as specified for an arbitrary service |
| CicsGenerator.GenerateSteps | engine/cics/generator.py:395-424 | the four cursors threaded through the flow give the bodies of all steps, or the first IndexError |
| CicsGenerator.SplitThenMerge | engine/cics/generator.py:395-560 | for every program the mapper splits, the merge renders every command in source order exactly as on its own; no cursor leaves its list |
| CicsGenerator.StepsSayTheirCommands | engine/cics/generator.py:426-551 | stated from the operands alone: of every program the mapper splits, each step's call has the method of its command and, in this order, map, data and length of a terminal operation, the resource of an access, or the Java name of the program linked to; other steps note their command |
| CicsGenerator.FlowAligned | engine/cics/generator.py:395-560 | before each step every cursor points at the element its own command contributed, past exactly the boundaries consumed |
| CicsGenerator.ClientTargets | engine/cics/generator.py:246-296 | the target list holds every non-empty LINK and XCTL target of any service, each once |
| CicsGenerator.RuntimeCallsDeclared | engine/cics/generator.py:153-244 | every runtime call of every service of a merged application is a method of the one runtime interface, at its arity |
| CicsGenerator.ClientCallsDeclared | engine/cics/generator.py:246-296 | every client call in the rendered bodies of a merged application is declared if and only if no LINK or XCTL lacks a program name, or a program whose Java name is Unknown stands in |
| CicsGenerator.ClosedByCommands | engine/cics/generator.py:395-560 | the client calls in the bodies the merge renders are declared if and only if the one of each single command is: splitting and merging neither adds nor loses a call |
| CicsGenerator.CheckedProgramsClose | engine/cics/mapper.py:345-395 | programs without an ERROR have every client call declared if and only if each kind of link to a name of colons alone has a stand-in |
| CicsGenerator.ColonEscapesTheCheck | engine/cics/mapper.py:345-395 | a concrete program whose one program name is a colon passes the ERROR check, and its rendered call is not declared |
| CicsGenerator.ClientMethodsDistinct | engine/cics/generator.py:246-296 | the client interface declares no method twice if and only if no two programs linked in the same way have the same name parts |
| CicsGenerator.HyphenAndUnderscoreCollide | engine/cics/generator.py:246-296 | a concrete program without an ERROR links `A-B` and `A_B` and gets one client method twice |
| CicsNames.SameNameExactly | engine/cics/naming.py:24-39 | two operands get one Java name if and only if they have the same tokens in lower case, separators dropped, where a token starting with a digit belongs to the one before it and no token reads as `unknown` |
| CicsNames.SeparatorsCollide | engine/cics/naming.py:4-11 | `A-B` and `A_B` have one Java name, and `AB` has another |
| CicsNames.PascalJoins | engine/cics/naming.py:24-39 | a Java name is the capitalized tokens of its operand, or `Unknown` without any |
| CicsModel.CharacterCases | engine/cics/naming.py:24-39 | letters and digits belong to tokens; letters change case and digits do not |
| CicsModel.OnlyTheseCharacters | engine/cics/naming.py:4-11 | nothing else belongs to a token |
| BtreeImage.BdbBtreeRecords | engine/comparators/indexed_records.py:64-127 | an image is read to these records if and only if it is a certified file whose page tree, of distinct pages, holds them in order as live plain items; it raises if and only if its walk runs into a page whose own numbers point past its end; every other image is unreadable |
| BtreeImage.BtreeReader.Walk | engine/comparators/indexed_records.py:98-126 | from any page the walk ends as the outcome-valued specification does, records, marked pages and kind of failure alike; each page is visited at most once |
| BtreeImage.BtreeReader.WalkChildren | engine/comparators/indexed_records.py:98-126 | the children of an internal page are walked in order, each with the pages before it marked, up to the first failure |
| BtreeImage.BtreeReader.ReadLeaf | engine/comparators/indexed_records.py:105-124 | the pair loop of a leaf appends exactly its live records or fails as its first bad pair does |
| BtreeImage.ReadExactly | engine/comparators/indexed_records.py:64-127 | the specified walk reads an image to these records if and only if the image holds them in a tree of distinct pages |
| BtreeImage.RaisesExactly | engine/comparators/indexed_records.py:10-16 | an image raises instead of being unreadable if and only if the walk from the root reaches an item table or a child number that runs past its page, meeting nothing unreadable before |
| BtreeImage.MalformedPagesRaise | engine/comparators/indexed_records.py:88-106 | two concrete images, one with an entry count past its page, one with an internal item cut by the end of the page, raise |
| BtreeImage.TreeIsWalked | engine/comparators/indexed_records.py:98-126 | a tree of distinct unseen pages is walked to exactly its records, in key order, and its pages are marked |
| BtreeImage.WalkedIsTree | engine/comparators/indexed_records.py:98-126 | whatever is walked without failure is such a tree |
| BtreeImage.TreeIsUnique | engine/comparators/indexed_records.py:98-126 | an image has at most one page tree below a page |
| BtreeLayout.WrittenIsRead | engine/comparators/indexed_records.py:18-127 | a database file, written from its pages, items, offsets and deletion marks, is read to these records if and only if its links make a tree of distinct pages under the root, with live pairs that are plain and hold them in key order; any other one is unreadable, and none raises |
| BtreeLayout.LeavesRead | engine/comparators/indexed_records.py:105-124 | a written leaf is read to the data of its live pairs, and is unreadable if a live pair is not plain |
| BtreeLayout.BranchReads | engine/comparators/indexed_records.py:102-106 | a written internal page names exactly the children of its links |
| BtreeLayout.TwoLeavesAreRead | engine/comparators/indexed_records.py:64-127 | a database of an internal page above two leaves is read to both their records, whatever the keys and the unused fields |
| BtreeLayout.CertifiedExactly | engine/comparators/indexed_records.py:67-78 | stated in bytes: an image is certified if and only if it has the magic number, version 9, a page size of 512 or a double that divides the file, no encryption and metadata of type 9 |
| BtreeLayout.ReadableExactly | engine/comparators/indexed_records.py:80-86 | a page is readable if and only if it lies in the file, is not the first and names itself |
| BtreeLayout.ItemsExactly | engine/comparators/indexed_records.py:88-96 | stated in bytes: a page raises if and only if its offset table runs past it, and has these offsets if and only if the table holds them, each behind the table and before the last three bytes |
| RelativeImage.GnucobolRelativeRecords | engine/comparators/indexed_records.py:161-183 | an image with exactly one possible record length is read with it, an empty image holds nothing, every other image is unreadable; none raises |
| RelativeImage.ReadSizes | engine/comparators/indexed_records.py:170 | the sizes of all slots under an assumed record length |
| RelativeImage.ReadLive | engine/comparators/indexed_records.py:178-183 | the live slots with their record numbers |
| RelativeImage.WrittenReadsBack | engine/comparators/indexed_records.py:161-183 | an image written slot by slot reads back to exactly its live records and numbers under its own length |
| RelativeImage.WrittenNeverMisread | engine/comparators/indexed_records.py:161-183 | a written image with a live record is read to exactly its live pairs or refused; refused exactly when another length fits |
| RelativeImage.FitsExactly | engine/comparators/indexed_records.py:161-177 | an image fits a record length if and only if it is the file of slots of that length, written one by one, of which one is live |
| RelativeImage.NothingLiveIsRefused | engine/comparators/indexed_records.py:161-183 | a file of unused slots alone is refused under its own length |
| RelativeImage.FittingHasLive | engine/comparators/indexed_records.py:161-183 | an image that is read holds a record |
| RelativeImage.TwoLayoutsFit | engine/comparators/indexed_records.py:161-183 | a concrete image that fits two record lengths |
| EmulatedFiles.EmulatedIndexRecords | engine/comparators/indexed_records.py:130-147 | a file is read to these records if and only if it is a header with a key length and one terminated line per entry, each key of that length; it raises if and only if it is not UTF-8 or the key length is digits that `int` refuses; it is unreadable otherwise |
| EmulatedFiles.EmulatedRelativeRecords | engine/comparators/indexed_records.py:186-201 | a file is read to these slots if and only if it is the header and one terminated line per slot in increasing number; it raises if and only if it is not UTF-8, or has a number that `int` refuses behind entries in order; it is unreadable otherwise |
| EmulatedFiles.IndexRecordsUnique | engine/comparators/indexed_records.py:130-147 | a file holds only one list of records |
| EmulatedFiles.RecordsAreLines | engine/comparators/indexed_records.py:142-147 | each record is its line without the first separator |
| EmulatedFiles.SlotsAreLines | engine/comparators/indexed_records.py:194-201 | each slot is the number before the first separator of its line and the text behind it |
| EmulatedFiles.SuperscriptRaises | engine/comparators/indexed_records.py:136-138 | two concrete UTF-8 files, an index and a relative one, raise for a superscript two |
| EmulatedFiles.LongNumeralRaises | engine/comparators/indexed_records.py:136-138 | an index file with a key length of `n` ASCII digits raises if and only if `n` exceeds 4300 |
| Numerals.AsciiNumeral | engine/comparators/indexed_records.py:196 | ASCII text is a numeral exactly when it is all digits, of its decimal value up to 4300 digits and refused beyond |
| Numerals.SuperscriptRefused | engine/comparators/indexed_records.py:136-138 | a superscript two is a digit to `isdigit` and refused by `int` |
| Numerals.PiecesAreUtf8 | engine/comparators/indexed_records.py:135 | the pieces of UTF-8 text cut at an ASCII character are UTF-8, so lines and keys decode as the text does |
| Numerals.Utf8Exactly | engine/comparators/indexed_records.py:135 | bytes are UTF-8 if and only if they encode some text |
| Numerals.DecodedBack | engine/comparators/indexed_records.py:135 | text survives being encoded and decoded |
| CanonicalRecords.CanonicalInjective | engine/comparators/indexed_records.py:150-158 | equal canonical texts mean equal record lists |
| CanonicalRecords.CanonicalRelativeInjective | engine/comparators/indexed_records.py:204-208 | equal canonical texts mean equal slots, numbers included |
| CanonicalRecords.RelativeStep | engine/comparators/indexed_records.py:204-208 | splitting the record text into lines and numbering them gives one numbered line per slot |
| CanonicalRecords.LineShows | engine/comparators/indexed_records.py:150-158 | a record's line is two hexadecimal digits for each byte, a tab, and its printable characters with dots for the others |
| Comparators.HandleMissing | engine/comparators/framework.py:123-164 | a missing side is always a difference and never a MATCH: INCONCLUSIVE exactly under the policy UNAVAILABLE, else a MISMATCH; only two present sides go on to comparison |
| Comparators.Normalize | engine/comparators/framework.py:175-196 | the policy is applied in order; it fails exactly when it names an unknown normalization |
| Comparators.FoldSplits | engine/comparators/framework.py:187-190 | text before and after a CRLF is folded by itself, and the CRLF becomes a line feed |
| Comparators.FoldKeeps | engine/comparators/framework.py:187-190 | text without a CRLF is kept |
| Comparators.CrLfLinesFold | engine/comparators/framework.py:187-190 | lines ended by CRLF become the same lines ended by line feeds |
| Comparators.AgreeByLines | engine/comparators/framework.py:175-196 | under `crlf_to_lf` two texts agree if and only if they have the same lines, a final carriage return of a line not counted |
| Comparators.SplitConcat | engine/comparators/framework.py:166-173 | whole lines survive being joined and split again |
| Comparators.SortedComparesLines | engine/comparators/framework.py:166-173 | for text that is empty or ends in a line feed, with carriage returns only before line feeds, SORTED and UNORDERED compare equal if and only if the two texts have the same multiset of lines |
| Comparators.UnterminatedCollides | engine/comparators/framework.py:166-173 | without the final line feed two different texts compare equal |
| Comparators.CarriageReturnCollides | engine/comparators/framework.py:166-173 | with a carriage return that no line feed follows two different texts compare equal |
| Comparators.CompareText | engine/comparators/framework.py:420-468 | with both sides present, a ValueError exactly when a declared normalization fails on one, else MATCH exactly when they are equal after normalization and ordering, otherwise MISMATCH; a MATCH, and nothing else, has no differences; INCONCLUSIVE exactly when a side is missing under the policy UNAVAILABLE |
| Comparators.ExactAgreement | engine/comparators/framework.py:420-468 | without policies that is equality of bytes |
| Comparators.CompareExit | engine/comparators/framework.py:349-411 | MATCH exactly when both sides parse to the same integer; INCONCLUSIVE exactly when one of two present sides does not parse, or a side is missing under the policy UNAVAILABLE |
| Comparators.ParseRendered | engine/comparators/framework.py:371-373 | a number survives being written and parsed if and only if it is below ten to the power of 4300; an exit code always does |
| Comparators.ParseSigned | engine/comparators/framework.py:371-373 | white space and one sign around a numeral are understood; a numeral is digits with single underscores between them, at most 4300, of their decimal value |
| Comparators.PlainDigitsExactly | engine/comparators/framework.py:371-373 | text is a numeral if and only if it is digits with single underscores between them |
| Comparators.CompareRecords | engine/comparators/framework.py:564-645 | no difference exactly when the contents are equal, for every record length; a difference for exactly the records and the trailing bytes that differ |
| Comparators.CompareFixed | engine/comparators/framework.py:482-562 | MATCH exactly when both sides are present and equal and no two record counts differ; INCONCLUSIVE exactly when a side is missing under the policy UNAVAILABLE |
| Comparators.RecordsDetermine | engine/comparators/framework.py:564-622 | whole records and trailing bytes together determine the content |
| Pipeline.CompareArtifact | engine/pipeline.py:413-469 | a declared artifact ends the pipeline exactly when its length, comparator or normalization is at fault; otherwise its comparison holds what each execution produced for it, counts the whole records of a record file, is a MATCH exactly when the executions agree on it, INCONCLUSIVE exactly when a side is missing under the policy UNAVAILABLE, and reports the normalization, ordering and policy it was made with |
| Pipeline.FaultyExactly | engine/pipeline.py:413-469 | stated from the declaration and the files: at fault are exactly record files of uneven length, comparators of another type, and unknown normalizations of texts that both executions have |
| Pipeline.StripIsBetween | engine/pipeline.py:451 | the declared comparator is read without the blanks around it |
| Pipeline.FreshName | engine/pipeline.py:405-407 | appending to a taken name terminates, in the first free name of the series |
| Pipeline.AddUnlessDeclared | engine/pipeline.py:404-412 | a missing type is added once, under a free name, with its default comparison |
| Pipeline.Required | engine/pipeline.py:391-412 | stdout, stderr and exit status are compared for every workload, each added at most once; declared artifacts and distinct names are kept |
| GeneratedFiles.BaseNameOfImage | engine/pipeline.py:773-787 | a companion image has its file's base name plus the suffix |
| GeneratedFiles.ImageIsEmulated | engine/pipeline.py:773-787 | both images of a keyed file are recognised as such |
| GeneratedFiles.EmulatedExactly | engine/pipeline.py:773-787 | in any directory, a file is an image of a keyed file if and only if it has its name, or its name with an extension |
| GeneratedFiles.AgreementExactly | engine/pipeline.py:803-829 | the records of a file agree if and only if its name is that of one organization, the oracle alone has the file and the candidate alone its `.idx` or `.rel`, and both hold the same records |
| GeneratedFiles.RaisingExactly | engine/pipeline.py:825-829 | such a file raises if and only if the oracle's image is malformed, or is readable beside a candidate image that raises |
| GeneratedFiles.ReadPair | engine/pipeline.py:808-829 | both images decode, and then their texts are equal exactly when both hold the same records; an exception its caller does not catch comes exactly from a bursting oracle image, or from a readable one beside a candidate image that raises |
| GeneratedFiles.CompareFileRecords | engine/pipeline.py:789-860 | exactly the record files present each on its own side and readable on both are handled, with both their images; all their comparisons match exactly when their records agree; it fails if and only if such a file raises |
| GeneratedFiles.CompareGenerated | engine/pipeline.py:517-546 | a generated file matches exactly when both sides wrote it with equal bytes |
| GeneratedFiles.CompareFiles | engine/pipeline.py:491-546 | every undeclared file not handled by its records is compared; all match exactly when each is equal on both sides and no image of a keyed file |
| GeneratedFiles.FilesTogether | engine/pipeline.py:471-546 | no undeclared file escapes: all comparisons match if and only if each is equal on both sides or an image of a file whose records agree |
| GeneratedFiles.CompareUndeclared | engine/pipeline.py:471-546 | the same for the two loops together, with distinct derived names; each undeclared file has its comparison, of the bytes both sides wrote or of the record texts of its images, with MATCH, MISMATCH or INCONCLUSIVE exactly as these say, and there are no others; the loops fail if and only if the images of an undeclared record file raise; a side lacks exactly the files it did not write and no record file accounts for |
| GeneratedFiles.DistinctTogether | engine/pipeline.py:839-846 | derived names never clash unless a file is called like another one's records |
| Behaviour.CompareDeclared | engine/pipeline.py:413-469 | the loop over the artifacts fails exactly when one is at fault, and matches throughout exactly when the executions agree on all |
| Behaviour.DeclarationDriven | engine/pipeline.py:368-625 | a run fails if and only if a declared artifact is at fault or the images of an undeclared record file raise, the latter only if none is at fault; otherwise every comparison is a MATCH if and only if the two executions behaved alike, and each tells what both sides produced and how they were compared |
| Behaviour.SuperscriptEndsRun | engine/pipeline.py:825-829 | a concrete run with nothing declared, an empty RELATIVE file and a superscript record number ends in a reader's exception |
| Behaviour.RequiredAlike | engine/pipeline.py:391-412 | the added artifacts compare exactly the outputs the declaration omits |
| Behaviour.MatchAccountsForFiles | engine/pipeline.py:471-546 | when everything matches, every file either side wrote agrees, unless only an artifact that is no file names it |
| Behaviour.MatchMeansSameEffects | engine/pipeline.py:368-625 | without normalization and reordering, matching means equal stdout, stderr and exit value, and equal bytes or equal records of every such file |
| Behaviour.FilesAccountedExactly | engine/workload.py:59 | the claim about files holds for a declaration if and only if every path it names is also named by a file artifact |
| Behaviour.NoExitCodeIsMinusOne | engine/pipeline.py:287-289 | matching exit statuses are equal or the pair of no exit code and -1 |
| Behaviour.ExitCodeByValue | engine/pipeline.py:287-289 | replacing no exit code by -1 changes no comparison |
| Assembly.IdDetermines | engine/execution/artifacts.py:51-267 | an artifact id determines its execution and its type or name, when no execution id is the other or ends in a dash and the other |
| Assembly.RunIdsApart | engine/pipeline.py:1032-1033 | the ids of the two executions of a run satisfy this, failed builds included |
| Assembly.SuffixIdsClash | engine/execution/artifacts.py:152-175 | without it two artifacts can share an id |
| Assembly.NamesHoldExactly | engine/pipeline.py:401-407 | what the comparisons of a run lack has names that tell types and markers apart if and only if the declaration and the files say so beforehand |
| Assembly.ReservedNamesApart | engine/pipeline.py:401-407 | different declared names that leave those of derived artifacts and of markers alone are apart in every run |
| Assembly.ChannelNameClashes | engine/execution/artifacts.py:152-175 | a record file called like an unobserved channel and missing clashes with its marker, in a run that otherwise goes through |
| Assembly.GeneratedNameClashes | engine/execution/artifacts.py:152-175 | so does a missing record file called like the comparison of an undeclared file of one side |
| Assembly.LookupFindsItsOwn | engine/evidence/integrity.py:379-405 | the validator's lookup of a compared id yields an artifact of the right side and type, when what is missing under one name is of one type |
| Assembly.LookupBesideMarkers | engine/evidence/integrity.py:379-405 | so it does in a manifest that also carries markers, when nothing is missing under the name of one |
| Assembly.UnobservedEffects | engine/pipeline.py:907-958 | one pair of markers and one INCONCLUSIVE comparison per channel no comparator observes |
| Assembly.MarkerComparisonAdmitted | engine/pipeline.py:907-958 | the comparison of two markers passes every check on comparisons |
| Assembly.EvidenceSays | engine/execution/artifacts.py:38-267 | the evidence of every comparison names two artifacts, each with the hash and size of its own side's content, repeated by its identity, its record count, execution and role, those of empty content if the side is missing; the comparison records result, differences, normalization, ordering and policy |
| Assembly.ComparisonAdmitted | engine/pipeline.py:336-366 | an assembled comparison passes every check on comparisons when the names hold |
| Assembly.AllComparisonsAdmitted | engine/evidence/integrity.py:379-448 | for executions with ids apart all comparisons of the evidence are admitted if and only if no two of different types and one name are missing on one side, and none is missing under the name of a used channel |
| Assembly.ArtifactAdmitted | engine/execution/artifacts.py:38-45 | an assembled artifact belongs to a recorded execution and is compared |
| Assembly.AssembledIsAdmitted | engine/evidence/integrity.py:123-179 | a manifest around assembled evidence, with markers of any unobserved channels, is admitted if and only if its seal, identities and executions are in order and the names hold |
| Assembly.Assemble | engine/pipeline.py:619-625 | the evidence of a run: it fails exactly as the comparisons do; every comparison tells what its two sides produced, and its evidence records the hash, size, execution and role of each; all results are MATCH exactly when the executions behaved alike and no channel is unobserved; it is admitted if and only if seal, identities and executions are in order and the declared names are apart |
| Integrity.RunBindings | engine/evidence/integrity.py:185-232 | reports exactly the executions, artifacts and comparisons of another run |
| Integrity.WorkloadBindings | engine/evidence/integrity.py:238-280 | reports exactly the evidence bound to another workload |
| Integrity.IdentityBindings | engine/evidence/integrity.py:286-351 | reports exactly a candidate of another source, a missing oracle, and oracle executions of another image, numbered among the oracle executions |
| Integrity.ExecutionBindings | engine/evidence/integrity.py:357-373 | reports exactly artifacts of no execution and executions whose source tree changed |
| Integrity.PairingViolations | engine/evidence/integrity.py:408-448 | reports exactly the pairing faults of one comparison |
| Integrity.UnknownArtifacts | engine/evidence/integrity.py:379-404 | reports exactly the artifacts a comparison names and the manifest does not hold |
| Integrity.ComparisonBindings | engine/evidence/integrity.py:379-405 | reports exactly the unknown artifacts and the pairing faults of all comparisons |
| Integrity.ComparatorBindings | engine/evidence/integrity.py:455-505 | reports exactly comparisons by another comparator and unknown results |
| Integrity.ExitChecks | engine/evidence/integrity.py:533-572 | reports exactly a missing exit status artifact or comparison where the exit status is behaviour |
| Integrity.SealChecks | engine/evidence/integrity.py:578-612 | reports exactly a missing or a broken seal |
| Integrity.RequiredEvidence | engine/evidence/integrity.py:618-703 | reports exactly the missing executions, sides and comparisons and the artifacts never compared |
| Integrity.Validate | engine/evidence/integrity.py:123-179 | a manifest is admitted if and only if it satisfies the declarative relation, under its own seal; otherwise exactly its faults are reported |
| Integrity.AdmissibleMeansFaultless | engine/evidence/integrity.py:123-179 | the declarative relation is the absence of every fault |
| Integrity.WholeExactly | engine/evidence/integrity.py:286-351 | stated field by field: what an admissible manifest holds as a whole, the runtime ids, phases and endings of its executions included |
| Integrity.ComparisonExactly | engine/evidence/integrity.py:379-505 | stated field by field: an admissible comparison is of this run, of two artifacts of its type and of either role, the last ones with their ids, by a comparator with one of the two names of that type, with a known result |
| Integrity.PartsExactly | engine/evidence/integrity.py:357-373 | stated field by field: admissible executions and artifacts |
| Integrity.ExitNeedsComparison | engine/evidence/integrity.py:533-572 | a candidate that ended in `nonzero_exit`, or an oracle in `return_code`, without a comparison of exit statuses is rejected |
| Integrity.ExitStatusIsCompared | engine/evidence/integrity.py:533-572 | an admitted manifest whose exit status is behaviour compares the exit status of an ORACLE with that of a CANDIDATE, even if artifact ids repeat |
| Integrity.ByIdFinds | engine/evidence/integrity.py:379-405 | the lookup by id finds an artifact of the manifest, and nothing exactly when none has the id |
| Integrity.ByIdIsLast | engine/evidence/integrity.py:379-405 | of several artifacts with one id the last is found |
| Integrity.ImageFaultExactly | engine/evidence/integrity.py:320-351 | a wrong image is reported under the number of oracle executions before it |
| RunStages.TransitionsAreOrdered | api/store.py:106-131 | permitted transitions are a partial order whose maximal stages are exactly the terminal ones |
| RunStages.IndexIsPlace | api/store.py:83-85 | every stage but FAILED has its own place in the lifecycle order |
| RunStages.TransitionsExactly | api/store.py:106-131 | a transition keeps the stage, ends a run that has not ended, or goes to a later place in the order; no other is permitted |
| RunStages.AnchorRemembers | api/store.py:247-255 | after any sequence of stages the anchor is the last one that is not terminal |
| RunStore.Store.Add | api/store.py:632-663 | a new run is stored with its anchor; an existing one is a conflict |
| RunStore.Store.Update | api/store.py:682-742 | only a record of the stored generation, on a permitted transition, replaces the worker's columns; approval, seal and bundle stay |
| RunStore.Store.Decide | api/store.py:744-804 | a decision reaches row and log together, or neither when the checked generation is gone |
| RunStore.Store.Seal | api/store.py:816-852 | a seal lands only in the attempt that produced it |
| RunStore.Store.Generated | api/store.py:854-892 | a bundle is recorded only in the attempt that produced it |
| RunStore.Store.Revalidate | api/store.py:900-968 | a terminal run starts its next generation with result, approval, seal and anchor cleared; a discarded decision is logged |
| RunStore.Store.Interrupt | api/store.py:970-996 | every unfinished run, and no other, becomes FAILED; the count is theirs |
| RunStore.PersistFinal | api/service.py:954-1001 | success is reported exactly when the store accepts the record and one of three attempts goes smoothly; the record is stored exactly when the store accepts it and some attempt reaches it, exceptions after the write included |
| RunStore.RewritingChangesNothing | api/service.py:954-1001 | a terminal record that landed is accepted again by a retry and changes nothing |
| RunEffects.UpdateWrites | api/store.py:682-742 | an accepted record puts stage, error, completion time, result, report and contract into its row, and its stage into the anchor unless it is terminal; nothing else changes |
| RunEffects.UpdateRefuses | api/store.py:682-742 | any other record changes nothing and is answered with unknown run, conflict or invalid transition |
| RunEffects.DecisionWrites | api/store.py:744-804 | a decision of the stored attempt, or of none in particular, writes the approval of its run and one event; any other changes nothing |
| RunEffects.SealWrites | api/store.py:816-852 | a seal is written to its run alone |
| RunEffects.BundleWrites | api/store.py:854-892 | path and entry point of a bundle are written to their run alone |
| RunEffects.ResetWrites | api/store.py:900-968 | the columns of a run after its reset, one by one |
| RunEffects.InterruptWrites | api/store.py:970-996 | exactly the unfinished runs fail, with message and time, and keep everything else |
| RunEffects.SlotSteps | api/service.py:458-551 | a slot is taken only below the limit and given back once |
| RunEffects.NewRunStep | api/service.py:782-799 | a new run is stored blank with its thread; an id that exists returns the slot |
| RunEffects.ResetStep | api/service.py:1042-1050 | a reset that lands gives its thread the new row; a refused one returns the slot |
| RunEffects.LaunchSteps | api/service.py:805-822 | a launched thread starts; otherwise the slot is back and the record says FAILED with message and time |
| RunEffects.LoadSteps | api/service.py:846-860 | the worker takes the stored row, or leaves |
| RunEffects.WorkSteps | api/service.py:732-1134 | what a worker writes into its record, and when that record is sent |
| RunEffects.ArtifactSteps | api/service.py:1390-1526 | bundles and seals go to the attempt of the worker's record |
| RunEffects.FinalSteps | api/service.py:954-1001 | an attempt to persist sends the record, and the thread leaves once it is stored |
| RunEffects.ApprovalSteps | api/service.py:1693-1712 | a check is taken only of a certified run whose seal is that of its bundle, and its approval is bound to the attempt checked |
| RunEffects.RestartStep | api/store.py:970-996 | a restart ends all threads and checks |
| Lifecycle.StepKeeps | api/service.py:732-1134 | every step of every thread keeps all invariants |
| Lifecycle.AlwaysInv | api/service.py:732-1134 | the invariants hold after every sequence of steps |
| Lifecycle.ApprovedIsCertified | api/service.py:1693-1742 | in every reachable state an APPROVED run holds a verdict in state VERIFIED whose manifest hash is that of the stored evidence, which the validator admits |
| Lifecycle.ApprovalIsLogged | api/store.py:768-814 | the approval columns are the fold of the event log; resets never outnumber generations |
| Lifecycle.OneWriter | api/service.py:1005-1134 | at most one thread can write to the current attempt of a run; an unfinished run has none exactly when its worker was lost |
| Lifecycle.SlotsConserved | api/service.py:458-551 | the job counter equals the slots in use, stays between zero and the limit, and is zero when all threads have ended |
| Lifecycle.ApprovedKeeps | api/service.py:1693-1712 | an approval checked in one attempt lands in that attempt, in row and log, or changes nothing |
| Lifecycle.RejectLands | api/service.py:1709-1712 | a rejection of a stored run lands, whatever its generation and earlier approval: the row holds exactly that decision and the log one event more, and nothing else changes; of an unknown run it changes nothing |
| Lifecycle.RevalidatedKeeps | api/service.py:1038-1049 | a reset that lands leaves its own thread, and no other, able to write to the new attempt; a refused one changes nothing and ends its thread |
| Lifecycle.SendKeeps | api/store.py:682-742 | a record sent by any thread, fresh or stale, keeps all invariants; a worker that sends a result has sealed before |
| Lifecycle.UnlaunchedKeeps | api/service.py:807-822 | a worker that cannot be launched returns its slot and leaves its run to be failed by the request, which owns it |
| Lifecycle.RestartKeeps | api/store.py:970-996 | a restart leaves no unfinished run, no slot in use and every approval still certified |
| RunHistory.OnlyForward | api/store.py:106-131 | between any two moments a run's generation grows or its stage moves forward with its result unchanged, and with its bundle and seal once it has a result; the approval log only grows |
| RunHistory.StaleWritesNeverLand | api/store.py:700-720 | a step that changes a run is a restart, its reset, a decision bound to its attempt, a rejection, or a step of the one thread that owns the attempt |
| RunHistory.ResetIsClean | api/store.py:930-967 | a reset leaves nothing of the attempt before |
| RunHistory.ColumnsAreOfThisAttempt | api/store.py:682-852 | a stored result or seal was written by an owner of the present attempt, and an approval or rejection was decided in it |
| RunHistory.ApprovedIsAsChecked | api/service.py:1694-1712 | in every reachable state the result, the bundle and the seal of an APPROVED run are the ones its approval was checked against in this attempt; the seal was that of the bundle on disk, if there was one |
| Approvals.ApprovedStaysExactly | api/service.py:1693-1712 | in every reachable state an APPROVED run stays out of FAILED in its attempt, whatever happens, if and only if it is COMPLETED; otherwise it can fail with its approval in place |
| Approvals.ApprovingCompletedIsExact | api/service.py:1707-1712 | an approval that lands leads to a run that never fails in this attempt if and only if the run is COMPLETED when the approval is written |
| Approvals.CertifiedResultExists | api/service.py:1726-1742 | evidence and a verdict that pass the approval gate exist, under any hash |
| Approvals.ApprovedRunCanFail | api/store.py:970-996 | a run approved while still validating becomes FAILED in a restart, approval in place |
| Approvals.FailedRunCanBeApproved | api/service.py:1501-1526 | without any restart, a worker that fails while sealing after its verdict stores a VERIFIED result under FAILED, and that run can be approved |
| Serialization.FillMap | api/serialization.py:150-157 | the dictionary loop decodes every entry or fails |
| Serialization.ReadAll | api/serialization.py:563-580 | reading an array decodes every entry in order or fails |
| Serialization.ReadEnvironments | api/serialization.py:540-562 | the loop over environments, with its inner loop over limits, decodes every environment in order or fails |
| Serialization.ReadInput | api/serialization.py:582-590 | the controlled input with its loop over file hashes decodes as specified |
| Serialization.DecodesEach | api/serialization.py:563-580 | an array decodes to a list exactly when each entry decodes to its element |
| Serialization.FirstRefused | api/serialization.py:563-580 | an array ends in a plain ValueError exactly when an entry does and all before it are read |
| Serialization.ArtifactRefused | api/serialization.py:407-447 | an artifact ends in a plain ValueError exactly when its identity can be read and has an unknown type or role |
| Serialization.HashBack | api/serialization.py:142-147 | a hash is read back exactly when it is 64 lower-case hexadecimal digits |
| Serialization.HashReadExactly | api/serialization.py:142-147 | a hash is read from 64 lower-case hexadecimal digits, alone or after `sha256:`, and from nothing else |
| Serialization.ExecutionBack | api/serialization.py:353-404 | a well-formed execution is read back as written, absent diagnostics included |
| Serialization.ArtifactBack | api/serialization.py:407-447 | an artifact is read back with both its own and its identity's hash, size and count |
| Serialization.ComparisonBack | api/serialization.py:450-489 | a comparison is read back as written |
| Serialization.VerdictEvidenceBack | api/serialization.py:492-519 | verdict evidence is read back as written |
| Serialization.EnvironmentBack | api/serialization.py:540-561 | an environment is read back as written |
| Serialization.InputBack | api/serialization.py:582-590 | controlled inputs are read back as written |
| Serialization.OracleBack | api/serialization.py:628-638 | a digest-pinned oracle is read back as written |
| ManifestCodec.EnvelopeGuards | api/serialization.py:172-218 | a payload is read only under its own schema and version 1; other integer versions are unsupported |
| ManifestCodec.ReadManifest | api/serialization.py:522-656 | the decoder with its loops accepts and returns exactly what the decoding function of the round trip does |
| ManifestCodec.ManifestRoundTrip | api/serialization.py:259-350 | a manifest survives being stored if and only if it is well formed and its seal is true |
| ManifestCodec.DecodedIsSealed | api/serialization.py:522-656 | any document that decodes yields a well-formed manifest whose graph hashes to the stored seal |
| ManifestCodec.RefusedExactly | api/serialization.py:522-580 | a document ends in a plain ValueError, not as corrupt, if and only if it is a manifest that names an artifact of an unknown type or role before any other deviation the decoder meets |
| ManifestCodec.UnknownArtifactEscapes | engine/domain/identities.py:169-178 | every stored manifest in which one artifact has got an unknown type or role ends that way, whatever its seal |
| ManifestCodec.VerdictRoundTrip | api/serialization.py:681-758 | a verdict survives being stored if and only if its required strings are not empty |
| ManifestCodec.StatesAreNames | api/serialization.py:716-720 | exactly the seven state names are read |
| ManifestCodec.KindsStayApart | api/serialization.py:188-218 | a report survives unchanged, and no document of one kind is read as another |
| SealCoverage.GraphDeterminesEvidence | engine/evidence/models.py:246-372 | two manifests have the same canonical graph if and only if they carry the same evidence |
| SealCoverage.SealDeterminesEvidence | engine/evidence/models.py:375-421 | with a collision-free hash, stored documents have equal seals if and only if they carry the same evidence |
| SealCoverage.SealIgnoresIdentity | engine/evidence/models.py:338-351 | changing what an artifact's identity says about its content leaves a true seal true |
| SealCoverage.ExecutionInjective | engine/evidence/models.py:312-337 | an execution's node determines the execution |
| SealCoverage.ArtifactInjective | engine/evidence/models.py:338-351 | an artifact's node determines the artifact up to its identity's own hash, size and count |
| SealCoverage.ComparisonInjective | engine/evidence/models.py:352-371 | a comparison's node determines the comparison |

## Left out

- Docker, subprocesses, containers, the file system and `collect_generated_files`: executions are given values of stdout, stderr, exit code and files by name.
- FastAPI routes, middleware, logging, limits read from the environment, the frontend and scripts: input and output only.
- SQLite and SQL text: the tables are a map and a sequence, and every locked store call is one step. Encoding a record is taken to succeed; `update_run` does not roll back when it fails.
- JSON text: documents are JSON values. Free dictionaries use names that are kept apart from the fixed field names.
- Regular expressions over COBOL, SQL and CICS source: the names of INDEXED and RELATIVE files are inputs.
- Business invariants, the patterns that find unobserved effects, the legacy path without a workload, custom registries and the derivation of verdicts from evidence.
- The report page of a run and its integrated proof (`_current_integrated_proof`), application records, ingestion and uploads.
- ContentAddressedStorage, provenance, the JCL builder and path mapping: they would only add easy members.
- Java text of the generated CICS services and mapping reports; calls and declarations are data.
- Behaviour.DeclarationDriven: does not evaluate business invariants, so it speaks of workloads that declare none.
- Assembly.Assemble: one time stamp stands for all capture times, and the texts of differences are a parameter.
- Pipeline.CompareArtifact: uses the default registry, in which every artifact type has its comparator.
- DependencyMap.FindCycles: has no recursion limit; Python stops at 10000 nested visits.
- CicsMapper.Map: host variables, the transactional flag and the explicit and unsupported constructs of a service are not built, and its issues are the separate `Validate`; they would only add easy members.
- CicsMapper.Merge: builds the services, not the deduplicated list of source program ids.
- BtreeLayout.WrittenIsRead: speaks of pages of at most 65536 bytes, the largest Berkeley DB writes.
- BtreeLayout.ItemsExactly: likewise speaks of pages of at most 65536 bytes.
- BtreeImage.BtreeReader.Walk: has no recursion limit; Python raises on a tree deeper than its own.
- Lifecycle.StepKeeps: the service is its threads' steps, not an object; `set_run_discovery` writes regardless of the attempt and is not modelled, and neither are application, workload and source columns.
- Lifecycle.ApprovedIsCertified: the seal of the bundle on disk is an input of the approval step, and so is its absence, which production refuses.
- ManifestCodec.ManifestRoundTrip: the order of validation errors is modelled as far as it decides between a corrupt document and a plain ValueError; otherwise every structural deviation is one failure.
- Other digit tables and limits of `int` than those of Python 3.11 as delivered: Unicode 14.0 and 4300 digits.
