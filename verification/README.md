# A verified model of the Etherpad changeset engine

Etherpad keeps a pad as a text with attributes, and every edit as a *changeset*: keep, delete and insert operations,
each with a character count, a newline count and attribute references, and a bank of inserted characters. This project
models the engine that works on changesets (`lib/changeset`), its attribute pool (`lib/apool`), the client and the
server loops that rely on its laws (`lib/cli/cli.go`, `lib/ws/PadMessageHandler.go`) and the HTML exporter
(`lib/io/exportHtml.go`), and proves the laws that concurrent editing rests on.

## How the model is built

1. **Meaning.** Module `Ops` gives operations a meaning on documents, sequences of cells that hold a character and its
   attribute map. One parameter (`AttrSem`) says how attributes are read: not at all, as maps through a pool, or as the
   strings themselves. So one induction gives the law on texts, on attributed texts and on attribution strings.
2. **Values.** The zips of Compose, Follow and ApplyToAttribution, the assemblers, the undo of a changeset and the
   per-line attribution are functions (`Composition`, `Rebasing`, `AttributedText`, `Assemblers`, `Inversion`,
   `Attributions`, `Subattributions`), with the laws proved about them.
3. **Procedures.** Where the Go code is a loop or an object with fields, there is a method or a class with the same
   branches, proved equal to the function or to act on its abstract value as the function says (`ZipLoops`, `Engine`,
   `AssemblerObjects`, `LineEditor`, `TextMutation`, `Builders`, `LineReaders`, `AttributionLoops`,
   `AttributionMutators`, `AttributeObjects`, `PoolObjects`, `SubattributionLoops`, `HtmlLines`, `HtmlLists`).
4. **Strings.** Printing and parsing (`Syntax`), CheckRep (`Changesets`) and the laws on packed changesets (`Algebra`,
   `AttributedText`, `CanonicalForm`, `InverseLaws`, `InverseExample`, `PoolMoves`, `Splices`), on what they keep of
   attribute strings (`KeptAttributes`), and on the order of concurrent insertions (`InsertionOrder`).
5. **Order of lines.** When per-line editing leaves an empty line behind (`TextMutation`, `LineOrder`, `SpliceOrder`),
   and when the inverse of a changeset does (`InverseOrder`, `OrderExample`).
6. **Users of the laws.** The client as a step system (`Clients`, `WrittenSquares`), the rebase loop of the server
   (`Servers`), and the loop that builds a history with its inverses (`Validation`, `FinalNewlines`, `SentDocuments`,
   `HistoryDocuments`, `Histories`).

A changeset is *well-formed on a text* (`Changesets.WellFormed`) when CheckRep accepts it, its old length is the length
of the text, and each operation covers text with exactly its newline count and, if that is not zero, up to a newline.
A pool is *good* when it is consistent and its keys and values are trimmed. The iteration order of Go maps is a
parameter (`Order`) of everything that depends on it.

## Where the code differs from what one might expect

- A header that does not match the pattern is read as lengths 0 and 0, not refused: the pattern has an empty alternative
  (lib/changeset/changeset.go:162-167). `Syntax.Unpack` does the same; only CheckRep refuses such a string.
- Per-line text editing leaves an empty last line for some accepted changesets: `TextMutation.EmptyLastLine` is one, and
  `TextMutation.MutateTextLines` says exactly when the list is the split text.
- Changesets none of which leaves such a line behind can compose to one that does: `OrderExample.ComposedDisorder`.
- The round-trip check complains about correct inverses: when a changeset deletes the end of a document and the
  attributes change within a line of it, the inverse brings that line back run by run and leaves an empty line behind.
  `OrderExample.FalseAlarm` is a case, `Histories.InverseReturns` and `InverseOrder.TornBreaks` say exactly when.
- The test for the attribute (insertorder, first) looks only at the first place where its reference could begin, and so
  misses it behind a longer number that begins alike: `InsertionOrder.InsertFirstMissed`, with the exact condition in
  `InsertionOrder.InsertFirstMeans`. Where numbers ascend it misses nothing.
- Check passes a pool whose first attribute is missing from the reverse map, because a missing key reads as number 0:
  `PoolObjects.CheckMisses`, with the exact condition in `PoolObjects.CheckMeans`.
- FromJsonable does not clear the numbers that its pool had before: `PoolObjects.JsonRoundTrip`.
- Moving a changeset to another pool and back rewrites references that the pool does not know or that are written with
  leading zeros: `PoolMoves.ThereAndBack`.
- Taking a change of attributes back loses a key that was explicitly set to the empty value:
  `InverseExample.EmptyValueLost` is a case, `InverseLaws.InverseAttributed` says exactly when it happens.
- transformX overwrites the client's changeset before its second Follow reads it: `Clients.WrittenSquareFails` says when
  that Follow fails, `Clients.WrittenSquareExample` is a case. That the server change leaves the length as it is is not
  enough: `WrittenSquares.WrittenSquareAstray`. It is enough that it only sets attributes
  (`WrittenSquares.WrittenSquareKeeps`). The length check keeps transformX from being reached
  (`Clients.PendingTurnsAway`); the square as meant is `Clients.MeantSquareSafe`.
- `SmartOpAssembler.Clear` keeps the last op code, and `StringIterator.Skip` does not update the newline count: both
  classes do the same.

## Model

| member | source | states |
|---|---|---|
| `Numerals.ParsePrinted` | lib/utils/stringUtils.go:15-25 | reading a printed base-36 number gives the number back |
| `Numerals.PrintedDigits` | lib/utils/stringUtils.go:15-25 | a numeral ends with the lower-case base-36 digit of the remainder, and before it stands the numeral of the rest, without leading zeros |
| `Syntax.RuneIndex` | lib/utils/runeUtils.go:30-39 | the result is the first place of the character, or -1 exactly when it does not occur |
| `Syntax.DeserializeSerialize` | lib/changeset/Op.go:32-41 | DeserializeOps of the concatenated prints of any printable operation list is that list |
| `Syntax.ParsedPrintable` | lib/changeset/changeset.go:1164-1192 | whatever DeserializeOps accepts consists of printable operations only |
| `Syntax.DeserializeReads` | lib/changeset/changeset.go:1164-1192 | a string is read as some operations if and only if it spells them one after the other, leading zeros allowed, with nothing but "$" and newlines between them |
| `Syntax.UnpackPack` | lib/changeset/changeset.go:98-109 | Unpack gives back the lengths, the operation text and the bank that Pack was given, for any bank, even one with "$" |
| `Syntax.PrintParse` | lib/changeset/changeset.go:161-192 | packing a printed operation list, then unpacking and parsing, gives back every part |
| `Attributes.ScanEncode` | lib/changeset/attributes.go:27-74 | decoding an encoded list of attribute numbers gives the list, with nothing left over |
| `Attributes.ReadBack` | lib/changeset/attributes.go:92-114 | for keys in any order, the string written for a map reads back as the map, and its entries in that order |
| `Attributes.ReadBackString` | lib/changeset/AttributeMap.go:100-124 | the sorted string of an attribute map reads back as the map |
| `Attributes.StringSorted` | lib/changeset/AttributeMap.go:106-124 | the string of a map names its attributes by ascending numbers, each key once |
| `Attributes.SortedUnique` | lib/changeset/AttributeMap.go:106-124 | two such strings with the same map name the same numbers in the same order |
| `Attributes.TrimMeans` | lib/changeset/AttributeMap.go:39-56 | what is trimmed off is the white space on both sides, all of it |
| `Attributes.UpdateMeans` | lib/changeset/AttributeMap.go:39-56 | for each key the last entry decides: its trimmed value is set, or the key removed if that is empty and means deletion |
| `Attributes.UpdatePoolMeans` | lib/changeset/AttributeMap.go:39-56 | the pool gets exactly the trimmed entries that are set |
| `Attributes.UpdateIsOverlay` | lib/changeset/AttributeMap.go:39-56 | updating with empty values as deletions commutes with first collecting the updates as a mutation map: Update is an overlay |
| `Attributes.MutationIsOverlay` | lib/changeset/AttributeMap.go:88-98 | a mutation string acts on every map as the overlay of the map it denotes |
| `Attributes.ComposeAttributesMap` | lib/changeset/changeset.go:1257-1284 | the composed string denotes the first map updated by the second string, empty values kept for mutations and deleted for presence, and the pool does not grow |
| `Attributes.ComposeAttributesSorted` | lib/changeset/changeset.go:1281-1283 | composing strings that name known attributes, no key twice, gives such a string, and if their numbers ascend, so do those of the result |
| `Attributes.ComposeMutations` | lib/changeset/changeset.go:1257-1284 | one mutation after another on any map is the same as their composition on it |
| `Attributes.LexLeMeans` | lib/changeset/changeset.go:253-310 | the order of values is that of strings: a beginning comes first, otherwise the smaller character where they differ |
| `Attributes.FollowAttributesExact` | lib/changeset/changeset.go:253-310 | the rebased change names exactly the keys of the second change, with its values, for which the first has no value or a larger one; each key once |
| `Attributes.FollowMerges` | lib/changeset/changeset.go:253-310 | the first change followed by the rebased second is the merge of both, in which the lexically smaller value wins each shared key, whatever the iteration order |
| `Attributes.MergeCommutes` | lib/changeset/changeset.go:253-310 | that merge does not depend on which change is called first |
| `Attributes.FollowAttributesConverge` | lib/changeset/changeset.go:253-310 | on every map, either change followed by the other one rebased gives the same map |
| `AttributeObjects.AttributeMap.constructor` | lib/changeset/AttributeMap.go:15-20 | a new map is empty and belongs to the pool |
| `AttributeObjects.AttributeMap.Set` | lib/changeset/AttributeMap.go:67-71 | sets one key, and enters the pair in the pool |
| `AttributeObjects.AttributeMap.Get` | lib/changeset/AttributeMap.go:73-79 | the value of a key, or none exactly when the key is absent |
| `AttributeObjects.AttributeMap.Update` | lib/changeset/AttributeMap.go:39-56 | the loop leaves the map that the update function gives and the pool with the trimmed pairs entered, and nothing else |
| `AttributeObjects.AttributeMap.UpdateFromString` | lib/changeset/AttributeMap.go:88-98 | the same for the entries that a string names in the pool |
| `AttributeObjects.AttributeMap.PutPairs` | lib/changeset/AttributeMap.go:106-124 | the pairs of the map are entered in the pool, in the iteration order |
| `AttributeObjects.AttributeMap.Print` | lib/changeset/AttributeMap.go:100-104 | the string written reads back as the map and names each attribute once, by ascending numbers |
| `AttributeObjects.AttributeMap.String` | lib/changeset/AttributeMap.go:100-124 | whether or not the pool knows the pairs, the string written reads back as the map and names each attribute once, by ascending numbers; the pool gets the pairs of the map and nothing else, and old numbers keep their meaning |
| `Attributes.OrderExists` | lib/changeset/changeset.go:253-310 | there are iteration orders that name exactly the keys of every map |
| `Assemblers.AssembleProduces` | lib/changeset/SmartOpAssembler.go:35-82 | assembling any operations keeps what they make of every document, on text and on attributes, and what they take from the bank |
| `Assemblers.AssembleNormal` | lib/changeset/SmartOpAssembler.go:23-70 | the assembled list is in normal form: merged runs, deletions before insertions between keeps, no trailing plain keep |
| `Assemblers.AssembleFixed` | lib/changeset/SmartOpAssembler.go:23-82 | a list is left as it is if and only if it is in normal form |
| `Assemblers.AssembleIdempotent` | lib/changeset/SmartOpAssembler.go:23-82 | reassembling the output gives the same output |
| `Assemblers.SmartChange` | lib/changeset/SmartOpAssembler.go:84-86 | the reported length change is inserted minus deleted characters |
| `Assemblers.RunLength` | lib/changeset/SmartOpAssembler.go:84-86 | that number is by how much the operations change the length of every document they apply to |
| `AssemblerObjects.MergingOpAssembler.constructor` | lib/changeset/MergingOpAssembler.go:9-14 | a new assembler is empty |
| `AssemblerObjects.MergingOpAssembler.Flush` | lib/changeset/MergingOpAssembler.go:16-32 | writes the pending operation and the characters after its last newline; a plain keep at the end of a document is dropped |
| `AssemblerObjects.MergingOpAssembler.Append` | lib/changeset/MergingOpAssembler.go:34-52 | merges the operation with the pending one exactly as the value model says, or writes the pending one and starts anew |
| `AssemblerObjects.MergingOpAssembler.EndDocument` | lib/changeset/MergingOpAssembler.go:54-56 | flushes with the trailing plain keep left implicit |
| `AssemblerObjects.MergingOpAssembler.String` | lib/changeset/MergingOpAssembler.go:58-61 | returns the print of everything merged |
| `AssemblerObjects.MergingOpAssembler.Clear` | lib/changeset/MergingOpAssembler.go:63-67 | returns to the empty state |
| `AssemblerObjects.SmartOpAssembler.constructor` | lib/changeset/SmartOpAssembler.go:12-21 | a new assembler is empty and owns its three parts |
| `AssemblerObjects.SmartOpAssembler.FlushKeeps` | lib/changeset/SmartOpAssembler.go:23-26 | moves the pending keeps to the output |
| `AssemblerObjects.SmartOpAssembler.FlushPlusMinus` | lib/changeset/SmartOpAssembler.go:28-33 | moves pending deletions and then pending insertions to the output |
| `AssemblerObjects.SmartOpAssembler.Append` | lib/changeset/SmartOpAssembler.go:35-64 | its new state is the value model of one step: deletions and insertions are collected between keeps, the length change is tracked |
| `AssemblerObjects.SmartOpAssembler.String` | lib/changeset/SmartOpAssembler.go:66-70 | returns the print of the assembled list and leaves the length change |
| `AssemblerObjects.SmartOpAssembler.Clear` | lib/changeset/SmartOpAssembler.go:72-78 | empties everything except the last op code, as the code does |
| `AssemblerObjects.SmartOpAssembler.EndDocument` | lib/changeset/SmartOpAssembler.go:80-82 | ends the document on the keeps only |
| `Changesets.ApplyOpsRun` | lib/changeset/changeset.go:948-1020 | ApplyToText succeeds exactly when the run of the operations on cells does, and then gives its text |
| `Changesets.CheckRepRegular` | lib/changeset/changeset.go:508-585 | an accepted changeset is the packing of operations in normal form whose insertions use up the bank exactly and whose lengths add up |
| `Changesets.RegularAccepted` | lib/changeset/changeset.go:508-585 | conversely the packing of such operations that apply to some document is accepted |
| `Changesets.AppliedLength` | lib/changeset/changeset.go:948-1020 | if CheckRep accepts and ApplyToText succeeds, the result has exactly the new length and the bank is used up |
| `Changesets.WellFormedProduces` | lib/changeset/changeset.go:508-585 | a well-formed changeset applies, gives its new length, and uses its bank exactly |
| `Changesets.ProducedWellFormed` | lib/changeset/changeset.go:508-585 | normal operations that turn one text into another pack to a changeset that is accepted and does so |
| `Engine.ApplyOne` | lib/changeset/changeset.go:967-1011 | one operation of the loop: what it writes and consumes, or its error |
| `Engine.ApplyAll` | lib/changeset/changeset.go:966-1018 | the loop over the operations writes what the recursive model gives, or fails with its error |
| `Engine.ApplyToText` | lib/changeset/changeset.go:948-1020 | the loop equals the recursive model on every input, errors included |
| `Engine.CheckOne` | lib/changeset/changeset.go:531-567 | one round of the checks: new position, new length and bank, or the error |
| `Engine.CheckAll` | lib/changeset/changeset.go:530-568 | the loop over the operations, with the assembler fed by all of them |
| `Engine.CheckRep` | lib/changeset/changeset.go:508-585 | the loop equals the recursive model on every input, errors included |
| `Splices.SpliceApplies` | lib/changeset/changeset.go:111-155 | MakeSplice succeeds and its changeset is well-formed on the text and replaces exactly the clamped range by the new text |
| `Splices.SpliceDocument` | lib/changeset/changeset.go:111-155 | on every document with that text and for every pool, the inserted text has the attributes given and the rest stays as it is |
| `Splices.SpliceCarries` | lib/changeset/changeset.go:133-145 | its insertions carry exactly the attribute string given, and its keeps and deletions carry none |
| `Engine.MakeSplice` | lib/changeset/changeset.go:111-155 | it fails exactly for negative arguments; otherwise its changeset replaces the range, brought into the text, on the text and on every document with it, by text with the attributes given, and names none elsewhere |
| `StringIterators.StringIterator.constructor` | lib/changeset/StringIterator.go:15-18 | starts at the beginning |
| `StringIterators.StringIterator.Remaining` | lib/changeset/StringIterator.go:20-22 | how many characters are left |
| `StringIterators.StringIterator.Take` | lib/changeset/StringIterator.go:31-40 | returns the next characters and moves past them, or fails and stays |
| `StringIterators.StringIterator.Peek` | lib/changeset/StringIterator.go:42-48 | returns the next characters, or fails, and stays |
| `StringIterators.StringIterator.Skip` | lib/changeset/StringIterator.go:50-56 | moves on exactly when enough characters are left |
| `ZipLoops.OpIterator.Next` | lib/changeset/Iterator.go:9-16 | gives the next operation, or says that none is left |
| `Composition.ComposeSound` | lib/changeset/changeset.go:1194-1255 | if one list turns a document into a second and another turns that into a third, the zip succeeds and its operations turn the first into the third, on text and on attributes |
| `Algebra.ComposeApplies` | lib/changeset/changeset.go:1194-1255 | for changesets that apply in sequence, Compose succeeds if and only if the first header states the true length, and then applying its result is applying one after the other |
| `Algebra.ComposeWellFormed` | lib/changeset/changeset.go:1194-1255 | composing well-formed changesets succeeds, the result passes CheckRep and is well-formed on the first text, and leads to the final text |
| `CanonicalForm.StepsUnique` | lib/changeset/changeset.go:1194-1255 | on a document of distinct cells, character steps with deletions first are determined by the result |
| `CanonicalForm.GroupingUnique` | lib/changeset/MergingOpAssembler.go:16-61 | canonical lists with the same character steps are the same list |
| `CanonicalForm.NormalFormUnique` | lib/changeset/SmartOpAssembler.go:35-86 | two attribute-free lists in normal form that make the same of a marked document are equal, with equal banks |
| `CanonicalForm.ComposeAssociative` | lib/changeset/changeset.go:1194-1255 | for attribute-free well-formed changesets in sequence both bracketings give the same string |
| `KeptAttributes.ComposeKeepsAttributes` | lib/changeset/changeset.go:1194-1255 | a composition names only known attributes and no key twice, if its changesets do; its numbers ascend, if theirs do; and what it deletes has no attributes, if what they delete has none |
| `AttributedText.ApplyToATextSound` | lib/changeset/changeset.go:1381-1396 | applying to a text with attribution gives a text and an attribution that denote the document the operations make, character by character |
| `AttributedText.AttribZipWrites` | lib/changeset/changeset.go:1368-1379 | whenever Compose succeeds on two lists, the zip of ApplyToAttribution writes the same operations and leaves the same pool |
| `KeptAttributes.ApplyKeepsAttributes` | lib/changeset/changeset.go:1381-1396 | so does the attribution of a text to which a changeset is applied: known attributes, each key once, ascending numbers |
| `AttributedText.ComposeAttributed` | lib/changeset/changeset.go:1194-1255 | character by character, applying Compose(cs1, cs2) to an attributed text denotes the same document as applying cs1 and then cs2 |
| `ZipLoops.Zipper.FetchBoth` | lib/changeset/changeset.go:1046-1065 | makes the next operations current without losing any |
| `ZipLoops.Zipper.Advance` | lib/changeset/changeset.go:1044-1078 | after a round, what is left of the current operations comes before the remaining ones |
| `ZipLoops.SlicerZipperFunc` | lib/changeset/changeset.go:1286-1366 | the branches equal the value model: what is written, what is left of both operations, the pool, the errors |
| `ZipLoops.ComposeStep` | lib/changeset/changeset.go:1215-1247 | the callback of Compose: it writes, consumes and draws from the two banks what the model does |
| `ZipLoops.ComposeRounds` | lib/changeset/changeset.go:1022-1082 | all rounds of the zip loop write, draw and leave what the recursive zip gives, or fail with its error |
| `ZipLoops.Compose` | lib/changeset/changeset.go:1194-1255 | the loop equals the recursive model on every input, errors included |
| `ZipLoops.AttribRounds` | lib/changeset/changeset.go:1022-1082 | the same loop for an attribution |
| `ZipLoops.ApplyToAttribution` | lib/changeset/changeset.go:1368-1379 | the loop equals the recursive model on every input, errors included |
| `Rebasing.FollowConverges` | lib/changeset/changeset.go:312-498 | for any two lists that apply to a document, both zips succeed, in lockstep with opposite tie-breaks, and either list followed by the other one rebased gives the same document, on text and on attributes |
| `Algebra.FollowConvergence` | lib/changeset/changeset.go:312-498 | for every text and any two well-formed changesets on it, both Follows succeed, their results are well-formed on the other changed text, and both ways lead to the same text |
| `AttributedText.RebaseAttributed` | lib/changeset/changeset.go:312-498 | the same for texts with attribution: both ways denote the same document, attributes included, whatever the iteration orders |
| `Algebra.FollowResolved` | lib/changeset/changeset.go:312-498 | what Follow returns uses only attributes that the pool knows, if its arguments do |
| `KeptAttributes.FollowKeepsAttributes` | lib/changeset/changeset.go:312-498 | a rebased changeset names only known attributes and no key twice, if both changesets do, and what it deletes has no attributes, if what it deleted before has none |
| `InsertionOrder.InsertionsMeet` | lib/changeset/changeset.go:345-377 | two changesets that each insert at the same place of a text, and the second rebased over the first: both texts stand there, in the order of the tie-break |
| `InsertionOrder.SplicesMeet` | lib/changeset/changeset.go:345-377 | the same for any two texts put in by MakeSplice, case by case: if just one is to come first it does; otherwise one that begins with a newline comes behind one that does not; otherwise the first comes first, or last if the order is reversed |
| `InsertionOrder.InsertFirstMeans` | lib/changeset/changeset.go:194-222 | the test for (insertorder, first) succeeds if and only if its number is the first in the string whose numeral begins like its own; among ascending numbers, if and only if it is there |
| `InsertionOrder.InsertFirstMissed` | lib/changeset/changeset.go:194-222 | a string that names the attribute and fails the test |
| `ZipLoops.WhichToDo` | lib/changeset/changeset.go:345-377 | which insertion goes first: insertion order attribute, then newlines, then the given direction |
| `ZipLoops.MeetOps` | lib/changeset/changeset.go:396-488 | where nothing is inserted: every branch on deletions and keeps equals the value model |
| `ZipLoops.FollowStep` | lib/changeset/changeset.go:342-490 | the callback of Follow: operation written, what is left of both, and how far the two banks move |
| `ZipLoops.FollowRounds` | lib/changeset/changeset.go:1022-1082 | all rounds write what the recursive zip gives, and the old position and new length differ by its length change |
| `ZipLoops.Follow` | lib/changeset/changeset.go:312-498 | the loop equals the recursive model on every input, errors included |
| `Servers.RebaseToHead` | lib/ws/PadMessageHandler.go:256-286 | the loop rebases over every revision since the base or fails as the model does; of a genuine change the result leads from the head to the text of the client, or leaves the head as it is if a revision has its changeset and its author |
| `Servers.ClientMeetsServer` | lib/ws/PadMessageHandler.go:256-286 | for every chain of revisions with attributes that the pool knows, none with both the changeset and the author of the change, the rebase succeeds and leads from the head text to the text the client reaches by following all of them itself |
| `Servers.ResentChangesNothing` | lib/ws/PadMessageHandler.go:265-274 | if a revision has both the changeset and the author of the change, the change is rebased to one that leaves the head text as it is |
| `Servers.RevisionComesFirst` | lib/ws/PadMessageHandler.go:256-286 | a text put in by a revision stands before the one that a client puts in at the same place without knowing of it, unless only the later one is to come first, or only the earlier one begins with a newline |
| `Lines.JoinSplit` | lib/changeset/changeset.go:1480-1486 | joining the lines of a text gives the text |
| `Lines.SplitJoin` | lib/changeset/changeset.go:1480-1486 | splitting joined full lines gives the lines |
| `Lines.SplitClean` | lib/changeset/changeset.go:1480-1486 | a text that ends with a newline splits into full lines, as many as it has newlines |
| `Lines.SplitIsLineList` | lib/changeset/changeset.go:1480-1486 | only the last line of a split text can lack its newline |
| `Lines.SkipLinesText` | lib/changeset/TextLinesMutator.go:126-151 | passing lines moves exactly their text from behind the cursor to before it |
| `Lines.RemoveLinesText` | lib/changeset/TextLinesMutator.go:173-220 | removing lines takes exactly their text away behind the cursor, and it is what is returned |
| `Lines.RemoveCharsText` | lib/changeset/TextLinesMutator.go:223-249 | the same for characters within a line |
| `Lines.InsertLinesText` | lib/changeset/TextLinesMutator.go:252-308 | inserting full lines puts their text before the cursor and leaves what is behind it |
| `Lines.InsertCharsText` | lib/changeset/TextLinesMutator.go:252-308 | the same for a text without newlines |
| `LineEditor.TextLinesMutator.constructor` | lib/changeset/TextLinesMutator.go:31-39 | starts at the beginning of the list with no buffer |
| `LineEditor.TextLinesMutator.PutCurLineInSplice` | lib/changeset/TextLinesMutator.go:114-123 | the cursor line becomes the last line of the buffer, and the document is as it was, or has one empty line more at its end |
| `LineEditor.TextLinesMutator.EnterSplice` | lib/changeset/TextLinesMutator.go:69-76 | opens the buffer at the cursor; document and cursor stay |
| `LineEditor.TextLinesMutator.LeaveSplice` | lib/changeset/TextLinesMutator.go:78-104 | writes the buffer back; document and cursor stay |
| `LineEditor.TextLinesMutator.SkipLines` | lib/changeset/TextLinesMutator.go:126-151 | moves the cursor over whole lines; the document stays |
| `LineEditor.TextLinesMutator.Skip` | lib/changeset/TextLinesMutator.go:154-170 | moves it over characters or lines; the document stays |
| `LineEditor.TextLinesMutator.RemoveLines` | lib/changeset/TextLinesMutator.go:173-220 | the document without the lines, and the removed text, whether buffered or not |
| `LineEditor.TextLinesMutator.Remove` | lib/changeset/TextLinesMutator.go:223-249 | the document without the characters or lines, and the removed text |
| `LineEditor.TextLinesMutator.Insert` | lib/changeset/TextLinesMutator.go:252-308 | the document with the characters or lines put in at the cursor, and the cursor behind them |
| `LineEditor.TextLinesMutator.HasMore` | lib/changeset/TextLinesMutator.go:312-319 | says whether lines are left |
| `LineEditor.TextLinesMutator.Close` | lib/changeset/TextLinesMutator.go:322-326 | writes the buffer back: the list is the document |
| `TextMutation.EditText` | lib/changeset/changeset.go:598-619 | one operation changes the text before and behind the cursor as it changes the document |
| `TextMutation.EditOne` | lib/changeset/changeset.go:599-618 | the same for the editor object, with the bank iterator, and with what becomes of the order of the list |
| `TextMutation.EditAll` | lib/changeset/changeset.go:598-620 | all operations: the joined lines are what ApplyToText makes of the joined lines |
| `TextMutation.MutateTextLines` | lib/changeset/changeset.go:587-622 | the joined lines change as the text does, and the new list is the split new text, with one empty line behind it exactly if the text ran out in the middle of a line that was completed afterwards |
| `TextMutation.WellFormedFits` | lib/changeset/changeset.go:587-622 | every well-formed changeset meets what MutateTextLines demands |
| `TextMutation.KeepsEndInOrder` | lib/changeset/changeset.go:587-622 | that case cannot happen where the final newline is kept and nothing is inserted behind it |
| `LineOrder.AssembledStops` | lib/changeset/SmartOpAssembler.go:35-82 | for any operations between two texts that end with a newline: once assembled, they let the text run out in the middle of a line if and only if they use it up and what they insert at its end begins in the middle of a line or changes its attributes within one |
| `SpliceOrder.SpliceStops` | lib/changeset/changeset.go:111-155 | a splice does so if and only if it replaces the end of the text, from the middle of a line on, by something |
| `SpliceOrder.AppendInOrder` | lib/models/pad/Pad.go:411-475 | an append behind the final newline, as that of the CLI, and a replacement of the whole text, as that of SetText, do not |
| `TextMutation.EmptyLastLine` | lib/changeset/TextLinesMutator.go:281-283 | a changeset that CheckRep accepts for which it does happen, so that an empty line is left at the end |
| `Builders.Builder.constructor` | lib/changeset/Builder.go:12-19 | a new builder has written nothing |
| `Builders.Builder.Keep` | lib/changeset/Builder.go:36-60 | hands one keep to the assembler |
| `Builders.Builder.Insert` | lib/changeset/Builder.go:85-92 | hands on an insertion split behind its last newline, and adds its text to the bank |
| `Builders.Builder.Remove` | lib/changeset/Builder.go:94-105 | hands on one deletion |
| `Builders.Builder.ToString` | lib/changeset/Builder.go:107-111 | the packing of the assembled operations, with the length they lead to |
| `UndoAttributes.BackFacts` | lib/changeset/changeset.go:892-906 | the string that takes a change back reads as the map of old values, and the pool grows without changing a number |
| `UndoAttributes.BackExact` | lib/changeset/changeset.go:892-906 | that string names exactly the keys whose values the change replaces by others, with the old values, empty where there were none, each key once and by ascending numbers; only attributes with the empty value are new in the pool |
| `UndoAttributes.BackRestores` | lib/changeset/changeset.go:892-906 | a change of a map and what takes it back restore the map if and only if no changed key held the empty value |
| `Inversion.Undoes` | lib/changeset/changeset.go:889-943 | before assembling, the undo operations turn the changed document back into the document, on text and, as far as a change can be taken back, on attributes |
| `Inversion.ReturnedSame` | lib/changeset/changeset.go:892-906 | all of the document comes back if and only if no keep changes a key that holds the empty value at one of its characters |
| `Inversion.UndoPool` | lib/changeset/changeset.go:889-943 | the pool that Inverse leaves gives every old number its old meaning, and what is new in it has the empty value |
| `Inversion.TakeRunsCovers` | lib/changeset/changeset.go:782-836 | the runs taken from an attribution cover exactly the characters asked for |
| `InverseLaws.InverseRestores` | lib/changeset/changeset.go:754-946 | for every well-formed changeset and attribution lines that cover the lines, Inverse succeeds, passes CheckRep, is well-formed on the changed text, and applied to it restores the text |
| `InverseLaws.InverseAttributed` | lib/changeset/changeset.go:754-946 | with attributes: what the inverse, read through the pool that Inverse leaves, makes of the changed document is given for every attribution; it is the old document, attributes included, if and only if no keep changes a key that holds the empty value at one of its characters |
| `KeptAttributes.InverseKeepsAttributes` | lib/changeset/changeset.go:754-946 | nothing that the inverse deletes has attributes, and its numbers ascend, if those of the attribution lines do |
| `InverseOrder.UndoEnd` | lib/changeset/changeset.go:889-943 | the undo operations at the end bring back exactly the text and the attribute strings that were deleted behind the last character kept |
| `InverseOrder.InverseStops` | lib/changeset/changeset.go:754-946 | the inverse lets its text run out in the middle of a line if and only if the changeset reaches the end of the document and what it deletes there begins in the middle of a line or changes its attributes within one |
| `InverseOrder.DeletesWhole` | lib/changeset/SmartOpAssembler.go:35-82 | operations in normal form that do not do so delete no end that begins in the middle of a line |
| `InverseOrder.TornBreaks` | lib/changeset/changeset.go:754-946 | so for a changeset that does not do so itself, its inverse does if and only if the end it deletes changes its attributes within a line |
| `InverseExample.EmptyValueLost` | lib/changeset/changeset.go:892-906 | a changeset, a line and its attribution for which it is not: bold is set where it was explicitly unset, and after the undo the key is gone |
| `LineReaders.Seek` | lib/changeset/changeset.go:791-800 | finds the run that holds a column, cut at that column |
| `LineReaders.LineReader.constructor` | lib/changeset/changeset.go:755-774 | starts with all runs and the whole text ahead |
| `LineReaders.LineReader.ReadRun` | lib/changeset/changeset.go:824-833 | reads one piece of a run: the runs taken so far are those of the model |
| `LineReaders.LineReader.ConsumeAttribRuns` | lib/changeset/changeset.go:782-836 | takes exactly the runs of the next characters, over line ends, and leaves text and runs in step |
| `LineReaders.LineReader.Skip` | lib/changeset/changeset.go:838-850 | passes characters or whole lines as if their runs had been read |
| `LineReaders.LineReader.NextText` | lib/changeset/changeset.go:852-872 | the next characters of the joined lines |
| `LineReaders.UndoAttribs` | lib/changeset/changeset.go:907-918 | writes the keeps that take a change of attributes back, run by run, threading the pool |
| `LineReaders.UndoText` | lib/changeset/changeset.go:933-940 | writes the insertions that bring deleted text back, run by run |
| `LineReaders.UndoOne` | lib/changeset/changeset.go:889-943 | one round: what is written, and where reading goes on |
| `LineReaders.UndoAll` | lib/changeset/changeset.go:889-943 | all rounds write the undo operations and bank of the model |
| `LineReaders.Inverse` | lib/changeset/changeset.go:754-946 | the loops equal the function, and its result restores the text |
| `Validation.ValidateWellFormed` | lib/changeset/validate.go:23-59 | true exactly when the changeset parses, no operation has more lines than characters, insertions count their newlines and the bank is used up |
| `Validation.WellFormedCounted` | lib/changeset/validate.go:23-59 | every changeset that is well-formed on some text passes |
| `Validation.ValidateRoundTrip` | lib/changeset/validate.go:66-82 | on full lines, true exactly when the changeset takes the one text back to the other and does not leave the list out of order |
| `FinalNewlines.KeepsEndMeans` | lib/changeset/changeset.go:587-622 | operations keep the end of a text if and only if its last cell comes through their run and stays last |
| `FinalNewlines.AssembleKeepsEnd` | lib/changeset/SmartOpAssembler.go:35-82 | assembling neither loses nor gains that |
| `FinalNewlines.ComposeKeepsEnd` | lib/changeset/changeset.go:1194-1255 | changesets that keep the end compose to one that does |
| `FinalNewlines.InverseKeepsEnd` | lib/changeset/changeset.go:754-946 | the inverse of one that does does too |
| `Histories.MoveKeepsText` | lib/changeset/changeset.go:1428-1462 | a changeset moved to another pool makes the same text and passes the same check |
| `SentDocuments.MoveKeepsDocument` | lib/changeset/changeset.go:1428-1462 | a changeset moved to another pool does the same to every document with attributes |
| `SentDocuments.InverseResolved` | lib/changeset/changeset.go:754-946 | the inverse names only attributes that the pool knows afterwards |
| `SentDocuments.AttributesSent` | lib/ws/PadMessageHandler.go:893-894 | a changeset and its inverse, both moved and read through the new pool: the one does to the document with attributes what the changeset does, the other takes that back, completely if and only if no keep changes a key that holds the empty value |
| `HistoryDocuments.MeantAfter` | lib/changeset/changeset.go:1257-1284 | what a changeset does to the attribute strings of a document it does to the attributes that they name |
| `HistoryDocuments.LinesKnown` | lib/changeset/changeset.go:1488-1531 | attribution lines name only attributes that the pool knows exactly if the cells of their document do, and then they stand for the document that its strings mean |
| `HistoryDocuments.ComposedDocument` | lib/changeset/changeset.go:1194-1255 | a composition does to a document with attributes what its two changesets do one after the other, and names only attributes that the pool knows, if they do |
| `Histories.InverseReturns` | lib/changeset/validate.go:66-82 | for every well-formed changeset between texts that end with a newline, its inverse leads back, and the round-trip check succeeds if and only if the end that the changeset deletes neither begins in the middle of a line nor changes its attributes within one |
| `Histories.ComposePadChangesets` | lib/ws/PadMessageHandler.go:738-762 | the composition of any changesets in sequence succeeds and leads to the text, and to the document with attributes, they lead to one after the other; it keeps the final newline if they all do |
| `Histories.GetPadLines` | lib/ws/PadMessageHandler.go:769-792 | the lines of a pad and their attribution lines, in step |
| `Histories.Complaints` | lib/ws/PadMessageHandler.go:896-908 | as many complaints as checks fail: that the two changesets count, and that the inverse returns |
| `Histories.Publish` | lib/ws/PadMessageHandler.go:893-908 | both changesets moved to the new pool lead forth and back, and the only complaint there can be is about the round trip |
| `Histories.HistoryStep` | lib/ws/PadMessageHandler.go:869-908 | one step between texts that end with a newline: no call fails, lines and attribution lines change together, with an empty line left behind if and only if the text runs out in the middle of a line; the two changesets sent lead forth and back, on texts and on documents with attributes; if no line is left behind, there is a complaint if and only if the deleted end changes its attributes within a line |
| `Histories.ChangesetInfo` | lib/ws/PadMessageHandler.go:864-928 | the same over every course of changesets that leave no such line behind: each changeset sent leads from one text to the next and the one beside it leads back, and with the attributes too, read through the pool that is sent; lines and attribution lines end in step, and the number of complaints is given exactly |
| `OrderExample.ComposedDisorder` | lib/ws/PadMessageHandler.go:738-762 | an append and a deletion that leave no empty line behind, whose composition does |
| `OrderExample.FalseAlarm` | lib/changeset/validate.go:66-82 | a replacement of a whole text that leaves no empty line behind and whose inverse leads back, about which the round-trip check complains |
| `Attributions.AttributionUnique` | lib/changeset/changeset.go:1533-1543 | merged attributions that give the same text the same attribute strings are the same |
| `Attributions.MergeAllProduces` | lib/changeset/changeset.go:1533-1543 | merging keeps what an attribution gives each character, and its result is canonical |
| `Attributions.PiecesProduce` | lib/changeset/changeset.go:1507-1527 | cutting an operation at newlines keeps what it gives, and each piece holds at most one newline |
| `Attributions.SplitJoinAttribution` | lib/changeset/changeset.go:1488-1531 | each attribution line covers exactly its line, and joining them gives the merged attribution, the same string if it was merged before |
| `AttributionLoops.JoinAttributionLines` | lib/changeset/changeset.go:1533-1543 | the loop equals the function |
| `AttributionLoops.SplitAttributionLines` | lib/changeset/changeset.go:1488-1531 | the loop equals the function, errors included |
| `AttributionLoops.AppendPiece` | lib/changeset/changeset.go:1492-1499 | writes one piece, and finishes a line when the piece ends one |
| `AttributionLoops.AppendPieces` | lib/changeset/changeset.go:1507-1527 | writes all pieces of an operation over several lines |
| `AttributionEdits.AttribZipVerbatim` | lib/changeset/changeset.go:1368-1379 | the whole-document zip writes runs that give each character its composed attribute string |
| `AttributionEdits.KeepStep` | lib/changeset/changeset.go:732-743 | a keep or deletion against the current run keeps the procedure in step with the result still to come |
| `AttributionEdits.InsertStep` | lib/changeset/changeset.go:713-730 | so does the first line of an insertion |
| `AttributionEdits.SkipStep` | lib/changeset/changeset.go:707-712 | so does passing whole untouched lines |
| `AttributionMutators.AttributionMutator.LineOpsHasNext` | lib/changeset/changeset.go:643-645 | says whether runs of the line are left |
| `AttributionMutators.AttributionMutator.IsNextMutOp` | lib/changeset/changeset.go:649-651 | says whether runs or lines are left |
| `AttributionMutators.AttributionMutator.ReadLine` | lib/changeset/changeset.go:660-664 | takes the next line out of the list and reads its runs |
| `AttributionMutators.AttributionMutator.OutputMutOp` | lib/changeset/changeset.go:676-694 | adds a run to the line being written and puts the line into the list when the run ends it |
| `AttributionMutators.AttributionMutator.SkipRound` | lib/changeset/changeset.go:707-712 | passing whole lines keeps the procedure in step |
| `AttributionMutators.AttributionMutator.InsertRound` | lib/changeset/changeset.go:713-730 | writing the first line of an insertion keeps it in step, and takes that much of the bank |
| `AttributionMutators.AttributionMutator.RestRound` | lib/changeset/changeset.go:732-743 | writing a run behind the last operation keeps it in step |
| `AttributionMutators.AttributionMutator.KeepRound` | lib/changeset/changeset.go:732-743 | a keep or a deletion against a run keeps it in step, and the work left shrinks |
| `AttributionMutators.Round` | lib/changeset/changeset.go:705-744 | one round keeps the procedure in step and leaves less to do |
| `AttributionMutators.Turn` | lib/changeset/changeset.go:699-745 | the same with the fetching of operations |
| `AttributionMutators.AllRounds` | lib/changeset/changeset.go:699-746 | the loop ends with nothing left to do, in step |
| `AttributionMutators.MutateAttributionLines` | lib/changeset/changeset.go:624-752 | it succeeds if and only if the new text is empty or ends with a newline; then the new lines cover the lines of the new text, and joined they are what ApplyToAttribution makes of the joined old ones |
| `AttributionMutators.AgreesWithWhole` | lib/changeset/changeset.go:1368-1379 | any canonical attribution lines of the changed document join to the whole-document result |
| `PoolObjects.CheckMeans` | lib/apool/APool.go:61-86 | a pool is a pair of inverse bijections without empty keys if and only if it passes Check and its first attribute is in the reverse map |
| `PoolObjects.CheckMisses` | lib/apool/APool.go:78-83 | a pool that passes Check although its first attribute is missing from the reverse map |
| `PoolObjects.PutAllSound` | lib/apool/APool.go:94-110 | over every run of PutAttrib with non-empty keys the pool stays sound and no number changes its meaning |
| `PoolObjects.JsonRoundTrip` | lib/apool/APool.go:113-155 | a consistent pool written and read back is restored if and only if the reading pool had no other numbers before |
| `PoolObjects.APool.constructor` | lib/apool/APool.go:17-23 | a new pool is empty |
| `PoolObjects.APool.PutAttrib` | lib/apool/APool.go:94-110 | the new state and number, for known, new and refused attributes; a sound pool stays sound |
| `PoolObjects.APool.GetAttrib` | lib/apool/APool.go:189-195 | the attribute of a number, or the error |
| `PoolObjects.APool.Check` | lib/apool/APool.go:61-86 | succeeds exactly when the tests pass |
| `PoolObjects.APool.Clone` | lib/apool/APool.go:200-219 | a fresh object with the same state |
| `PoolObjects.APool.ToJsonable` | lib/apool/APool.go:146-155 | every attribute with its key and value, and the next number |
| `PoolObjects.APool.FromJsonable` | lib/apool/APool.go:113-124 | the reverse map is rebuilt; old numbers that are not overwritten stay in the other map |
| `PoolMoves.MovePacked` | lib/changeset/changeset.go:1428-1462 | the textual replacement before the "$" moves each attribute reference and touches nothing else |
| `PoolMoves.MoveKeepsMeaning` | lib/changeset/changeset.go:1428-1462 | every operation keeps its code and counts, each known reference names the same key and value in the new pool, which knows all of those written, and lengths and bank are untouched |
| `PoolMoves.MoveAddsNamed` | lib/changeset/changeset.go:1428-1462 | the new pool holds what it held before and what the changeset names, and nothing else |
| `PoolMoves.ThereAndBack` | lib/changeset/changeset.go:1428-1462 | moving to any pool and back leaves the pool as it was, and gives back the changeset if and only if all its references are known and plainly written |
| `Clients.AppendSafe` | lib/cli/cli.go:76-142 | appending keeps the client in step and adds exactly the text, with a newline if it has none; what is sent names the base revision |
| `Clients.PendingTurnsAway` | lib/cli/cli.go:376-392 | while a change is pending, the length check turns every change of the server away, so transformX is never reached |
| `Clients.NewChangesSafe` | lib/cli/cli.go:314-405 | a genuine NEW_CHANGES keeps the client in step: its text and revision are taken over exactly when it is the next one and nothing is pending, and otherwise nothing changes |
| `Clients.AcceptSafe` | lib/cli/cli.go:407-424 | a genuine ACCEPT_COMMIT of the next revision puts the queued change, if there is one, in flight with the new base revision; any other changes nothing |
| `Clients.StepSafe` | lib/cli/cli.go:314-424 | every step keeps it in step, and the base revision rises by one or stays |
| `Clients.RunSafe` | lib/cli/cli.go:154-458 | over every run: local text is the server text at the base revision with the change in flight and the queued one made on it, something is queued only while something is in flight, and what is in flight names the base revision |
| `Clients.SquareLeads` | lib/cli/cli.go:460-467 | both Follows on the old pair close the square: both ways lead to one text |
| `Clients.MeantSquareSafe` | lib/cli/cli.go:376-405 | with the square as meant and no length check, a change of the server keeps the client in step with changes pending |
| `Clients.ZipSucceeds` | lib/changeset/changeset.go:312-498 | the zip of Follow does not fail on operations whose insertions fit their banks, whatever lengths they were made for |
| `Clients.WrittenSquareFails` | lib/cli/cli.go:461-466 | as written, the second Follow fails if and only if the server change alters the length; then the server change stays as it was and does not apply to a local text of another length |
| `Clients.WrittenSquareExample` | lib/cli/cli.go:461-466 | two literal insertions before a newline for which it fails |
| `WrittenSquares.WrittenSquareKeeps` | lib/cli/cli.go:461-466 | if the server change only sets attributes, the square as written closes |
| `WrittenSquares.WrittenSquareAstray` | lib/cli/cli.go:461-466 | a literal server change of equal length for which the second Follow succeeds and both sides end with different texts |
| `Clients.Pad.constructor` | lib/cli/cli.go:44-54 | a pad with its text and revision and nothing pending |
| `Clients.Pad.Send` | lib/cli/cli.go:474-518 | queues or composes, then sends if nothing is in flight |
| `Clients.Pad.Append` | lib/cli/cli.go:76-142 | its new state is the step of the model |
| `Clients.Pad.NewChanges` | lib/cli/cli.go:314-405 | its new state is the step of the model |
| `Clients.Pad.AcceptCommit` | lib/cli/cli.go:407-424 | its new state is the step of the model, which sends on the new base revision |
| `Clients.Pad.Handle` | lib/cli/cli.go:309-425 | any genuine message or append keeps the pad in step with the server |
| `Subattributions.SubattributionGives` | lib/changeset/changeset.go:1084-1162 | of an attribution line, any stretch: it succeeds, and what it returns gives the characters of the stretch exactly the attribute strings that the line gives them |
| `SubattributionLoops.SliceRuns` | lib/changeset/changeset.go:1110-1131 | the loop slices runs by one operation as the model does, and hands them to the assembler, or fails with its error |
| `SubattributionLoops.AppendRest` | lib/changeset/changeset.go:1141-1149 | hands the rest of the runs to the assembler |
| `SubattributionLoops.Subattribution` | lib/changeset/changeset.go:1084-1162 | the loops equal the function on every attribution, errors included |
| `HtmlLines.MapProperties` | lib/io/exportHtml.go:160-177 | the map from attribute numbers to properties is that of the pool |
| `HtmlLines.TagsMean` | lib/io/exportHtml.go:160-177 | a property is among the tags of an attribute string if and only if one of its numbers stands for that property being "true" in the pool |
| `HtmlLines.HtmlProps` | lib/io/exportHtml.go:36-37 | the six properties with their tags |
| `HtmlLines.UsedTagsAre` | lib/io/exportHtml.go:280-284 | the list of used tags holds exactly the properties of the decoded numbers |
| `HtmlLines.LineWriter.EmitOpenTag` | lib/io/exportHtml.go:219-232 | opens one tag on the stack |
| `HtmlLines.LineWriter.EmitCloseTag` | lib/io/exportHtml.go:234-248 | closes the innermost tag |
| `HtmlLines.LineWriter.CloseUnused` | lib/io/exportHtml.go:286-302 | closes tags from the inside down to the outermost one that is not used, and no more |
| `HtmlLines.LineWriter.OpenUsed` | lib/io/exportHtml.go:304-309 | opens the used tags that are not open, each once; then exactly the used tags are open |
| `HtmlLines.LineWriter.UsedAttribs` | lib/io/exportHtml.go:274-284 | the tags that the attribute string of a run asks for |
| `HtmlLines.LineWriter.WriteRun` | lib/io/exportHtml.go:272-325 | the characters of a run, without form feeds, are written under exactly the tags of its attribute string, and the tokens written are given: the tags closed, down to the outermost one that is not used, those opened, and the characters |
| `HtmlLines.LineWriter.WriteRuns` | lib/io/exportHtml.go:272-325 | the characters of a part of the line, each under the tags of its own attribute string |
| `HtmlLines.LineWriter.ProcessNextChars` | lib/io/exportHtml.go:255-333 | the next characters are written under the tags that the attribution line gives them, and all tags are closed after it |
| `HtmlLines.LineWriter.WriteUrl` | lib/io/exportHtml.go:337-352 | the characters before a link and the link with its characters |
| `HtmlLines.LineWriter.WriteLine` | lib/io/exportHtml.go:180-363 | for every line with an attribution line and any links one after the other: tags are properly nested and closed, each character stands under exactly the tags of its attribute string, and inside a link if and only if one covers it |
| `HtmlLines.LineShows` | lib/io/exportHtml.go:180-363 | the attribution line of every full line of a pad is one that WriteLine takes |
| `HtmlLines.ListLineShows` | lib/pad/exportTxt.go:77-88 | the rest of a list line behind its marker keeps its attributes in what Subattribution gives of the line |
| `HtmlLines.LineHtml` | lib/io/exportHtml.go:160-363 | the same from the pool: the tags of a character are the properties its attributes set |
| `HtmlLists.FilterOne` | lib/io/exportHtml.go:592-600 | filtering out one level removes exactly that list |
| `HtmlLists.ListWriter.OpenTo` | lib/io/exportHtml.go:432-473 | opens lists up to the level of the line |
| `HtmlLists.ListWriter.CloseOne` | lib/io/exportHtml.go:524-547 | closes one list |
| `HtmlLists.ListWriter.CloseTo` | lib/io/exportHtml.go:524-547 | closes lists down to a level |
| `HtmlLists.OpenFor` | lib/io/exportHtml.go:420-475 | whatever stood before, as many lists of the kind of the line are open as its level says |
| `HtmlLists.CloseFor` | lib/io/exportHtml.go:505-548 | afterwards exactly the lists that the next line inherits are open, none at the end |
| `HtmlLists.ExportListLine` | lib/io/exportHtml.go:393-548 | the content of a list line stands inside as many lists of its kind as its level says |
| `HtmlLists.ExportLists` | lib/io/exportHtml.go:365-566 | for every sequence of levels and kinds, list tags are properly nested and closed, and each content stands in the lists of its level and kind |

## Left out

- LineReaders.Inverse: is stated for well-formed changesets and attribution lines that cover the lines; the panics and errors on other input are not modelled. The cache per attribute string and the callbacks are not modelled either: the runs are collected in a list, and the loops over attribute maps are functions.
- AttributionMutators.MutateAttributionLines: is stated for well-formed changesets and attribution lines that cover full lines; the errors on malformed lines are not modelled.
- TextMutation.MutateTextLines: is stated for operations that fit the joined lines; out-of-range panics and the recovery from them in the round-trip check (lib/changeset/validate.go:86-93) are not modelled.
- Histories.ChangesetInfo: takes the composed changesets as given; times of revisions, bounds and granularity are left out. Its courses hold no composed changeset that leaves an empty line behind; what the steps after such a one do is not described, only the step itself (Histories.HistoryStep).
- Histories.HistoryStep: is stated for changesets between texts that end with a newline, as the server demands (lib/ws/PadMessageHandler.go:307-330).
- Clients.WrittenSquareFails: is exact for the error of the second Follow only; without an error, the square as written is shown to close for server changes that only set attributes, and an example shows that others can go astray.
- Clients.RunSafe: steps are atomic and messages are genuine; locking, sending, the wire pool, attributes in the client and messages before the pad is connected are left out.
- Servers.ClientMeetsServer: revisions use attributes that the pool knows, as moving them to the pad's pool makes sure; the checks on authors and sizes before the loop are left out.
- Clients.MeantSquareSafe: takes the server's attributes to be known to the client's pool, since Follow fails on others; the client's own changes have no attributes, as its append makes them.
- InverseLaws.InverseAttributed: takes the attributes of the changeset and of the lines to be known to the pool.
- SubattributionLoops.Subattribution: takes a start that is not negative, as its callers pass.
- Validation.ValidateRoundTrip: is stated for backward changesets that fit the lines; the recovery from a panic is not modelled.
- ZipLoops.Follow: takes a pool whose two maps agree, as the server keeps it; to one whose maps disagree, such as the one the CLI fills, the source also adds attributes while it follows, and that is not modelled.
- Integers are unbounded: 64-bit wrap-around and the error of ParseNum on overflow are not modelled.
- Strings are sequences of code points: invalid UTF-8 and byte offsets are not modelled.
- Operations are values: that the zip callbacks change the caller's operations in place is a result instead.
- The pool of ApplyToAttribution is threaded as a value: that a struct copy shares its maps is not modelled.
- AttributeTester (lib/changeset/changeset.go:194-222) is a fixed search in the attribute string, as Follow uses it.
- Calls with a nil pool, and the Builder's attribute arguments other than a string.
- FromDB, ToRevDB and ToPadDB: the "key,value" keys cannot be read back when keys hold commas.
- OpsFromAText, MakeAttribution, PrepareForWire and attributeManager.go.
- In the HTML export: finding links, escaping, author colours, hooks, numbering of ordered lists and the balance of list items; the links of a line are given as stretches, one after the other.
- HtmlLines.LineWriter.WriteLine: is stated for attribution lines that cover the text; the errors on others are not modelled.
- Markdown, DOCX, ODT and PDF export, import, storage, migration, authors and the user interface.
