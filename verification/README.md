# Verified model of the colorful prose analyzer

The analyzer turns prose into classified tokens for three consumers: a language
server, a command line report and a wire document. What they share is
coordinates. A parser assigns byte spans, validators decide which spans may be
trusted, and the language server translates them to lines and UTF-16 columns,
keeps them right under incremental edits, and decides which analysis of which
text is current. This project models that middle layer and proves what it
promises.

Text is a sequence of Unicode scalar values. Byte widths follow RFC 3629 section
3 and UTF-16 widths follow RFC 2781 section 2.1; positions and token encoding are
those of Language Server Protocol 3.17, sections "Position" and "Semantic
Tokens". `Text.IsBoundary` says which bytes are character boundaries, and every
byte-level claim is stated through it.

`dafny verify dfyconfig.toml` checks all of it.

## Layout

| part | modules |
|---|---|
| Text and coordinates | `Text`, `Coordinates`, `Edits`, `SemanticTokens`, `SourceViews`, `CliPosition` |
| Markdown masking | `MarkdownMask`, `CoordinateMask`, `LinkScanner` |
| Lexing and segmentation | `Characters`, `Unicode`, `Scanner`, `NumericScanner`, `Lexer`, `ProseParser`, `ParsedLeaves` |
| Classification and annotation | `Syntax`, `Classification`, `LexicalAnnotator`, `ContextualAnnotator`, `ContextualSenses`, `BuiltinAdapters`, `LexicalClasses`, `TitleLines`, `LineInitialWords`, `SentenceContext`, `AnalysisPipeline` |
| Wire document | `IrDocument`, `IrRanges`, `CycleSearch`, `StructureCycles`, `StructureValidation`, `OutlineForest`, `IrValidation`, `IrErrors`, `OutlineBuilder`, `ProjectedOutline`, `Projection`, `BuiltinProjection` |
| Document store | `DocumentRecord`, `DocumentStore`, `StoreInvariant`, `StoreActs`, `StoreLedger`, `StoreTheorems`, `StoreSettles`, `StoreAccounts`, `StoreGates`, `StoreOverlap` |

`Sequences` holds two ways of concatenating sequences of sequences.

## Main results

- **Cycle search.** The outline validator searches an untrusted graph with an
  explicit stack. The stack computes exactly a recursive search
  (`StructureCycles.ValidateStructureCycles`), which examines every edge once,
  reports an edge only if it closes a cycle of edges it does not report, and
  leaves no cycle once the reported edges are dropped; so it reports something
  exactly when there is a cycle. An accepted outline is a forest with nested
  ranges (`OutlineForest.AcceptedOutlineIsForest`).
- **Document validator.** The errors of a received document are exactly its
  faults: for each kind, the error is listed if and only if the item its path
  points at has the fault, with that item's values
  (`IrErrors.ErrorsAreTheFaults`).
- **Projection.** `Projection.ProjectClassification` succeeds exactly when both
  producers have distinct identities, every number fits 32 bits and no leaf is
  empty; the document then holds every token with its class on the axes, the
  outline of the paragraphs between blank lines and one derivation step per
  producer (`Projection.ProjectedFrom`). With no empty sentence or leaf the
  numbers always fit a text that does (`Projection.NumbersOfTextFit`), so prose
  from the built-in parser always projects up to the size limit
  (`BuiltinProjection.ProjectProse`).
- **Document store.** A state machine with the gate lookup, the wait for the
  gate and the second lookup as separate steps, and any interleaving. What a run
  amounts to is read off its actions alone, as a ledger of requests, openings,
  edits and failed computations (`StoreLedger.LedgerOf`), and in every reachable
  state the store agrees with it (`StoreLedger.RunsAgree`): each mirror is the
  opened text with the edits acted on since, and each cached, published or replied
  result is the one result its opening can have at its generation. Publications of
  one opening strictly ascend; work superseded before it installs is never
  installed or published, whatever generations coincide; no gate is ever held
  twice, by handlers or workers; a result that is installed is sure to be current
  when published exactly when every handler on its way to the document goes
  through the same gate (`StoreGates.PublishesCurrentExactlyWhenGuarded`); and
  without new requests every run ends, with every request due acted on, every
  open document settled on the result of all its edits and every token request
  answered (`StoreSettles.StoreComesToRest`).
- **Coordinates.** `offset_of` undoes `position` at every boundary except
  strictly inside a `\r\n`; an editor that reports its splices as positions, or its
  whole text, stays equal to the server's mirror; decoding the delta encoding gives back every
  styled token, with no underflow; the coordinate guard is exact, and a masked
  Markdown document always passes it and always analyses
  (`AnalysisPipeline.AnalyzeMarkdown`).
- **Parsing and annotation.** The parser's in-order loop with its deferred flush
  equals a segmentation into sentences whose shape is proved; the leaves of a
  parse, read in order, spell the text without its skipped whitespace, every other
  character lies in exactly one of them, and a leaf is a word exactly when its own
  text is a word or a numeral (`ParsedLeaves`). The class of every leaf is
  determined without the annotator's flags (`LexicalClasses.LexicalClassesAreExact`),
  and what context makes of each ambiguous word without its rule table
  (`ContextualSenses.RefinedSenses`). Either annotator on any parse validates, and
  on the parser's own trees contextual refinement never looks across a sentence
  boundary.

## Where the code and its documentation disagree

- The comment on `line_col` (`crates/colorful-cli/src/cli/lint.rs:91-95`) says it
  uses the language server's line model. It does, except strictly between a `\r`
  and its `\n`, where it already counts the next line. `CliPosition.LinesAgree`
  states the exact condition, and `CliPosition.LinesPartInsideCrLf` the input
  `"\r\n"` at byte 1, which the report puts on the second line and the server on
  the first.
- A comment in `LexicalAnnotator::annotate`
  (`crates/colorful-core/src/lib.rs:1101-1102`) says a word is line-initial again
  after a line break. The code looks for the break only behind the leaf directly
  before the word, which may be a quotation mark that opens the line: in
  `a\n"B` the capitalized word is still called a proper noun
  (`LineInitialWords.QuotedLineStartIsMissed`). The code agrees with the comment
  at a word exactly unless there is a break between the word before it and the
  leaf before it, and none between that leaf and the word
  (`LineInitialWords.LineStartIsSeenUnlessMissed`).
- The rationale of the verb sense (`crates/colorful-lexicon/src/lib.rs:380-383`)
  asks for `to`, a pronoun or auxiliary, or a plural noun before the word. The
  code also accepts a noun or proper noun that does not look plural, and differs
  exactly there (`ContextualSenses.SubjectsAreAlsoSingular`): in `dog book` the
  second word becomes a verb (`ContextualSenses.SingularNounReadsAsSubject`).
- A gate held while publishing does not by itself keep the published generation
  current. A gate belongs to one opening, so a change that waited for the gate of
  an earlier opening may edit the present one meanwhile;
  `StoreOverlap.PublicationMayBeSuperseded` gives the run. From the moment a
  worker holds its gate over current work, the work stays current exactly as long
  as no handler acts on its document, and a handler that does holds another gate
  or none (`StoreGates.CurrentUntilActedOn`). Once the result is installed, no
  continuation publishes it superseded exactly when every handler then waiting or
  holding for that document does so with the gate of the live opening
  (`StoreGates.PublishesCurrentExactlyWhenGuarded`). Nothing promised per opening
  is affected.

## Model

| member | source | states |
|---|---|---|
| Coordinates.LineIndex.New | crates/colorful-lsp/src/lib.rs:108-132 | the loop over characters collects the start of every line, each terminator counted once |
| Coordinates.LineStartsAreExactlyTheLineStarts | crates/colorful-lsp/src/lib.rs:108-132 | the index lists exactly the offsets of line starts, strictly increasing |
| Coordinates.BinarySearch | crates/colorful-lsp/src/lib.rs:136-140 | finds the offset in a sorted list, or the place it belongs |
| Coordinates.LineIndex.LineOf | crates/colorful-lsp/src/lib.rs:136-140 | the binary search names the line that contains the byte |
| Coordinates.LineIndex.Position | crates/colorful-lsp/src/lib.rs:134-146 | at a character boundary: the number of line starts passed and the UTF-16 units since the last one |
| Coordinates.PlaceIncreases | crates/colorful-lsp/src/lib.rs:134-146 | positions are strictly increasing over character boundaries |
| Coordinates.LineIndex.OffsetOf | crates/colorful-lsp/src/lib.rs:148-169 | total; a character boundary of the clamped line, by seeking UTF-16 units within its content |
| Coordinates.SeekStaysOnLine | crates/colorful-lsp/src/lib.rs:148-169 | any (line, character) lands on the line clamped to the last, on the first content scalar at or past that column or at the content end |
| Coordinates.PastContentIsInsideCrLf | crates/colorful-lsp/src/lib.rs:151-169 | only the point inside a `\r\n` lies past its own line's content |
| Coordinates.SeekOfPlace | crates/colorful-lsp/src/lib.rs:136-169 | seeking a boundary's position lands on it, or on its line's content end when that comes first |
| Coordinates.OffsetOfUndoesPosition | crates/colorful-lsp/src/lib.rs:136-169 | the round trip returns the boundary if and only if it is not inside a `\r\n` |
| Edits.ApplyChange | crates/colorful-lsp/src/lib.rs:523-543 | the mirror becomes the text with the clamped, never reversed range replaced, or the new text when there is no range |
| Edits.ApplyChanges | crates/colorful-lsp/src/document_state.rs:243-248 | a list of changes is applied in order, each in the coordinates left by the one before |
| Edits.ReportedChangeIsItsSplice | crates/colorful-lsp/src/lib.rs:523-543 | an edit reported as the positions of its two ends is exactly the splice of those bytes, and a whole text replaces everything |
| Edits.MirrorFollowsEditor | crates/colorful-lsp/src/lib.rs:523-543 | after any list of reported splices and whole texts the mirror equals the editor's text |
| SemanticTokens.SemanticTokensFrom | crates/colorful-lsp/src/lib.rs:431-460 | decoding the emitted deltas gives every styled token's line, column, length and type; neither subtraction underflows |
| SemanticTokens.StyledTokenAt | crates/colorful-lsp/src/lib.rs:431-460 | every styled token has its entry, right behind those of the tokens before it |
| SemanticTokens.EntryIsStyled | crates/colorful-lsp/src/lib.rs:431-460 | and every entry is that of a styled token |
| SemanticTokens.LengthReachesTheEnd | crates/colorful-lsp/src/lib.rs:431-460 | a token on one line reaches from its own column to the column of its end, in UTF-16 units |
| SourceViews.Advance | crates/colorful-lsp/src/lib.rs:364-392 | the lagging cursor moves, both when level, and neither runs off its end |
| SourceViews.CursorsAgree | crates/colorful-lsp/src/lib.rs:357-405 | the two cursors agree exactly when UTF-16 offsets do at every boundary common to both texts |
| SourceViews.SourceViewsShareCoordinates | crates/colorful-lsp/src/lib.rs:347-405 | true exactly when byte length, line starts and the UTF-16 offset at every shared boundary are equal |
| SourceViews.SharedBoundariesSharePositions | crates/colorful-lsp/src/lib.rs:136-146 | views that pass the guard give every shared boundary the same position |
| SourceViews.GuardIsExact | crates/colorful-lsp/src/lib.rs:347-405 | with equal lengths and line starts, the guard passes exactly when all shared boundaries have equal positions |
| CliPosition.LineCol | crates/colorful-cli/src/cli/lint.rs:97-126 | the one-pass scan gives the line and scalar column of the first boundary at or after the byte |
| CliPosition.LinesAgree | crates/colorful-cli/src/cli/lint.rs:91-126 | the report and the language server name the same line at a boundary exactly when it is not inside a `\r\n`; columns are scalars and UTF-16 units since that line's start |
| CliPosition.LinesPartInsideCrLf | crates/colorful-cli/src/cli/lint.rs:91-126 | byte 1 of `\r\n` is on the second line of the report and on the first of the server |
| MarkdownMask.SortByKey | crates/colorful-parse/src/markdown.rs:336 | an ordered permutation of the ranges |
| MarkdownMask.Retain | crates/colorful-parse/src/markdown.rs:329-335 | exactly the non-empty ranges between character boundaries survive |
| MarkdownMask.MergeRanges | crates/colorful-parse/src/markdown.rs:329-350 | separated ranges on boundaries covering exactly the retained bytes, each a separator exactly when it covers a retained one |
| CoordinateMask.PushCoordinateMask | crates/colorful-parse/src/markdown.rs:352-377 | each scalar is replaced by its stand-in, with the dot in the first one-byte place when prose is separated |
| CoordinateMask.FillRanges | crates/colorful-parse/src/markdown.rs:71-82 | the copying loop yields the source with exactly the merged ranges replaced |
| CoordinateMask.MaskNonProse | crates/colorful-parse/src/markdown.rs:59-86 | for any excluded ranges, masks exactly the retained bytes; both closing assertions hold |
| CoordinateMask.LineStartsSurvive | crates/colorful-parse/src/markdown.rs:352-377 | masking moves no line start |
| CoordinateMask.BoundaryOrInsidePair | crates/colorful-parse/src/markdown.rs:364-375 | a boundary of the masked text is one of the source, or splits the pair of no-break spaces of a four-byte scalar |
| CoordinateMask.ReplacementSharesCoordinates | crates/colorful-parse/src/markdown.rs:83-84 | byte length, UTF-16 length and all coordinates survive the mask |
| CoordinateMask.MaskKeepsProse | crates/colorful-parse/src/markdown.rs:71-82 | every scalar outside the ranges, and every line terminator, is kept |
| CoordinateMask.MaskHidesTheRest | crates/colorful-parse/src/markdown.rs:352-377 | inside a range there is only skipped whitespace and at most the one separating dot |
| CoordinateMask.MaskedDocumentPassesGuard | crates/colorful-lsp/src/lib.rs:347-405 | a masked document always passes the coordinate guard, whatever is excluded |
| LinkScanner.EscapedIsSteppedOver | crates/colorful-parse/src/markdown.rs:182-189 | the parity of preceding backslashes agrees with a forward scan that steps over escapes |
| LinkScanner.ReadingEscapes | crates/colorful-parse/src/markdown.rs:266-271 | stepping over escapes in a destination agrees with the parity of backslashes behind a byte |
| LinkScanner.DestinationEnd | crates/colorful-parse/src/markdown.rs:258-316 | ends just past the first parenthesis, outside escapes, titles and angle brackets, that balances the opening one; nothing exactly when none inside the link does |
| LinkScanner.InlineLinkDestinationRange | crates/colorful-parse/src/markdown.rs:250-327 | the destination, among those the search comes by, that closes where the link ends; nothing exactly when there is none |
| NumericScanner.NumericPrefixLen | crates/colorful-core/src/lib.rs:72-110 | the loop computes the length of the numeral at the start, or nothing |
| NumericScanner.LongestNumeralPrefix | crates/colorful-core/src/lib.rs:56-110 | the prefix is a numeral, and the longest one |
| NumericScanner.NumericPrefixIsStable | crates/colorful-core/src/lib.rs:72-110 | scanning the prefix again returns all of it |
| NumericScanner.NumeralIsItsOwnPrefix | crates/colorful-lexicon/src/lib.rs:679-681 | a word is recognised as a number exactly when it is a numeral |
| Lexer.MatchAccepts | crates/colorful-parse/src/lib.rs:38-53 | the chosen pattern accepts the matched text |
| Lexer.MatchIsMaximalMunch | crates/colorful-parse/src/lib.rs:38-53 | no other pattern accepts any prefix, and this one no longer prefix |
| Lexer.LexemesAreOrdered | crates/colorful-parse/src/lib.rs:76-84 | lexemes are non-empty, in order and apart |
| Lexer.LexemesCoverTheText | crates/colorful-parse/src/lib.rs:38-53 | a character lies in a lexeme exactly when it is not skipped whitespace |
| Lexer.NumbersAreRecognised | crates/colorful-parse/src/lib.rs:24-34 | every leaf built by numeric extension is a number to the lexicon, and no letter-initial word is |
| ProseParser.ExtendNumericError | crates/colorful-parse/src/lib.rs:24-34 | an unmatched token grows to the whole numeral when one starts there |
| ProseParser.Parse | crates/colorful-parse/src/lib.rs:76-139 | the loop with its pending flush builds exactly the tree of the segmented lexemes |
| ProseParser.SegmentsPartition | crates/colorful-parse/src/lib.rs:76-139 | sentences partition the lexemes in order, none of them empty |
| ProseParser.FirstSegmentShape | crates/colorful-parse/src/lib.rs:86-130 | a sentence with one after it is non-terminators, one terminator and the maximal run of touching closers |
| ProseParser.SentenceShape | crates/colorful-parse/src/lib.rs:86-130 | so is every sentence but the last |
| ParsedLeaves.ParsedLeavesAreTheLexemes | crates/colorful-parse/src/lib.rs:76-139 | the leaves of the parsed tree, across its sentences, are those of the lexemes in order |
| ParsedLeaves.EveryCharacterHasItsLeaf | crates/colorful-parse/src/lib.rs:38-139 | a character that is not skipped whitespace lies inside one leaf of the tree, and no other leaf has a byte of it |
| ParsedLeaves.WhitespaceHasNoLeaf | crates/colorful-parse/src/lib.rs:38-139 | no leaf of the tree has a byte of skipped whitespace |
| ParsedLeaves.LeavesSpellTheText | crates/colorful-parse/src/lib.rs:38-139 | the texts of the leaves in order are the text without its skipped whitespace |
| ParsedLeaves.SentencesSpanTheirLeaves | crates/colorful-parse/src/lib.rs:101-139 | a sentence has leaves and spans exactly from the first to the last |
| ParsedLeaves.LeafKinds | crates/colorful-parse/src/lib.rs:112-128 | a leaf is a word exactly when its own text is a word or a numeral, else punctuation |
| ParsedLeaves.NumeralLeavesAreNumbers | crates/colorful-parse/src/lib.rs:119 | a leaf is a numeral exactly when it is a word the lexicon recognises as a number |
| Classification.ValidateTree | crates/colorful-core/src/lib.rs:910-954 | nothing exactly when the tree is well formed, else the first sentence or part that breaks it and a fault it has |
| Classification.ValidateParts | crates/colorful-core/src/lib.rs:928-953 | nothing exactly when the sentence's leaves fit, else the first that does not and a fault it has |
| Classification.ValidateTokens | crates/colorful-core/src/lib.rs:956-966 | nothing exactly when the token spans are valid and in order, else the first token out of place and a fault it has |
| Classification.MatchLeaves | crates/colorful-core/src/lib.rs:968-987 | nothing exactly when tokens and leaves have the same spans, else the differing counts or the first pair that differs |
| Classification.ValidateClassification | crates/colorful-core/src/lib.rs:896-988 | accepts exactly well-formed trees with one token per leaf; otherwise names the first fault in tree, token, then correspondence order |
| Classification.LeavesAreOrdered | crates/colorful-core/src/lib.rs:896-988 | all leaves of an accepted tree are ordered and disjoint across sentences |
| LexicalAnnotator.LineIsTitleCase | crates/colorful-core/src/lib.rs:1180-1196 | at least two words and two capitals, every other word a function word |
| LexicalAnnotator.AnnotateLeaf | crates/colorful-core/src/lib.rs:1104-1144 | one leaf's class from the leaves before it, and the flags after it |
| LexicalAnnotator.Annotate | crates/colorful-core/src/lib.rs:1089-1149 | the loop emits the token of each leaf, as determined by the leaves before it |
| LexicalAnnotator.SeenWordMeans | crates/colorful-core/src/lib.rs:1101-1132 | the flag means an alphabetic word of this sentence such that no later word has a break between the leaf before it and itself |
| LexicalClasses.OnTitleLineMeans | crates/colorful-core/src/lib.rs:1105-1114 | the flag means that the line of the last word seen to start one is a title |
| LexicalClasses.LexicalClassesAreExact | crates/colorful-core/src/lib.rs:1089-1149 | in any tree: punctuation is a quote exactly when its text is all quotation marks; a word is made a proper noun exactly when it is capitalized, left open by the lexicon, and behind an alphabetic word of its sentence on a line seen, which is no title; any other word has the lexicon's class |
| LexicalClasses.NumeralsAreNumbers | crates/colorful-core/src/lib.rs:1118-1119 | with a lexicon that knows its numbers, every numeral of a parse is classified as a number, in context or not |
| TitleLines.TitleCaseMeans | crates/colorful-core/src/lib.rs:1180-1196 | a line is a title exactly when two of its words are capitalized and every other word is a function word, words being the longest runs of word characters |
| TitleLines.LineAroundIsTheLine | crates/colorful-core/src/lib.rs:1162-1173 | the line of a place is the text between the nearest line breaks on either side |
| ContextualAnnotator.RefineInPlace | crates/colorful-lexicon/src/lib.rs:541-561 | the in-place loop equals a left-to-right fold over the tokens |
| ContextualAnnotator.RefinedAt | crates/colorful-lexicon/src/lib.rs:541-603 | each token is refined from its refined left and its original right neighbour |
| ContextualSenses.RefinedSenses | crates/colorful-lexicon/src/lib.rs:379-650 | every refined token, by its text, the refined token before it and the original one after it: each class of each ambiguous word if and only if its context holds, and no other change |
| ContextualSenses.SubjectsAreAlsoSingular | crates/colorful-lexicon/src/lib.rs:615-641 | the words taken for a verb's subject are the documented ones and, besides, nouns and proper nouns that do not look plural |
| ContextualSenses.SingularNounReadsAsSubject | crates/colorful-lexicon/src/lib.rs:615-641 | in `dog book`, with `dog` a noun, `book` becomes a verb |
| ContextualSenses.AsciiLowerAt | crates/colorful-lexicon/src/lib.rs:643-645 | texts are compared with their ASCII letters in lower case, character by character |
| ContextualAnnotator.RewriteOnlyResolvesContent | crates/colorful-lexicon/src/lib.rs:541-561 | only undifferentiated content words with listed senses change, only to an open class, and no span moves |
| ContextualAnnotator.LosingTheNounAfterFiresNothing | crates/colorful-lexicon/src/lib.rs:341-442 | a sense that did not fire still does not when the next word stops looking like a noun |
| ContextualAnnotator.RewriteIsIdempotent | crates/colorful-lexicon/src/lib.rs:541-561 | refining a refined list changes nothing |
| BuiltinAdapters.AnnotateInContext | crates/colorful-lexicon/src/lib.rs:541-561 | lexical tokens refined in place |
| BuiltinAdapters.AnnotatorsAreOneToOne | crates/colorful-core/src/lib.rs:1089-1149 | either annotator emits one token per leaf of any well-formed tree, with any lexicon |
| BuiltinAdapters.ParseTreeIsOk | crates/colorful-parse/src/lib.rs:76-139 | the parser's tree is well formed over its text |
| BuiltinAdapters.BuiltinClassificationValidates | crates/colorful-core/src/lib.rs:896-988 | the built-in parser with either annotator always validates |
| LineInitialWords.LineStartIsSeenUnlessMissed | crates/colorful-core/src/lib.rs:1089-1149 | in a well-formed tree a word seen to start a line does, and one that does is seen exactly unless its breaks all lie ahead of the leaf before it |
| LineInitialWords.LineInitialWordKeepsItsClass | crates/colorful-core/src/lib.rs:1089-1149 | a word that starts a line and is not missed is never made a proper noun |
| LineInitialWords.QuotedLineStartIsMissed | crates/colorful-core/src/lib.rs:1089-1149 | in the parse of `a\n"B` the word that opens the second line becomes a proper noun |
| SentenceContext.BoundaryLeafIsPunct | crates/colorful-parse/src/lib.rs:76-139 | the last leaf of every sentence but the last is punctuation |
| SentenceContext.ContextStaysInSentence | crates/colorful-lexicon/src/lib.rs:570-584 | where the sentence changes, the token on the left is inert: never refined, never offered as context |
| AnalysisPipeline.AnalyzeDocumentSources | crates/colorful-lsp/src/lib.rs:300-345 | for any adapters, analysed exactly when the views share coordinates and the result validates against both; tokens then decode in source coordinates; an invalid classification is reported by its first fault, in the analysed view first |
| AnalysisPipeline.LexemeEdgesAreSourceBoundaries | crates/colorful-parse/src/markdown.rs:364-375 | no lexeme of a masked text begins or ends inside a masked four-byte scalar |
| AnalysisPipeline.MaskedTreeFitsSource | crates/colorful-lsp/src/lib.rs:318-344 | the tree parsed from a masked text is well formed over the source |
| AnalysisPipeline.MaskedAnalysisValidates | crates/colorful-lsp/src/lib.rs:300-345 | every check on a masked document holds for the built-in adapters |
| AnalysisPipeline.AnalyzeMarkdown | crates/colorful-lsp/src/lib.rs:281-345 | analysing Markdown with the built-in adapters always yields tokens, whatever is excluded |
| CycleSearch.EveryEdgeExaminedOnce | crates/colorful-ir/src/validation.rs:758-802 | each edge, resolvable or not, is examined exactly once |
| CycleSearch.ReportedEdgesCloseCycles | crates/colorful-ir/src/validation.rs:758-802 | each reported edge closes a cycle none of whose other edges is reported, and none is reported twice |
| CycleSearch.DroppingReportedEdgesLeavesNoCycle | crates/colorful-ir/src/validation.rs:758-802 | without the reported edges the graph has no cycle |
| CycleSearch.ReportsExactlyCycles | crates/colorful-ir/src/validation.rs:758-802 | something is reported exactly when the graph has a cycle |
| CycleSearch.VisitKeeps | crates/colorful-ir/src/validation.rs:774-800 | visiting a node keeps the three colours sound and touches no node begun before |
| StructureCycles.FirstWithIdIsFirst | crates/colorful-ir/src/validation.rs:695 | an id resolves to its first node, or to none when no node has it |
| StructureCycles.ExamineEdge | crates/colorful-ir/src/validation.rs:781-800 | one edge is followed, reported or passed over, and the measure of the loop goes down |
| StructureCycles.SearchFrom | crates/colorful-ir/src/validation.rs:768-800 | the loop over an explicit stack equals the recursive search from its root, and terminates |
| StructureCycles.ValidateStructureCycles | crates/colorful-ir/src/validation.rs:758-802 | the errors are the reported edges in order, each with its place, parent and child; none exactly when the graph is acyclic |
| StructureValidation.ValidateNode | crates/colorful-ir/src/validation.rs:682-707 | range, repeated id and depth faults of one node; its id maps to its first node |
| StructureValidation.ValidateStructureNodes | crates/colorful-ir/src/validation.rs:674-709 | the faults of every node in order, and the map from each id to its first node |
| StructureValidation.NoNodeErrors | crates/colorful-ir/src/validation.rs:674-709 | no errors exactly when every node has a good range, a new id and its kind's depth |
| StructureValidation.ValidateEdge | crates/colorful-ir/src/validation.rs:720-752 | a missing child, another parent or an outside range, judged against the first parent in wire order |
| StructureValidation.ValidateStructureEdges | crates/colorful-ir/src/validation.rs:712-755 | the faults of every edge in wire order |
| StructureValidation.NoEdgeErrors | crates/colorful-ir/src/validation.rs:712-755 | no errors exactly when every child resolves, lies inside its parent and has no other parent |
| StructureValidation.ValidateStructureGraph | crates/colorful-ir/src/validation.rs:662-671 | node, edge and cycle errors in that order; none exactly when the outline is sound |
| OutlineForest.IdsAreUnique | crates/colorful-ir/src/validation.rs:689-694 | an accepted outline has no two nodes with one id |
| OutlineForest.ChildrenResolve | crates/colorful-ir/src/validation.rs:722-728 | every child id names exactly one node |
| OutlineForest.OnlyOneParent | crates/colorful-ir/src/validation.rs:730-741 | a node is listed by at most one node |
| OutlineForest.AncestorsContain | crates/colorful-ir/src/validation.rs:743-752 | every ancestor's range contains the node's |
| OutlineForest.ClimbsToARoot | crates/colorful-ir/src/validation.rs:758-802 | every node climbs by parents to a node that has none |
| OutlineForest.AcceptedOutlineIsForest | crates/colorful-ir/src/validation.rs:662-802 | unique ids, at most one parent, exactly one root above each node, nested ranges |
| OutlineForest.OddOutlineIsAccepted | crates/colorful-ir/src/validation.rs:712-755 | a sentence listing a paragraph twice is accepted: no more than a forest is promised |
| IrRanges.CheckRange | crates/colorful-ir/src/validation.rs:547-588 | the faults of a range in order; none exactly when it is ordered, in bounds and between characters |
| IrValidation.ContractErrors | crates/colorful-ir/src/validation.rs:448-473 | none exactly when version and both hashes are this build's |
| IrValidation.NoSourceErrors | crates/colorful-ir/src/validation.rs:486-541 | none exactly when the declared length and hash are those of the decoded bytes |
| IrValidation.ContextOf | crates/colorful-ir/src/validation.rs:535-541 | ranges are bounded by the length of the bytes, decodable or not, or by the declared one when there are none, and checked against characters exactly when the bytes are UTF-8 |
| IrValidation.ValidateToken | crates/colorful-ir/src/validation.rs:599-641 | the faults of one token against its predecessor and the ids seen |
| IrValidation.ValidateTokenRanges | crates/colorful-ir/src/validation.rs:593-643 | the faults of every token in order; none exactly when all are sound |
| IrValidation.AcceptedTokensAreDisjoint | crates/colorful-ir/src/validation.rs:593-643 | accepted tokens are non-empty and apart, however far apart in the list, with different ids |
| IrValidation.ValidateTokenAxes | crates/colorful-ir/src/validation.rs:647-659 | the violation of each token in order; none exactly when every token's axes are legal |
| IrValidation.CheckRanges | crates/colorful-ir/src/validation.rs:805-818 | the faults of a list of ranges, each at its own path |
| IrValidation.ValidateDerivation | crates/colorful-ir/src/validation.rs:831-862 | none exactly when there is a step and each has identity, its own pass id and sound ranges |
| IrValidation.ValidateDocument | crates/colorful-ir/src/validation.rs:426-444 | the seven validators' errors concatenated in order; none exactly when the document is sound in every respect |
| IrErrors.RangeErrorsAreFaults | crates/colorful-ir/src/validation.rs:547-588 | each kind of range error is listed exactly when the range has that fault, with its end's path and value |
| IrErrors.TokenErrorsAreFaults | crates/colorful-ir/src/validation.rs:593-643 | each kind of token error is listed exactly for the tokens with that fault, at their index and with their values |
| IrErrors.AxesErrorsAreFaults | crates/colorful-ir/src/validation.rs:647-659 | an axes error is listed exactly for the tokens whose axes break a rule, naming the first one broken |
| IrErrors.NodeErrorsAreFaults | crates/colorful-ir/src/validation.rs:674-707 | each kind of node error is listed exactly for the nodes with that fault |
| IrErrors.EdgeErrorsAreFaults | crates/colorful-ir/src/validation.rs:712-755 | each kind of edge error is listed exactly for the edges with that fault, naming the first node that lists the child |
| IrErrors.CycleErrorsAreFaults | crates/colorful-ir/src/validation.rs:758-802 | a cycle error is listed exactly for the edges the search reports, naming the two nodes joined |
| IrErrors.DerivationErrorsAreFaults | crates/colorful-ir/src/validation.rs:831-862 | each kind of derivation error is listed exactly for the steps with that fault |
| IrErrors.ErrorsAreTheFaults | crates/colorful-ir/src/validation.rs:426-444 | the validator lists exactly the faults of the document |
| OutlineBuilder.LogicalLineBreakCount | crates/colorful-ir/src/projection.rs:171-187 | breaks are the line starts the coordinate model passes |
| OutlineBuilder.IsParagraphBreak | crates/colorful-ir/src/projection.rs:192-194 | at least two breaks and nothing but whitespace |
| OutlineBuilder.GroupParagraphs | crates/colorful-ir/src/projection.rs:217-226 | paragraph `p` holds, in order, exactly the sentences with `p` breaks before them |
| OutlineBuilder.BuildStructure | crates/colorful-ir/src/projection.rs:199-257 | succeeds exactly when spans and the largest id fit; paragraphs come first and list their sentences' ids |
| ProjectedOutline.BuiltOutlineIsOk | crates/colorful-ir/src/projection.rs:199-257 | the outline built from ordered valid sentences passes every structure check |
| Projection.LegalAxesAreProjections | crates/colorful-ir/src/validation.rs:869-926 | the validator accepts exactly the axes the projection emits, and no two classes share theirs |
| Projection.AxesShowTheClass | crates/colorful-ir/src/projection.rs:100-166 | the axes emitted are those on which each axis says its part of the class |
| Projection.ProjectTokens | crates/colorful-ir/src/projection.rs:344-360 | every token with its index, span and axes, or an overflow |
| Projection.ProjectedTokensAreOk | crates/colorful-ir/src/projection.rs:344-360 | the projected tokens pass their checks exactly when none is empty |
| Projection.ProjectedDocumentIsOk | crates/colorful-ir/src/projection.rs:372-389 | the projected document passes its validator exactly when no leaf is empty |
| Projection.ProjectClassification | crates/colorful-ir/src/projection.rs:325-390 | succeeds exactly when identities are present and distinct, numbers fit and no leaf is empty, and then with all tokens, the outline of the paragraphs, no diagnostics and both derivation steps; otherwise says which fails |
| Projection.FromClassification | crates/colorful-ir/src/projection.rs:278-295 | the same for unvalidated values, rejecting exactly those that do not validate, by their first fault |
| Projection.ParagraphGapIsTwoBytes | crates/colorful-ir/src/projection.rs:192-194 | a paragraph break takes at least two bytes |
| Projection.OutlineFitsItsText | crates/colorful-ir/src/projection.rs:228-256 | paragraphs and sentences together outnumber the bytes up to a sentence's end by at most one |
| Projection.NumbersOfTextFit | crates/colorful-ir/src/projection.rs:344-390 | with no empty sentence or leaf, every id and offset of a text within the limit fits |
| BuiltinProjection.ParsedSentencesAreFilled | crates/colorful-parse/src/lib.rs:76-139 | every sentence and leaf of a parse covers a byte |
| BuiltinProjection.ProjectProse | crates/colorful-ir/src/projection.rs:278-390 | built-in prose projects exactly when identities are present and distinct and the text fits, to the document of its parse and contextual tokens |
| DocumentRecord.DocumentState.constructor | crates/colorful-lsp/src/document_state.rs:195-206 | a new opening at generation one with its own handle and nothing cached |
| DocumentRecord.DocumentState.ApplyEdit | crates/colorful-lsp/src/document_state.rs:239-254 | cancels the old handle, edits in place, starts the next generation and empties cache and watch |
| DocumentRecord.DocumentState.Accept | crates/colorful-lsp/src/document_state.rs:391-411 | installs exactly when generation and handle are the document's own and not cancelled, and changes nothing otherwise |
| StoreInvariant.MayInstallIsCurrent | crates/colorful-lsp/src/document_state.rs:391-402 | in every reachable state the three guards of installation come to one: the work is current |
| StoreInvariant.CurrentIsNewest | crates/colorful-lsp/src/document_state.rs:391-430 | whatever an opening has published is older than the work about to be installed |
| StoreActs.StepKeeps | crates/colorful-lsp/src/document_state.rs:178-431 | every step of handlers, workers and readers keeps the invariant |
| StoreActs.ReachableKeeps | crates/colorful-lsp/src/document_state.rs:178-431 | the invariant holds in every state any run can reach |
| StoreLedger.RunsAgree | crates/colorful-lsp/src/document_state.rs:178-431 | after every run the store is what the run's actions amount to: mirrors, versions, works, results, caches, subscriptions and replies |
| StoreTheorems.ActSupersedes | crates/colorful-lsp/src/document_state.rs:217-281 | opening, changing or closing an open document makes its present work no longer current |
| StoreTheorems.SupersededForever | crates/colorful-lsp/src/document_state.rs:345-402 | work superseded before it installs is not installed on any continuation, even when generation numbers coincide |
| StoreTheorems.SupersededNeverPublishes | crates/colorful-lsp/src/document_state.rs:391-430 | work superseded before it installs is published on no continuation |
| StoreTheorems.MirrorsFollowRequests | crates/colorful-lsp/src/document_state.rs:217-282 | the open documents are those opened and not closed since, each mirror the opened text with the changes acted on since, in order, at the last version |
| StoreTheorems.PublicationsAscend | crates/colorful-lsp/src/document_state.rs:404-430 | publications of one opening strictly ascend, each the result of the opened text with the requested edits up to its generation, at that generation's version |
| StoreTheorems.WatchMirrorsCache | crates/colorful-lsp/src/document_state.rs:239-254 | the watch value is the cache and, when present, names the present generation and version |
| StoreTheorems.RepliesAreTruthful | crates/colorful-lsp/src/document_state.rs:285-302 | a reply is the result of the opening its request subscribed to, at a generation no older than the one then; there is none only if the opening is gone |
| StoreSettles.CurrentIsNeverCancelled | crates/colorful-lsp/src/document_state.rs:239-254 | the handle of an open document's present work is never cancelled |
| StoreSettles.QuiescentIsSettled | crates/colorful-lsp/src/document_state.rs:339-431 | with nothing left to do, every request due has been acted on and every open document has the one result of its opened text with all its edits |
| StoreSettles.StuckIsQuiescent | crates/colorful-lsp/src/document_state.rs:178-431 | no deadlock: while something is left to do, some step is enabled |
| StoreSettles.StepDescends | crates/colorful-lsp/src/document_state.rs:178-431 | every step other than a new request lowers a measure |
| StoreSettles.InternalRunsEnd | crates/colorful-lsp/src/document_state.rs:178-431 | without new requests a run is no longer than the measure it starts from |
| StoreSettles.ReaderCanStep | crates/colorful-lsp/src/document_state.rs:285-302 | at rest a request for tokens can be answered, or its opening is gone and it gives up |
| StoreSettles.StoreComesToRest | crates/colorful-lsp/src/document_state.rs:178-431 | however it interleaves, a run without new requests ends, with every request due acted on, every open document settled and every token request answered |
| StoreAccounts.CancelledIsSuperseded | crates/colorful-lsp/src/document_state.rs:217-282 | at rest the cancelled handles are exactly those of superseded work |
| StoreAccounts.LastPublicationIsCached | crates/colorful-lsp/src/document_state.rs:404-430 | at rest an open document's last publication is what it has cached |
| StoreGates.GatesAreExclusive | crates/colorful-lsp/src/document_state.rs:223-283 | in every reachable state no gate is held by two handlers, two workers, or a handler and a worker |
| StoreGates.OnlyActsSupersede | crates/colorful-lsp/src/document_state.rs:217-282 | a step makes current work superseded exactly when it is a handler's act on that document |
| StoreGates.CurrentUntilActedOn | crates/colorful-lsp/src/document_state.rs:391-430 | over any run, work under its own held gate is still current exactly when no handler has acted on its document since; any that has held another gate or none |
| StoreGates.GuardedStaysCurrent | crates/colorful-lsp/src/document_state.rs:391-430 | with every handler on its way coming through the same gate, the work stays current while its worker holds the gate |
| StoreGates.StrayHandlerSupersedes | crates/colorful-lsp/src/document_state.rs:223-283 | a handler on its way by another gate, or none, can supersede the work before its worker moves |
| StoreGates.PublishesCurrentExactlyWhenGuarded | crates/colorful-lsp/src/document_state.rs:391-430 | an installed current result is current on every continuation that publishes it if and only if all handlers on their way to the document come through its gate |
| StoreOverlap.PublicationMayBeSuperseded | crates/colorful-lsp/src/document_state.rs:230-242 | a run in which a worker publishes a generation just superseded under another opening's gate |

## Left out

- Bytes: the line and cursor scans are modelled over scalars; since a UTF-8 continuation byte is never `\r` or `\n`, line starts are the same.
- Markdown events: the ranges `mask_non_prose` excludes come from a CommonMark parser that is not part of this model; everything is proved for any set of ranges.
- Reference definitions: `hidden_reference_definition_ranges` and `reference_identifier_range` only add excluded ranges.
- Unicode and word tables: letters, digits, numerics and uppercase are functions with the few facts the code relies on (`Unicode.Tables`), and a lexicon is any function from words to classes; only the four ambiguous words and their senses are spelled out.
- Coordinates.LineIndex.Position: casts to 32 bits assume a text shorter than 4 GiB, as the source does without checking.
- Edits.ReportedChangeIsItsSplice: neither end of a splice may split a `\r\n`, because such a point has no position of its own.
- Edits.Rope: a string edited in place; the balanced tree behind it is not modelled.
- MarkdownMask.SortByKey: any order-preserving permutation will do, so an insertion sort stands for the unstable sort of the library.
- Hashes: SHA-256 and the schema, vocabulary and build hashes are unspecified values compared for equality.
- IrDocument: `FunctionKind` and `OpenClassKind` of the wire are those of `Syntax`, since the mapping between them is one to one by name.
- IrDocument.Path: field names are an enumeration, not strings, and error texts are not rendered.
- StoreActs.StepKeeps: the store is a state machine on values, because its handlers and workers interleave; what one entry's lock makes atomic is one step, and `DocumentRecord.DocumentState` carries the in-place form of those steps.
- Timers: debounce delays, queue-delay measurement and metrics do not affect which step is enabled.
- Generation overflow: the panic at the end of a 64-bit counter is not modelled.
- StoreInvariant.ResultOf: an analysis is named by the text, format and generation it was computed from; the computation itself is `AnalysisPipeline`, and a failing computation is the failure placeholder.
- Diagnostics: analyzers, their findings and their translation to ranges add no state and no arithmetic beyond `Position`.
- Transport: requests, capabilities, client publishing and process entry points.
- Terminal output, vocabulary manifest lookups, the rule packs and the Vale bridge: formatting and filtering.
