# Verified model of the adocweave core

A Dafny model of the core of the AsciiDoc engine in `crates/adocweave-core`, with proofs of what
the engine relies on. `dafny verify dfyconfig.toml` checks all of it.

The core takes a text apart and promises to lose nothing: lines and tokens partition the source,
the block parser tiles the lines, the inline scanner tiles each segment, and the tree built over
both gives the source back. Around it stand indexes that must agree with plain searches, trees
built in one pass, a formatter whose output must be stable, and tables that group and number.

## How it is modelled

- A text is the sequence of its UTF-8 code units, each written as the character with that code, so
  every offset is a byte offset. `Text.Valid` says that the units form whole characters.
- Code that fills arrays or moves cursors is a method with loops; objects that change are classes
  (`BlockRun.BlockParserState`, `Attributes.SequentialAttributeState`, `Identifiers.Allocator`,
  `Catalog.Builder`). Each such method is proved equal to a recursive definition, and the
  properties are proved about the definition for all inputs.
- Defensive checks of the engine (reversed ranges, a cursor that does not advance, a text cut
  inside a character, the closing partition check) are failures in the model. That a check never
  fires is a theorem.
- Where a line, a macro or a name is judged by a grammar that is not modelled, the judgement is a
  parameter, and the theorems hold for every choice of it.

| files | component |
|---|---|
| `Text`, `Source`, `TokenKinds`, `Positions` | text, lines, tokens, line positions |
| `InlineModel` to `InlineParser` | inline grammar, candidate index, the scanner |
| `InlineListing`, `InlineRun`, `MarkerNodes`, `MacroNodes`, `StyledTexts` | which places are candidates, and what each becomes |
| `InlineNodes`, `InlineTrees`, `Syntax` | inline syntax nodes, materialization, traversal |
| `BlockGrammar`, `BlockForms`, `BlockModel`, `Delimiter`, `BlockState`, `BlockParser` | block grammar and the recursive definition of block parsing |
| `BlockTiling`, `BlockSteps`, `BlockLines`, `BlockSafety` | the invariant and why each step keeps it |
| `BlockHomes`, `BlockHeader`, `HeaderPhase` | where each line of a document goes, and which are header lines |
| `ListTree`, `ItemTree`, `ListLines`, `ListNodes` | lines to list items, and these to nested lists |
| `BlockScans`, `BlockRun`, `Documents` | the loops and classes, and the way from source to tree and back |
| `EscapedMacros`, `SafeSources` | escaped macros whose ranges come out wrong, and sources in which none does |
| `Substitution`, `Templates`, `Attributes`, `AttributeEvents` | attribute expansion, the sequential environment and its index |
| `Structure`, `Presentation` | section forest, numbers, table of contents |
| `Edits`, `Formatter`, `LineForms`, `LineClasses`, `Protection` | fixes, the formatter, and what it leaves as it is |
| `JoinedLines`, `FormatterFixpoint`, `SettledTexts`, `SettledDocuments` | the second pass of the formatter |
| `IdleText`, `OpenedListing` | a paragraph that formatting turns into a listing |
| `InlineEffort` | the cost of the candidate index |
| `Sorting`, `Identifiers`, `Catalog`, `CatalogGroups` | identifiers and footnotes |

## What the proofs show about the code

- Splitting a text at hard breaks computes ranges from the text without its escape backslash
  (`parser.rs:2176-2207`). An escaped macro therefore gets ranges that are one byte off, with or
  without a hard break in it. A hard break right after a character outside ASCII then cuts the
  character, and the document is rejected as an internal error; the end of a text can cut its last
  character, which becomes no syntax node and is kept. `InlineNodes.SplitTextsLand` says exactly
  when all ranges land, `InlineNodes.SplitTilesIff` when the split tiles, `Documents.ParseDocument`
  when there is a tree, and `SafeSources.ParseSafeSource` gives a condition that is read off the
  source. `Documents.InputHasNoTree` and `EscapedMacros.AddressIsCut` are inputs. Apart from this,
  no defensive check of the block parser and the tree builder can fire.
- Expansion does not check its size limit behind an unclosed brace (`substitution.rs:192-195`):
  `Substitution.OverLimit` says when the result is over the limit, `Substitution.UnclosedIsOverLimit`
  is an input.
- The formatter is stable on all texts that `SettledTexts.Unsettled` does not describe, whatever
  parsing the output protects (`SettledTexts.SettledStays`, `SettledDocuments.SettledDocumentStays`).
  Where the output protects nothing it is stable on no others (`SettledDocuments.UnprotectedAgainIff`),
  and three inputs show the three ways to fail. Where the output is protected the condition is not
  needed: `OpenedListing.ListingIsOpened` is an input. `SettledTexts.SecondPassIff` holds in all cases.
- External attributes that differ in case only are folded in two ways: the preprocessor keeps a
  value that a later spelling withdraws (`attributes.rs:296-303`), the environment does not
  (`attributes.rs:440-446`). `Attributes.StartOfIff` says when the two start alike,
  `Attributes.SpellingsCanDiffer` is an input.
- Trimming can change what a line is: a paragraph line of three quotes and a blank comes out as a
  thematic break (`LineClasses.BreakAppears`), since `block_grammar.rs:355-367` keeps the blank only
  behind delimiters, attribute lists and anchors. `LineClasses.ClassChangesIff` says exactly when. A
  return in front of trimmed blanks can join the newline; `LineForms.FormComesOut` says exactly when
  that makes a delimiter, an attribute list or an anchor.
- Displayed section numbers can repeat (`Presentation.NumbersCanRepeat`), exactly when headings
  under the same heading are at different levels (`Presentation.NumbersDifferIff`); the counters
  behind them never do.
- The number of lines of a source of the greatest length need not fit 32 bits, although
  `source.rs:601-603` expects it to: `Positions.LineCountOverflows` says exactly when.

## Model

| member | source | states |
|---|---|---|
| InlineGrammar.FootnoteClose | crates/adocweave-core/src/inline.rs:2122-2148 | The bracket index, used to jump from bracket to bracket, ends a footnote body where a unit-by-unit depth count would: at the first unescaped `]` at depth zero, else at the first unescaped `]`, else nowhere |
| InlineGrammar.NothingOpensAtUrlStop | crates/adocweave-core/src/inline.rs:1339-1615 | Where a bare URL ends, no macro and no escapable marker starts, so an escape backslash is never part of a token that came before it |
| InlineRecognition.PairsDisjoint | crates/adocweave-core/src/inline.rs:849-873 | Unconstrained pairs never overlap: two neighbouring positions are not both pairs |
| InlineRecognition.CloserFits | crates/adocweave-core/src/inline.rs:953-1019 | Opener and closer of a marker lie apart and in the text, on character boundaries, so the span between them is well formed |
| InlineRecognition.RecognizeMarker | crates/adocweave-core/src/inline.rs:969-1019 | Each outcome is well formed: a match keeps its opener, marker and form and spans whole characters, a recovery or rejection moves forward to a boundary in the text; when it matches is MarkerNodes.MarkerStep |
| InlineRecognition.RecognizeMacro | crates/adocweave-core/src/inline.rs:1339-1615 | Each outcome of macro recognition, for every macro form, is a token of whole characters that starts at the opener, or moves forward inside the text |
| InlineRecognition.RecognizeUrl | crates/adocweave-core/src/inline.rs:1791-1874 | A recognised URL is a token of whole characters that starts where it was opened and ends where no escape can reach back into it; otherwise recognition moves forward inside the text |
| InlineIndex.IndexOpeners | crates/adocweave-core/src/inline.rs:583-615 | One reverse pass stores, for every offset, the next run of one, two or three plus signs and the next closing typographic quotation mark that forward searches would find |
| InlineIndex.IndexDelimiters | crates/adocweave-core/src/inline.rs:694-722 | One reverse pass stores, for every offset, the next bracket of either kind and the next `>>` that forward searches would find |
| InlineIndex.IndexLabels | crates/adocweave-core/src/inline.rs:1906-1920 | The table over white space and brackets agrees with a forward search from every character boundary |
| InlineIndex.IndexUnconstrainedPairs | crates/adocweave-core/src/inline.rs:849-873 | The marked positions are exactly the even positions of maximal marker runs that have a successor in the run |
| InlineIndex.PreparsedCandidates | crates/adocweave-core/src/inline.rs:583-679 | Quotation and passthrough candidates, and the positions they guard, are those that forward searches define |
| InlineIndex.InvalidMonospaceBoundaries | crates/adocweave-core/src/inline.rs:791-838 | Backtick pairs at invalid boundaries, and the positions they guard, are those of the left-to-right pairing |
| InlineIndex.ScanCandidates | crates/adocweave-core/src/inline.rs:446-499 | The main loop, which writes guards into an array while it goes, finds the candidates and misplaced macros of its definition over sets |
| InlineIndex.ClosersOf | crates/adocweave-core/src/inline.rs:1036-1087 | The reverse pass, with one register for each marker and form, gives every opener the nearest later valid closer of its form |
| InlineIndex.IndexMarkerClosers | crates/adocweave-core/src/inline.rs:1021-1095 | Each marker candidate receives the closer that a naive forward search finds; all other candidates are unchanged |
| InlineIndex.BuildIndex | crates/adocweave-core/src/inline.rs:435-519 | The index built from arrays in reverse passes lists exactly the candidates defined by forward search, in order, and inspects at most twelve positions for each byte of the text |
| InlineEffort.LocalScansAreApart | crates/adocweave-core/src/inline.rs:1972-1985 | The scans of e-mail local parts start only at maximal runs, so together they are no longer than the text |
| InlineEffort.DomainScansAreApart | crates/adocweave-core/src/inline.rs:1972-1985 | The scans of e-mail domains lie in disjoint runs, so together they read no more units than lie behind an @ in such runs |
| InlineEffort.UrlScansAreApart | crates/adocweave-core/src/inline.rs:1987-1997 | The scans of URL schemes start only at maximal runs, so together they are no longer than the text |
| InlineEffort.MonospaceGuards | crates/adocweave-core/src/inline.rs:791-838 | Each invalid pair of backticks guards two positions that were free before |
| InlineEffort.NothingInDomain | crates/adocweave-core/src/inline.rs:447-493 | The main loop finds nothing inside the domain of a possible e-mail address |
| InlineEffort.ScannedAreOpen | crates/adocweave-core/src/inline.rs:446-499 | The main loop finds no more candidates than there are positions that are neither guarded nor in a domain |
| InlineEffort.EffortIsLinear | crates/adocweave-core/src/inline.rs:435-519 | All passes over any text together inspect at most twelve positions for each byte: the budget that the repository sets for chosen inputs holds for all |
| InlineParser.ParsedSegment | crates/adocweave-core/src/inline.rs:85-372 | For every text and nesting depth, the inlines tile the segment: contiguous and in order from its start to its end, each text value being its source without at most two leading backslashes, two only in front of a doubled marker, and the same at every level inside spans, labels and captions |
| InlineParser.ParseSegment | crates/adocweave-core/src/inline.rs:85-372 | The loop with cursor, pending text start and suppressed closers, driven by the precomputed index, computes that output for every text; which nodes it holds is MarkerNodes.MarkerBecomesNode, MacroNodes.MacroBecomesNode and MarkerNodes.SpanBecomesNode |
| InlineParser.TilesCover | crates/adocweave-core/src/inline.rs:85-372 | Reading the source ranges of tiling inlines one after another gives back the segment |
| InlineParser.EscapeFits | crates/adocweave-core/src/inline.rs:2157-2175 | An escape backslash in front of a recognised token lies in the text that is still pending: the token start less its escape width never falls before the pending text |
| InlineParser.StepMarker | crates/adocweave-core/src/inline.rs:227-292 | A marker step keeps the tiling of the text before the pending text, also when the closer is suppressed or the marker is escaped |
| InlineParser.StepMatched | crates/adocweave-core/src/inline.rs:122-170 | A macro step, escaped or not, keeps the tiling of the text before the pending text |
| InlineParser.Consume | crates/adocweave-core/src/inline.rs:97-361 | Over any run of candidates the text before the pending text stays tiled |
| InlineRun.OutputGrows | crates/adocweave-core/src/inline.rs:97-361 | At every candidate the nodes so far are the first nodes of the output; a later node is plain text or starts no earlier than the cursor stands |
| InlineRun.NodeComesFrom | crates/adocweave-core/src/inline.rs:97-361 | Every node but plain text comes from a candidate that the scan reached, and starts where that candidate opens |
| MarkerNodes.EscapeIs | crates/adocweave-core/src/inline.rs:2157-2175 | An odd number of backslashes escapes a marker with one of them, two or more escape a doubled marker with two, an even number escapes a single one not at all |
| MarkerNodes.MarkerStep | crates/adocweave-core/src/inline.rs:227-292 | At a marker that is neither escaped nor suppressed: when its nearest closer exists with something between, a valid name between braces and no white space between carets or tildes, the scan adds the node over both markers and goes on behind it; otherwise it adds nothing and goes on behind the marker, or behind an empty pair |
| MarkerNodes.MarkerBecomesNode | crates/adocweave-core/src/inline.rs:969-1019 | So the output holds the node of the pair, monospace, attribute reference or styled by its marker over the inlines of what stands between, exactly when the four conditions hold; otherwise no node but plain text starts at the marker |
| MarkerNodes.LiteralBecomesText | crates/adocweave-core/src/inline.rs:227-257 | An escaped marker, and the closer that it would have paired with, come out as text; a closer that is reached is taken off the list and no other is put on it |
| MarkerNodes.SpanBecomesNode | crates/adocweave-core/src/inline.rs:299-357 | A quotation that the scan reaches becomes a span over its parsed content, a passthrough its raw content |
| MacroNodes.MacroGives | crates/adocweave-core/src/inline.rs:1339-1615 | Recognition over the bracket indexes and lowering together give what the macro means, found by forward searches in the text: node, unclosed, or no macro, for every form |
| MacroNodes.MacroBecomesNode | crates/adocweave-core/src/inline.rs:122-170 | A macro that the scan reaches and that is not escaped comes out as the node it means; when it means none, no node but plain text starts there and the scan goes on with the next character |
| StyledTexts.WordsAreText | crates/adocweave-core/src/inline.rs:85-372 | Letters and blanks come out as one text |
| StyledTexts.OneCandidate | crates/adocweave-core/src/inline.rs:435-519 | Words with one marked word hold one candidate: the marker with its closer |
| StyledTexts.MarkedWordParses | crates/adocweave-core/src/inline.rs:85-372 | For all words around a marked word and each of the seven markers, the output is the words as text and between them the monospace, attribute reference or styled node over the marked word; too deep, it is text |
| InlineListing.MacroListed | crates/adocweave-core/src/inline.rs:446-480 | A place where a macro may start is a candidate, unless an earlier quotation, passthrough, invalid pair of backticks or escaped anchor hides it |
| InlineListing.DoubledListed | crates/adocweave-core/src/inline.rs:480-486 | So is one where a doubled marker starts and no macro, with the nearest closer |
| InlineListing.SingleListed | crates/adocweave-core/src/inline.rs:487-499 | So is one where a single marker opens: a brace, a caret or tilde before text, any other marker at an open boundary |
| InlineListing.PassthroughListed | crates/adocweave-core/src/inline.rs:583-679 | A run of one to three plus signs that the next run as long closes is a candidate, unless an earlier span goes over it |
| InlineListing.QuoteListed | crates/adocweave-core/src/inline.rs:583-679 | So is a quotation mark with a backtick that a backtick and the same mark close |
| InlineNodes.SplitTilesIff | crates/adocweave-core/src/parser.rs:2146-2207 | Splitting a text at hard breaks tiles its range exactly when no escape backslash was removed from it |
| InlineNodes.SplitLands | crates/adocweave-core/src/parser.rs:2146-2207 | After splitting, inlines stay in their segment in order; every range that becomes a syntax node is whole characters exactly when no escaped text has a hard break right after a character outside ASCII |
| InlineNodes.SplitTextsLand | crates/adocweave-core/src/parser.rs:2146-2207 | After splitting, every range, also of the texts that become no node, is whole characters exactly when moreover no escaped text ends, behind its last hard break, in a character that the shift by the removed backslashes cuts |
| InlineNodes.NodesRow | crates/adocweave-core/src/syntax_builder.rs:98-182 | The syntax nodes of inlines lie in order in their block; they are well nested exactly when every range that becomes a syntax node lies on character boundaries |
| InlineTrees.NodesShow | crates/adocweave-core/src/syntax_builder.rs:98-182 | The syntax nodes show every inline but plain text, one for one and in order, with its range, delimiters or target, and the same for its content |
| Source.LinesFromOk | crates/adocweave-core/src/source.rs:438-509 | The scan cuts any text into adjacent lines, each ending at its first line ending, only the last one without |
| Source.LinesUnique | crates/adocweave-core/src/source.rs:438-509 | The line table of a text is unique: any table of well-formed adjacent lines is the one the scan finds |
| Source.TokensPartition | crates/adocweave-core/src/source.rs:732-814 | The tokens of well-formed UTF-8 follow each other from start to end, none is empty and none cuts a character |
| TokenKinds.TokensFit | crates/adocweave-core/src/source.rs:761-814 | Each token is the ending of a line, its comment from two slashes behind blanks on, or a whole run of blanks or of other text; as tokens follow each other, these are all runs |
| Source.BuildDocument | crates/adocweave-core/src/source.rs:438-509 | Construction succeeds exactly when no line is too long, and then holds the line table and the tokens of the source |
| Source.DocumentIsLossless | crates/adocweave-core/src/source.rs:711-721 | The token texts joined together are the source |
| Syntax.SortedWellNested | crates/adocweave-core/src/syntax.rs:365-415 | Sorting annotations by range changes nothing about whether all of them are well nested |
| Syntax.AppendTokens | crates/adocweave-core/src/syntax.rs:438-466 | The binary search and the loop find exactly the tokens that meet a range, cut to it |
| Syntax.ClippedPartitions | crates/adocweave-core/src/syntax.rs:438-466 | Tokens cut to a range on character boundaries partition the range |
| Syntax.Materialize | crates/adocweave-core/src/syntax.rs:365-415 | The cursor pass over sorted children, which fills gaps with token leaves, computes the recursive definition |
| Syntax.MaterializedIff | crates/adocweave-core/src/syntax.rs:365-415 | Materialization succeeds exactly on nodes whose children, at every level, lie inside them, apart from each other and on character boundaries; then the leaves partition the node's range |
| Syntax.MaterializedNests | crates/adocweave-core/src/syntax.rs:365-415 | In a materialized tree children, token leaves included, lie inside their parent at every level |
| Syntax.Descendants | crates/adocweave-core/src/syntax.rs:186-198 | The stack iterator visits exactly the recursive preorder |
| Syntax.LeavesPartitionSource | crates/adocweave-core/src/syntax.rs:417-436 | The closing check accepts exactly the trees whose leaves partition the source |
| Syntax.Reconstruct | crates/adocweave-core/src/syntax.rs:312-324 | The leaves met by the iterator spell the source |
| Syntax.FromBlocks | crates/adocweave-core/src/syntax.rs:235-274 | A tree is built exactly when the blocks follow each other to the end of the source and are well nested: the closing partition check rejects nothing more. The leaves then partition the source, children lie inside their parents, and the blocks keep kind and range |
| ListTree.BuildForest | crates/adocweave-core/src/list_parser.rs:138-173 | The shared-cursor pass builds the forest of its recursive definition, with the remaining items as termination measure |
| ListTree.ForestFlattens | crates/adocweave-core/src/list_parser.rs:138-173 | The forest of list items flattens in preorder to the items |
| ListTree.ForestShape | crates/adocweave-core/src/list_parser.rs:138-173 | Depths grow strictly along every path, all items of a list share depth and kind, and neighbouring lists never share both |
| ListTree.HeightBound | crates/adocweave-core/src/list_parser.rs:138-173 | A well-shaped forest is no higher than the depth limit that its items keep, less the depth it stands at; so no forest of list items is higher than the limit |
| ListTree.ForestFits | crates/adocweave-core/src/list_parser.rs:138-173 | The ranges of lists nest and follow each other like the ranges of their items |
| ItemTree.ForestIsTree | crates/adocweave-core/src/syntax_builder.rs:76-97 | However the items are grouped into lists, the nodes of a list are one tree: an item shows its marker, its terms and its text, and holds exactly the items after it that are deeper, up to the first that is not |
| Delimiter.BodyIsFirst | crates/adocweave-core/src/delimiter.rs:61-128 | A body ends at the first line equal to its delimiter; without one, at the first line that looks like a heading; without that, at the end of what is parsed |
| Delimiter.FindBody | crates/adocweave-core/src/delimiter.rs:61-128 | One scan that remembers the first heading it passes finds that end |
| BlockScans.FindSetOff | crates/adocweave-core/src/parser.rs:942-974 | The backward scan tells exactly whether an attribute line is set off from the body |
| BlockScans.FindAttributeEnd | crates/adocweave-core/src/attributes.rs:798-922 | The scan over continuation lines finds the last line of an attribute entry |
| BlockScans.FindLiteralEnd | crates/adocweave-core/src/parser.rs:2024-2055 | The scan stops at the first line that ends a literal paragraph |
| BlockScans.FindPrincipalEnd | crates/adocweave-core/src/parser.rs:1232-1264 | The scan stops at the first line that ends the text of a list item |
| BlockScans.FindContinuationStart | crates/adocweave-core/src/parser.rs:1526-1631 | The scan finds the block behind the metadata lines that follow a continuation marker, or none |
| BlockScans.MergeInPlace | crates/adocweave-core/src/parser.rs:1406-1422 | Merging description terms into the following entry, in place, gives the list of the recursive definition |
| ListLines.MergeShares | crates/adocweave-core/src/parser.rs:1406-1422 | The merged entries are one for each maximal run of terms without a text and the entry behind it: that entry, with all the terms in order, over all their lines |
| BlockScans.FindTrailing | crates/adocweave-core/src/parser.rs:1023-1042 | The backward loop finds the syntax nodes that pending metadata reaches over |
| BlockRun.BlockParserState.Advance | crates/adocweave-core/src/block_sequence.rs:155-170 | A commit moves the line forward and not past the end, or fails; nothing else changes |
| BlockRun.BlockParserState.AttachPendingMetadata | crates/adocweave-core/src/parser.rs:1023-1042 | Pending metadata becomes the head of the last block, together with the comments between; the rest of the state is unchanged |
| BlockRun.BlockParserState.FlushOrphanMetadata | crates/adocweave-core/src/parser.rs:230-244 | Pending metadata without a block becomes blocks of its own, comments keeping their place |
| BlockRun.BlockParserState.CommitRecognizedBlock | crates/adocweave-core/src/parser.rs:340-357 | A recognised block is pushed, the cursor moves behind it, and the pending metadata goes to it |
| BlockRun.BlockParserState.PushPending | crates/adocweave-core/src/parser.rs:40-81 | Metadata and comments wait in order; the range they span grows with them |
| BlockRun.BlockParserState.CloseParagraph | crates/adocweave-core/src/parser.rs:213-228 | The waiting paragraph lines become one block and leave nothing behind |
| BlockRun.ParseLine | crates/adocweave-core/src/parser.rs:533-860 | One turn of the line loop does what the recursive definition of a step says, field by field |
| BlockRun.ParseBlockSequence | crates/adocweave-core/src/parser.rs:518-877 | The line loop over a mutable state, with nested blocks and lists inside, returns what the recursive definition returns; what each line becomes is BlockSafety.SequenceKeeps and BlockHomes.DocumentHouses |
| BlockRun.ParseDelimitedBlock | crates/adocweave-core/src/parser.rs:1672-1745 | A delimited block is parsed as defined, its body recursively |
| BlockRun.ParseNestedBlocks | crates/adocweave-core/src/parser.rs:1907-1947 | A nested range is parsed with a state of its own, one level deeper |
| BlockRun.ParseListItems | crates/adocweave-core/src/parser.rs:1163-1405 | The item loop collects the flat items with their continuations and stops where the definition stops |
| BlockRun.ParseListContinuation | crates/adocweave-core/src/parser.rs:1446-1520 | A continuation attaches the one block behind it, or nothing |
| BlockSteps.FlushParagraphKeeps | crates/adocweave-core/src/parser.rs:2057-2099 | Closing a paragraph never fails and keeps the tiling; what waited as metadata goes to it |
| BlockSteps.FlushOrphanKeeps | crates/adocweave-core/src/parser.rs:1044-1084 | Turning orphan metadata into blocks keeps the tiling |
| BlockSteps.CommitBlockKeeps | crates/adocweave-core/src/parser.rs:340-357 | Committing a block over the lines from the cursor on never fails and keeps the tiling |
| BlockSteps.AttachKeeps | crates/adocweave-core/src/parser.rs:1023-1042 | Attaching pending metadata finds a block, keeps the tiling and keeps whether the nodes are well nested |
| BlockLines.LiteralIsBlock | crates/adocweave-core/src/parser.rs:2024-2055 | A literal paragraph ends before the closing delimiter or heading that ends its range, so it never overruns it |
| BlockLines.HeaderLineKeeps | crates/adocweave-core/src/parser.rs:547-577 | Author and revision lines keep the tiling |
| BlockLines.ParagraphStepKeeps | crates/adocweave-core/src/parser.rs:856-859 | A further paragraph line keeps the tiling |
| BlockSafety.NestingStepKeeps | crates/adocweave-core/src/parser.rs:657-855 | Delimited blocks and lists, with all that is parsed inside them, keep the tiling; they fail only at the depth limit |
| BlockLines.HeadingStepKeeps | crates/adocweave-core/src/parser.rs:793-830 | A heading line keeps the tiling |
| BlockLines.FlatStepKeeps | crates/adocweave-core/src/parser.rs:588-656 | Source, math, simple and unsupported blocks keep the tiling |
| BlockLines.MetadataStepKeeps | crates/adocweave-core/src/parser.rs:702-748 | Titles, attribute lists and anchors that wait keep the tiling |
| BlockLines.CommentStepKeeps | crates/adocweave-core/src/parser.rs:749-757 | Comment lines, waiting or not, keep the tiling |
| BlockLines.BlankStepKeeps | crates/adocweave-core/src/parser.rs:758-763 | Blank lines, which close the paragraph and make metadata orphans, keep the tiling |
| BlockLines.AttributeStepKeeps | crates/adocweave-core/src/parser.rs:764-792 | Document attribute entries keep the tiling |
| BlockSafety.NestedKeeps | crates/adocweave-core/src/parser.rs:1907-1947 | The body of a compound block is tiled by its own blocks; parsing it fails only at the depth limit |
| BlockSafety.DelimitedKeeps | crates/adocweave-core/src/parser.rs:1672-1745 | A delimited block covers its lines, opener and closer included, and its children lie inside; parsing it fails only at the depth limit |
| BlockSafety.AttachmentsKeep | crates/adocweave-core/src/parser.rs:1446-1520 | Continuation chains never run past the end of their range; their lines are plus signs, each with the metadata and the delimited block, list or line that it attaches, up to one that attaches nothing |
| ListLines.StartIsBehind | crates/adocweave-core/src/parser.rs:1526-1625 | An attached block starts behind its metadata lines; when a blank line or the end follows these they are no metadata |
| ListLines.PrincipalReads | crates/adocweave-core/src/parser.rs:1188-1264 | An item has the kind, depth, marker and term of its line, and its text starts behind marker and task box, or on the next line when nothing is there, and ends with the last line that carries it on |
| BlockSafety.ListItemsKeep | crates/adocweave-core/src/parser.rs:1163-1405 | The items of a list follow each other from its first line to its end, each with the kind, the limited depth, the marker and the term of its line, with the text up to the first line that does not carry it on, and with the blocks attached behind |
| BlockSafety.StepKeeps | crates/adocweave-core/src/parser.rs:518-877 | At every step the emitted nodes, then the waiting metadata and comments, then the waiting paragraph lines tile the consumed lines; a step fails only at the depth limit |
| BlockSafety.SequenceKeeps | crates/adocweave-core/src/parser.rs:518-877 | For every line sequence, nesting level and range that ends at a closing delimiter, a heading or the last line, the run fails only because a limit is really exceeded; else its nodes tile the range, each made of the lines whose first form is its own: a paragraph of lines without any form and up to the next line that has one, a list from an item line to the first line that starts no item, holding the tree of its items, a heading of the level its signs say; and they are well nested exactly when all hard breaks land |
| BlockGrammar.ClassIff | crates/adocweave-core/src/block_grammar.rs:44-128 | A line has a class exactly when it has the form of the class and none that goes first; it is paragraph text when it has no form at all |
| BlockForms.DelimiterIff | crates/adocweave-core/src/delimiter.rs:30-59 | A line is a delimiter of a kind exactly when it is two hyphens, one character with three equals signs, or the character of the kind repeated four times at least; so no line is two |
| BlockForms.MarkerIff | crates/adocweave-core/src/list_parser.rs:46-136 | A line has a list marker exactly when it starts with stars or full stops and a blank, a number with a full stop and a blank, a number or full stop in angle brackets and a blank, or holds, behind something else, two to four colons or two semicolons before a blank or its end; kind, depth and cuts are those of the form, a term ending at the first such place |
| BlockLines.HeadingKindIff | crates/adocweave-core/src/parser.rs:1949-2022 | A heading is two to six equals signs, a space and text; with one sign it is the document title where that may stand; all else is malformed |
| BlockHomes.TiledHouses | crates/adocweave-core/src/parser.rs:518-877 | Each line of a sequence, at every nesting level, makes the block its form says, or waits in one, unless an earlier line opened a form that takes it or it is an author or revision line |
| BlockHomes.DocumentHouses | crates/adocweave-core/src/parser.rs:518-877 | So does each line of a document: a list item line lies in a list unless it stands in a verbatim body, an attribute value or the header lines |
| BlockHomes.TextShows | crates/adocweave-core/src/syntax_builder.rs:98-182 | The nodes of paragraph, item and heading texts show the inlines of the text, hard breaks split where they are to be |
| BlockHeader.HeadersInPlace | crates/adocweave-core/src/parser.rs:547-577 | In every document a title comes before all content, an author line directly behind a title, a revision line directly behind an author line |
| HeaderPhase.HeaderLinesAre | crates/adocweave-core/src/parser.rs:111-163 | In a document every block is what its first line says at its place, told from the blocks before it: an author line exactly when it reads as one directly behind a title, a revision line exactly directly behind an author line, an attribute entry exactly while the header is open or when it is set off from text, a title exactly before all content and anchors |
| HeaderPhase.NestedIsBare | crates/adocweave-core/src/parser.rs:94-105 | The body of a block holds no title, author or revision line and no attribute entry |
| ListNodes.MergeKeepsChain | crates/adocweave-core/src/parser.rs:1406-1422 | Merging description terms keeps the items in order, apart and inside the list |
| ListNodes.ListNodeNests | crates/adocweave-core/src/parser.rs:1423-1443 | The syntax node of a list covers its items, is no deeper than the depth limit, and is well nested exactly when all hard breaks land |
| Documents.BlocksCover | crates/adocweave-core/src/parser.rs:518-877 | The blocks of a document follow each other from the first to the last byte, each made of the lines it should be; a failure is the depth limit and nothing else |
| Documents.ParseDocument | crates/adocweave-core/src/parser.rs:477-516 | From lines to tree: apart from the depth limit, a document gets a tree exactly when every hard break lands on a character boundary; then the leaves partition the source and the blocks are those of the parser |
| Documents.RoundTrip | crates/adocweave-core/src/syntax.rs:312-324 | Parsing and reconstructing gives back every document that has a tree |
| SafeSources.ParseSafeSource | crates/adocweave-core/src/parser.rs:477-516 | Read off the source: when no hard break directly follows a character outside ASCII, a document gets a tree unless it exceeds the depth limit |
| SafeSources.AllTextsLand | crates/adocweave-core/src/parser.rs:2146-2207 | In such a source every text lands, whatever the blocks and escapes are |
| EscapedMacros.EscapedMacroIsText | crates/adocweave-core/src/inline.rs:122-170 | A text that is one escaped macro, complete or not, parses to one text without the backslash |
| EscapedMacros.EscapedReferenceIsText | crates/adocweave-core/src/inline.rs:85-372 | That holds for every escaped cross reference |
| EscapedMacros.AddressIsCut | crates/adocweave-core/src/parser.rs:2176-2207 | An escaped address that ends in an accented letter holds no hard break, and still the split puts its end inside the letter |
| EscapedMacros.InputDoesNotLand | crates/adocweave-core/src/parser.rs:2176-2207 | A ten-byte escaped cross reference with a hard break after an accented letter cuts that letter |
| Documents.InputHasNoTree | crates/adocweave-core/src/parser.rs:2176-2207 | The document that consists of that input has blocks but no tree, in every configuration that reads it as text |
| Substitution.ExpandAttributeText | crates/adocweave-core/src/substitution.rs:178-218 | The loop over braces returns the text, depth or error of the recursive definition, which Templates.TextExpands describes by the parts of the text |
| Substitution.ExpansionIsBounded | crates/adocweave-core/src/substitution.rs:178-218 | A successful expansion is at most the size limit plus the length of a tail with an unclosed brace, ends in that tail unchanged, and is no deeper than the depth limit |
| Substitution.TailIsCopied | crates/adocweave-core/src/substitution.rs:192-195 | An unclosed brace copies the rest of the text to the output, whatever the size |
| Substitution.OverLimit | crates/adocweave-core/src/substitution.rs:192-195 | The output is over the size limit exactly when the text has an unclosed brace and the expansion before it plus the tail exceeds the limit |
| Substitution.UnclosedIsOverLimit | crates/adocweave-core/src/substitution.rs:192-195 | A brace and four letters come out as five bytes under a limit of two |
| Templates.ExpandsToValue | crates/adocweave-core/src/substitution.rs:178-218 | A text expands exactly when every reference in it has a text, none is too deep and the result is not too long; then each reference is replaced by its text and each escaped brace by a brace, all else is copied, and the depth is the greatest of one more than the depths resolved; otherwise the error is that of the first part that does not fit |
| Templates.HasParts | crates/adocweave-core/src/substitution.rs:178-218 | Every text is written in such parts: plain text, escaped braces, empty braces, references, and a tail that an unclosed brace opens |
| Templates.ScanFindsParts | crates/adocweave-core/src/attributes.rs:624-653 | The scan lists exactly the references among the parts, at their places |
| Templates.TextExpands | crates/adocweave-core/src/substitution.rs:178-218 | So every text expands to the value of its parts and the tail, and its references are those the scan lists |
| Substitution.ScanReferences | crates/adocweave-core/src/attributes.rs:624-653 | The scan lists the references of the recursive definition, with their ranges |
| Substitution.ScanListsAsked | crates/adocweave-core/src/attributes.rs:624-653 | The scan lists every name that the expander asks for, and exactly those when the expansion succeeds |
| Attributes.SeparateEnds | crates/adocweave-core/src/attributes.rs:436-439 | Occurrences that do not overlap become visible in the order in which they are applied |
| Attributes.ApplyKeeps | crates/adocweave-core/src/attributes.rs:342-394 | Every event keeps values and depths on the same names, failures apart from both, depths within the limit, and locked names unchanged |
| Attributes.ReplayKeeps | crates/adocweave-core/src/attributes.rs:292-394 | The same holds after every run, and external values stay as they were given |
| Attributes.SequentialAttributeState.WithLockedValues | crates/adocweave-core/src/attributes.rs:292-340 | The loop folds the names of the external attributes, locks all of them, and starts with the last value given for each name |
| Attributes.StartOfIff | crates/adocweave-core/src/attributes.rs:292-340 | This is the state that folding the names first gives, as the environment does, exactly when no attribute whose last spelling has no value has one under an earlier spelling |
| Attributes.SpellingsCanDiffer | crates/adocweave-core/src/attributes.rs:296-303 | A name given with a value and, under a later spelling, without one starts with the value here and unset in the environment |
| Attributes.FoldNames | crates/adocweave-core/src/attributes.rs:440-446 | Folding the names keeps, for each folded name, the last entry |
| Attributes.ListExternal | crates/adocweave-core/src/attributes.rs:447-456 | Attributes whose names are folded give the same state in whatever order they are listed |
| Attributes.SequentialAttributeState.ApplyEvent | crates/adocweave-core/src/attributes.rs:342-394 | An event changes the four maps as its definition says and reports the value; what is known afterwards is AttributeEvents.UnsetTells, CounterTells and SetTells |
| Attributes.Build | crates/adocweave-core/src/attributes.rs:429-493 | External names are folded; line and counter occurrences are merged in reading order, replayed once and recorded in a history for each name |
| Attributes.BuiltIs | crates/adocweave-core/src/attributes.rs:429-493 | The history of a name lists, in order, exactly the events that touch the name, with the values that replay reports |
| Attributes.PartitionPoint | crates/adocweave-core/src/attributes.rs:519-539 | The binary search counts the bindings that are visible at a position |
| Attributes.ResolveAtEvent | crates/adocweave-core/src/attributes.rs:519-539 | The lookup by binary search returns what the definition over the history returns |
| Attributes.ResolveIsReplay | crates/adocweave-core/src/attributes.rs:519-539 | The answer at a position is the state of the name after replaying exactly the events visible before it: value, unset, failure, never touched, or locked; and it names the last event that touched it |
| Attributes.BuildAnswers | crates/adocweave-core/src/attributes.rs:429-539 | For lines and counters that do not overlap, in whatever order they are given, the environment that is built answers every lookup as replaying exactly the events that end before the position does; nothing is assumed of the merged order |
| AttributeEvents.UntouchedIff | crates/adocweave-core/src/attributes.rs:342-394 | Of a name that is not external nothing is known exactly when no valid event has touched it |
| AttributeEvents.ReadIs | crates/adocweave-core/src/attributes.rs:667-712 | What a text reads of a name in an event is what is known before the event: the value with its depth, the failure, or undefined, cyclic when the name is the one being bound |
| AttributeEvents.UnsetTells | crates/adocweave-core/src/attributes.rs:363-384 | After a name is unset it has no value, and referring to it is undefined, or cyclic from its own definition |
| AttributeEvents.CounterTells | crates/adocweave-core/src/attributes.rs:364-375 | After a counter event the value is the one that follows the value known before, or the seed, at depth zero |
| AttributeEvents.SetTells | crates/adocweave-core/src/attributes.rs:353-394 | After a name is set its value is the text with every reference replaced by what was known before, at the depth of the deepest; when that does not fit it has failed with that reason |
| AttributeEvents.PlainTells | crates/adocweave-core/src/attributes.rs:353-394 | Text without a brace is the value as it stands, unless it is too long |
| AttributeEvents.LookupTells | crates/adocweave-core/src/attributes.rs:519-539 | In the environment that is built a lookup answers what the last visible event of the name left: no value after it was unset, the next value after a counter, the text after plain text |
| AttributeEvents.FinalTells | crates/adocweave-core/src/attributes.rs:429-493 | The final values are those known after all events |
| Attributes.CollectValues | crates/adocweave-core/src/attributes.rs:566-582 | Collecting the values of all histories gives the map of its definition |
| Attributes.EffectiveIsReplay | crates/adocweave-core/src/attributes.rs:566-582 | For each name, the value at an offset is the value after replaying the events that end by then |
| Attributes.ValuesAreReplay | crates/adocweave-core/src/attributes.rs:566-582 | The values at an offset are those of the replay up to it; past the last event they are the final values |
| Structure.NearestBelowIsNearest | crates/adocweave-core/src/structure.rs:136-264 | The parent of a section is the nearest heading before it with a smaller rank; all between rank at least as high |
| Structure.BuildArena | crates/adocweave-core/src/structure.rs:136-264 | The pass with the level stack gives every heading the parent of its definition, a part the latest title, a title none, and lists children in order |
| Structure.MaterializeSection | crates/adocweave-core/src/structure.rs:292-308 | The recursion over the arena builds the section tree of the definition |
| Structure.Build | crates/adocweave-core/src/structure.rs:113-269 | One pass over all headings builds the forest of the non-discrete ones |
| Structure.ForestIsPreorder | crates/adocweave-core/src/structure.rs:113-308 | The preorder of the section forest is exactly the sequence of non-discrete headings |
| Structure.ForestLevels | crates/adocweave-core/src/structure.rs:113-308 | From a section to its children the level never falls |
| Structure.ForestDeepens | crates/adocweave-core/src/structure.rs:113-308 | A section below another one is strictly deeper, but for parts, which share the level of the title |
| Presentation.NumberHeadings | crates/adocweave-core/src/presentation.rs:297-345 | The counter array, updated in place, yields the number of each heading |
| Presentation.CountersDiffer | crates/adocweave-core/src/presentation.rs:297-345 | The counter vectors of two numbered headings always differ |
| Presentation.NumberExtends | crates/adocweave-core/src/presentation.rs:315-321 | A displayed number is that of the nearest shallower heading before, and the place among the headings of its level since then |
| Presentation.NumbersDifferIff | crates/adocweave-core/src/presentation.rs:315-321 | The displayed numbers of a document are all different exactly when the headings under each heading, and those under none, are all at one level |
| Presentation.NumbersCanRepeat | crates/adocweave-core/src/presentation.rs:315-321 | A document that starts two levels down and then rises fails that condition and shows one number twice |
| Presentation.TocEntries | crates/adocweave-core/src/presentation.rs:403-443 | The list builder returns the table of contents of the definition |
| Presentation.TocLists | crates/adocweave-core/src/presentation.rs:403-443 | Flattened, the entries are the included headings down to the depth limit, in order: pruning a deep subtree and splicing the children of an excluded heading lose and reorder nothing |
| Presentation.TocOfDocument | crates/adocweave-core/src/presentation.rs:257-443 | From flat headings to flat entries: the table of contents of a document lists exactly its non-discrete, included headings within the limit, in order |
| Edits.NewFix | crates/adocweave-core/src/diagnostic.rs:96-161 | Edits are sorted and accepted or rejected as the definition says |
| Edits.FixIff | crates/adocweave-core/src/diagnostic.rs:96-161 | A fix is accepted exactly when any two of its edits are apart: comparing neighbours after sorting is enough |
| Edits.AscendingIsFix | crates/adocweave-core/src/diagnostic.rs:96-161 | Edits from left to right are accepted and keep their order |
| Edits.ApplyEdits | crates/adocweave-core/src/formatter.rs:233-249 | Replacing ranges in the buffer from last to first gives the text rebuilt from left to right |
| Edits.ClearSurvives | crates/adocweave-core/src/formatter.rs:233-249 | A range that no edit touches is in the output unchanged, moved by the net length of the edits before it |
| Formatter.FormatLine | crates/adocweave-core/src/formatter.rs:118-187 | One turn of the line loop makes the edits of its line and the blank count for the next |
| Formatter.FindAttribute | crates/adocweave-core/src/formatter.rs:212-231 | The loop tells whether the next line that is no comment starts an attribute |
| Formatter.CollectEdits | crates/adocweave-core/src/formatter.rs:97-210 | The line loop collects the edits of all lines and of the final newline |
| Formatter.EditsBuildLines | crates/adocweave-core/src/formatter.rs:117-209 | The edits go from left to right, and applying them gives the text rebuilt line by line |
| Formatter.Format | crates/adocweave-core/src/formatter.rs:97-249 | The edits of a text always pass as a fix, and applying them in reverse gives the text formatted line by line; what becomes of each line is LineForms.LineComesOut and GoesIff |
| Formatter.ProtectedSurvives | crates/adocweave-core/src/formatter.rs:117-249 | The bytes of every protected range are in the output, moved by the net length of the edits before it |
| LineForms.KeptIff | crates/adocweave-core/src/block_grammar.rs:355-367 | What is kept of a line is the line without the blanks it ends in, unless that would make it a delimiter, an attribute list or an anchor: then all of it |
| LineForms.KeptForms | crates/adocweave-core/src/block_grammar.rs:355-367 | The kept line is the same delimiter, attribute list or anchor, or none, as the line was |
| LineForms.GoesIff | crates/adocweave-core/src/formatter.rs:144-153 | A line goes exactly when it is blank and not protected, the limit of blank unprotected lines stands directly before it, and no attribute follows |
| LineForms.LineComesOut | crates/adocweave-core/src/formatter.rs:117-209 | Every other unprotected line is a line of the output: the kept text with the configured newline, or without one at the end when none is wanted; only a carriage return at its end goes with a line feed behind it |
| LineForms.FormComesOut | crates/adocweave-core/src/formatter.rs:155-170 | That line has the form of the line it came from, exactly unless a carriage return joins the line feed and what is left has a form |
| LineClasses.ClassChangesIff | crates/adocweave-core/src/formatter.rs:155-170 | Trimming changes the class of a line exactly when a thematic or page break is left, or a list item without text that is none any more |
| LineClasses.BreakAppears | crates/adocweave-core/src/formatter.rs:155-170 | Three quotes and a blank are paragraph text, and a thematic break when trimmed |
| Protection.CollectProtectedRanges | crates/adocweave-core/src/syntax.rs:350-363 | The recursion collects the ranges of the outermost protecting nodes |
| Protection.ProtectingIsCovered | crates/adocweave-core/src/syntax.rs:350-363 | Each protecting node, however deep, lies in a collected range |
| Protection.CollectedProtects | crates/adocweave-core/src/syntax.rs:350-363 | Each collected range is the range of a protecting node |
| Protection.ProtectedNodeSurvives | crates/adocweave-core/src/formatter.rs:97-249 | The source of every protecting node of a tree is in the formatted text, byte for byte, moved by the net length of the edits before it |
| Protection.FormatDocument | crates/adocweave-core/src/formatter.rs:80-210 | From lines to formatted text: formatting succeeds exactly when the document has a tree, and leaves the source of every heading, list, delimited block, metadata line, span and macro as it is |
| JoinedLines.JoinedTable | crates/adocweave-core/src/source.rs:438-509 | Lexing joined clean lines gives back the lines, unless a carriage return ends a line in front of a line feed |
| FormatterFixpoint.TextIsJoined | crates/adocweave-core/src/formatter.rs:117-209 | A formatted text is its kept lines joined by the configured newline, with at most one line left open |
| FormatterFixpoint.OutputRuns | crates/adocweave-core/src/formatter.rs:145-203 | The output has no run of blank lines over the limit, unless an unterminated blank line went and the final newline came after it |
| FormatterFixpoint.SecondPass | crates/adocweave-core/src/formatter.rs:117-209 | Formatting joined clean lines edits nothing exactly when no run of blank lines is too long and no ending is to go |
| FormatterFixpoint.UnchangedIff | crates/adocweave-core/src/formatter.rs:117-209 | A text is its own formatted text exactly when no line is edited |
| FormatterFixpoint.NothingLeftOver | crates/adocweave-core/src/formatter.rs:117-209 | When the first pass leaves nothing over, a second pass without protected ranges makes no edit at all |
| FormatterFixpoint.AgainIff | crates/adocweave-core/src/formatter.rs:97-249 | When neither pass is given protected ranges, formatting twice is formatting once exactly when the first pass leaves nothing over |
| SettledTexts.UnsettledIff | crates/adocweave-core/src/formatter.rs:117-203 | What the first pass leaves over is read off the lines of the text: a blank last line without an ending behind as many blank lines as are allowed, when a final newline is added; a blank last line behind a line that stays, when none is wanted; a line that ends, trimmed, in a carriage return, when lines end in line feeds |
| SettledTexts.FormattedAgain | crates/adocweave-core/src/formatter.rs:97-249 | When neither pass is given protected ranges, formatting twice is formatting once exactly when none of these holds of the text |
| SettledTexts.SettledStays | crates/adocweave-core/src/formatter.rs:97-249 | When none of these holds, formatting the formatted text changes nothing, whatever ranges the second pass protects and wherever it finds attributes |
| SettledTexts.SecondPassIff | crates/adocweave-core/src/formatter.rs:117-209 | Whatever the second pass protects, it changes nothing exactly when it edits no line |
| SettledDocuments.SettledDocumentStays | crates/adocweave-core/src/formatter.rs:80-210 | A document whose tree protects nothing, and none of whose lines is unsettled, is formatted once and for all: formatting the document that the output parses to, with what its own tree protects, gives the output back |
| SettledDocuments.UnprotectedAgainIff | crates/adocweave-core/src/formatter.rs:80-210 | When neither tree protects anything, formatting the output's document changes nothing exactly when the document is settled |
| OpenedListing.ListingIsOpened | crates/adocweave-core/src/formatter.rs:117-127 | The condition is not needed where the output is protected: a paragraph of hyphens, a return and a blank is unsettled, but its output is an open listing, which formatting leaves alone |
| OpenedListing.BothHaveTrees | crates/adocweave-core/src/formatter.rs:80-98 | Both documents of that example have a tree, whatever the limits and the grammars that are parameters |
| SettledTexts.BlankTailIsUnsettled | crates/adocweave-core/src/formatter.rs:145-203 | An unterminated blank line over the limit makes the second pass change the text |
| SettledTexts.LoneReturnIsUnsettled | crates/adocweave-core/src/formatter.rs:155-188 | A trimmed line that ends in a carriage return makes the second pass change the text |
| SettledTexts.BareEndingIsUnsettled | crates/adocweave-core/src/formatter.rs:171-186 | Without a final newline the second pass takes one more line ending off |
| Positions.Utf16CharacterToByte | crates/adocweave-core/src/source.rs:76-106 | The loop over characters finds the byte after the requested UTF-16 units, or says that they end inside a character or beyond the text |
| Positions.SearchIs | crates/adocweave-core/src/source.rs:76-106 | It ends at a byte exactly when that is the character boundary with the requested number of units before it; it goes beyond exactly when the text has fewer |
| Positions.PartitionPoint | crates/adocweave-core/src/source.rs:641-644 | The binary search finds the first line that does not end before the offset |
| Positions.OffsetToPosition | crates/adocweave-core/src/source.rs:622-663 | The conversion returns the position or error of its definition |
| Positions.PositionToOffset | crates/adocweave-core/src/source.rs:665-698 | The conversion returns the offset or error of its definition |
| Positions.RoundTrip | crates/adocweave-core/src/source.rs:622-698 | For both encodings the conversions undo each other: an offset has a position exactly when the position has that offset |
| Positions.OffsetsAccepted | crates/adocweave-core/src/source.rs:622-663 | Each error of an offset has its exact cause: beyond the source, inside a character, between a carriage return and its line feed; every other offset has a position |
| Positions.PositionsAccepted | crates/adocweave-core/src/source.rs:665-698 | Each error of a position has its exact cause: no such line, more units than the line has, or no offset with that many units before it |
| Positions.LineCountFits | crates/adocweave-core/src/source.rs:438-509 | A text has at most one line more than bytes, and that many exactly when it holds only line feeds |
| Positions.LineCountOverflows | crates/adocweave-core/src/source.rs:601-603 | The line count of a source that is not too long exceeds the greatest 32-bit number exactly when the source has the greatest length and holds only line feeds |
| Positions.LineFeedsOverflow | crates/adocweave-core/src/source.rs:601-603 | That source is well formed, and has one line more than the number holds |
| Identifiers.Allocator.UniqueHeadingId | crates/adocweave-core/src/document.rs:393-414 | The loop ends, takes the first unused candidate after the counter, marks it used and moves only the counter of its base |
| Identifiers.FirstUnused | crates/adocweave-core/src/document.rs:393-414 | The choice is unused and every candidate between the counter and it is used; the measure is the number of used identifiers ahead |
| Identifiers.CandidatesDiffer | crates/adocweave-core/src/document.rs:405-409 | The candidates of a base are pairwise distinct |
| Identifiers.CounterIsBounded | crates/adocweave-core/src/document.rs:393-414 | A counter moves by at most one more than the number of used identifiers |
| Identifiers.BuildIdentifiers | crates/adocweave-core/src/document.rs:212-391 | The walk over blocks returns the headings, targets and index of the definition |
| Identifiers.CountersAreShortcuts | crates/adocweave-core/src/document.rs:393-414 | Counting on from the last use of a base finds what a search from the first candidate finds |
| Identifiers.MadeAreUnique | crates/adocweave-core/src/document.rs:239-310 | Over a whole document, identifiers made from headings are pairwise distinct and distinct from every valid block anchor and inline anchor |
| Identifiers.HeadingIsFound | crates/adocweave-core/src/document.rs:239-383 | Looking up an identifier made from a heading leads to the target of that heading |
| Sorting.SortHolds | crates/adocweave-core/src/cancellation.rs:47-57 | Sorting keeps each element as often as it occurs |
| Sorting.SortOrdered | crates/adocweave-core/src/cancellation.rs:47-57 | Sorting orders by key |
| Catalog.Builder.PushFootnote | crates/adocweave-core/src/catalog.rs:394-413 | A definition adds one footnote with itself as the only occurrence |
| Catalog.Builder.Visit | crates/adocweave-core/src/catalog.rs:139-171 | A macro changes footnotes, names, pending references and problems as the definition of a step says |
| Catalog.Builder.SettlePending | crates/adocweave-core/src/catalog.rs:291-307 | The second phase adds each pending reference to its footnote or reports it |
| Catalog.Builder.Finish | crates/adocweave-core/src/catalog.rs:308-336 | Occurrences and footnotes are sorted, and numbered from one |
| Catalog.Build | crates/adocweave-core/src/catalog.rs:116-392 | The two phases, the sorting and the numbering return the catalog of the definition |
| Catalog.EachMacroOnce | crates/adocweave-core/src/catalog.rs:129-336 | Every footnote macro but an empty anonymous one is exactly one occurrence of one footnote or one missing definition, and nothing else is |
| CatalogGroups.FootnotesAreGroups | crates/adocweave-core/src/catalog.rs:129-336 | There is one footnote for each definition, with its range and its text unescaped, and it holds every macro of its name, forward references included, in ascending order |
| CatalogGroups.GroupInOrder | crates/adocweave-core/src/catalog.rs:308-316 | When no two uses of a name start together, the occurrences are the uses in document order |
| CatalogGroups.NumbersFollowText | crates/adocweave-core/src/catalog.rs:317-336 | Numbers are one to n in the order in which first occurrences start |
| CatalogGroups.MissingIff | crates/adocweave-core/src/catalog.rs:291-307 | A missing definition is reported exactly for uses of names that are never defined |
| CatalogGroups.DuplicateIff | crates/adocweave-core/src/catalog.rs:145-155 | A duplicate definition is reported exactly for definitions after the first of a name, together with the first |

## Left out

- SettledTexts.FormattedAgain: the first pass takes a text without protected ranges and attribute entries. What the second pass protects is arbitrary in SettledTexts.SettledStays and comes from the output's tree in SettledDocuments.SettledDocumentStays.
- Attributes.BuildAnswers: attribute lines and counter references must not overlap and not be empty.
- Attributes.ResolveIsReplay: occurrences must become visible in the order in which they are applied; Attributes.BuildAnswers shows this for occurrences that do not overlap.
- Cancellation checkpoints, node, byte and entry budgets, and the depth budget of inline parsing beyond the depth limit itself.
- Tables and AsciiDoc cells: a table is a verbatim block with its delimiters. Fragments with a base other than zero are not modelled.
- The preprocessor and its source map.
- The content of block syntax: heading text, attribute lists, anchors, author and revision lines, and problems; blocks keep kind, range and children.
- The grammars of directives, formulas and author lines, and the table of Unicode word characters, which are parameters.
- The attribute lists inside macros, explicit numbers and callout lists of ordered items, and the semantic tree that is built beside the syntax tree.
- The arithmetic of counters and the folding of attribute values over several lines, which are parameters of the attribute events.
- The order and the contents of problems that lowering reports, and kinds and labels of reference targets; identifier bases are given.
- Bibliography and index entries of the catalog, and its size limits.
- Section counters and candidate counters are unbounded; overflow of 32 bits is not modelled.
- Rejection of parts and appendices by document type, man page sections, and the layout nodes of the presentation.
- Block and inline parsing of a source whose length is the reserved offset value, the greatest 32-bit number; its lines and positions are modelled.
- HTML, terminal, WebAssembly, language server and command line layers, lint rules, citations, resources, URLs and JSON.
