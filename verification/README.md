# Verified model of quench's constrained-decoding core

quench constrains what a language model may emit: by a GBNF grammar, by a regular
expression, or by a JSON schema built from tool descriptions. This project models the
host-side code that decides which text may be generated, in Dafny, and proves what that
code means. `dafny verify dfyconfig.toml` checks everything.

The model follows the program's parts:

- **Grammar simulator** (`Grammar`, `Pushdown`, `FirstPositions`, `StackGrowth`,
  `CapReach`, `Interning`, `IdLists`, `Worklist`, `MemoSteps`, `GbnfGrammar`, `CutOrder`,
  `ProbeOrder`).
  Leftmost derivation gives every frame list a language. One simulator step is the left
  quotient of that language. The class keeps hash-consed stacks, visit epochs and memoised successors, and is proved to
  compute the unmemoised step; what it answers is a function of its rules, limits and memo.
- **Byte matcher** (`CharSets`, `Utf8`, `ByteRuns`, `TokenCuts`, `Prefilter`, `GbnfMatcher`). UTF-8
  assembly across token boundaries, the mask prefilter, and the end-to-end theorem
  `GbnfMatcher.Generate` from grammar text to accepted byte strings.
- **Grammar parser** (`Reading`, `GbnfSyntax`, `GbnfReading`, `GbnfSpelling`, `GbnfSpelled`,
  `GbnfUnspelled`, `GbnfText`, `GbnfPrinting`, `Desugaring`, `Representation`, `LeftRecursion`,
  `GbnfParser`). A reference reader maps text to a syntax tree with a direct meaning; the parser
  class fills a rule table with that meaning. `GbnfSpelling` says without a reader how grammars are
  spelled, byte for byte, and what each spelling denotes; a text is read as a grammar exactly if it
  spells that grammar. Whether a grammar is refused is stated on what is written, not on the table.
- **Patterns** (`RegexSyntax`, `RegexReading`, `RegexSpelling`, `RegexSpelled`, `RegexUnspelled`,
  `RegexText`, `RegexReparse`, `RegexSteps`, `RegexPrinting`, `RegexAcceptance`, `Nfa`, `Fragments`,
  `Building`, `NfaRuns`, `RegexNfa`). Thompson construction and set simulation decide exactly the
  language of the pattern as read, which is what its spelling matches, piece by piece and byte by
  byte; every expression can be written down and is read back.
- **Tool schemas** (`SchemaRefs`, `ToolDefs`, `ToolRefs`). Reference resolution, and what
  moving all definitions into one table does to it.
- **Supporting machines** (`PreambleGate`, `GateRuns`, `GateStreams`, `DecodeLoop`, `Arena`,
  `ImmaScratch`, `ImmaCharge`).

`Languages` holds the algebra of languages they share. The depth and size limits of the
simulator (`kMaxStackDepth`, `kMaxStacks`) are parameters throughout.

What was found to differ from the comments or documentation of the program:

- `gbnf_grammar.h:178-180` says interning changes no observable behaviour. What a cut set keeps
  is independent of intern order exactly if the set fits the limit, or the limit is one and
  the finished parse is in the set (`CutOrder.OrderFreeIff`). Otherwise answers depend on what
  was asked before: in `root ::= [ca] "1" | [cb] "2" | ...` with one alternative more than the
  limit, a fresh matcher that has read `c` refuses one of the continuations, and accepts it if
  it was asked about that alternative's own codepoint first. There is such a grammar for every
  limit up to half a million, the 4096 of the program included (`ProbeOrder.EveryLimitShows`).
- A plain `[..]*` or `"c"*` uses one frame per repetition, so the depth limit cuts it off
  after `maxDepth - 2` repetitions (`CapReach.StarReach`).
- `json_schema.h:31-33` says unsupported patterns are refused. Only unbalanced groups, malformed
  classes and a trailing backslash are (`RegexAcceptance.CompilesIff`); lazy quantifiers, lookaround
  and `\b` compile to something else. `{n,m}` with `m < n` means `{n}`, so, against
  `regex_constrain.cu:133-137`, `a{2,1}` matches `aa` (`RegexAcceptance.ReversedBoundsMatch`).
- `json_schema.cpp:607-608` says a self reference is rewritten to the tool name. The guard
  in the next line skips that for schemas without definitions, whose `#` then denotes the
  tool-call root (`ToolRefs.SelfRefEscapes`, `ToolRefs.RecursiveArgumentEscapes`).
- `json_schema.cpp:451-452` describes the limit of 64 hops as a guard against cycles. It also
  refuses longer chains that end; below 64 definitions there are none
  (`SchemaRefs.LimitIsHarmless`), and from 64 on there is one (`SchemaRefs.LimitIsTight`).
- `workspace_sizes.cpp:210-212` says the two capacity guards scale together. They do exactly
  when the expert route's scale groups cover the dense route's; a multiple-of-32 expert K is
  enough (`ImmaScratch.CoversBothIff`, `ImmaScratch.GroupsCanFallShort`).
- Behind a bar or `::=` the grammar parser skips line ends (`gbnf_parser.cpp:357-407`), so a
  definition whose last alternative is empty swallows the next one and the text is refused
  (`GbnfPrinting.EmptyAlternativeRunsOn`). A printed grammar reads back exactly if no such
  definition has another behind it (`GbnfPrinting.GrammarReadsBack`).
- The token that opens a tool call clears the window (`preamble_gate.h:174-182`), so a closer
  that begins in that token is missed (`GateRuns.CloserInOpenerIsMissed`).
- `intersects` overstates for inverted ranges and crossed bounds
  (`CharSets.OverlapsCanOverstate`); the parser makes neither.
- Rounding up in the arena wraps near the end of the 64-bit range, and the next span then
  overlaps the first (`Arena.TakeStacks`); at most half of that range rules it out.
- The surrogate range is not excluded by the byte matcher, unlike section 3 of RFC 3629.

## Model

| member | source | states |
|---|---|---|
| `CharSets.Matches` | src/compute/gbnf_grammar.cpp:22-31 | membership in a negated or plain union of ranges |
| `CharSets.HasHole` | src/compute/gbnf_grammar.cpp:33-55 | the walk over sorted ranges finds an uncovered codepoint of [lo, hi] iff there is one, inverted ranges or not, without leaving 32 bits; for crossed bounds it answers iff `lo` is uncovered and some range reaches it |
| `CharSets.Intersects` | src/compute/gbnf_grammar.cpp:33-55 | true iff some codepoint of [lo, hi] is a member, for overlapping and unsorted ranges, negated or not, if the bounds are in order and the set is negated or has no inverted range; the answer for all others |
| `CharSets.OverlapsIsMeets` | src/compute/gbnf_grammar.cpp:33-55 | overlapping ranges and uncovered codepoints are what decides membership of some codepoint of [lo, hi] under that condition |
| `CharSets.OverlapsCanOverstate` | src/compute/gbnf_grammar.cpp:51-54 | without negation a member is never missed; an inverted range and crossed bounds that are answered without one |
| `Grammar.FormLangCat` | src/compute/gbnf_grammar.h:59-75 | concatenated sentential forms have concatenated languages |
| `Grammar.RuleLangIsUnion` | src/compute/gbnf_grammar.h:72-75 | a rule derives what one of its alternatives derives, and no more |
| `Grammar.AppendingKeepsLang` | src/compute/gbnf_parser.cpp:77-82 | appending synthetic rules changes no existing language |
| `Pushdown.MovesOfIff` | src/compute/gbnf_grammar.cpp:204-246 | the finite set of silent moves of a frame list is exactly the move relation under the depth limit |
| `Pushdown.MoveSound` | src/compute/gbnf_grammar.cpp:222-244 | descending into a rule or returning from it never adds a word |
| `Pushdown.SettleComplete` | src/compute/gbnf_grammar.cpp:204-246 | whatever an unblocked frame list derives, one of the lists it settles in derives |
| `Pushdown.StepSound` | src/compute/gbnf_grammar.cpp:260-311 | whatever the set derives after a step, the set before derives behind the consumed codepoint |
| `Pushdown.StepIsQuotient` | src/compute/gbnf_grammar.cpp:204-311 | the language after a step is contained in the left quotient, and equal to it when the depth limit blocks nothing |
| `Pushdown.StartIsRoot` | src/compute/gbnf_grammar.cpp:248-258 | the start set has the language of the root, within the limit |
| `Pushdown.AcceptsIff` | src/compute/gbnf_grammar.cpp:308-311 | a settled set contains the empty list iff it derives the empty word |
| `Pushdown.RunIsQuotient` | src/compute/gbnf_grammar.cpp:288-311 | over whole words: accepted implies derived, derived implies accepted where no step is blocked |
| `Pushdown.SimulatorDecidesRoot` | src/compute/gbnf_grammar.cpp:248-311 | from the start set: every accepted word is derivable from the root, and every derivable one is accepted within the limit |
| `FirstPositions.FormVanishes` | src/compute/gbnf_grammar.cpp:68-84 | a form of nullable references derives the empty word |
| `FirstPositions.FixpointComplete` | src/compute/gbnf_grammar.cpp:61-85 | at the fixed point every form that derives the empty word is made of flagged references |
| `FirstPositions.ComputeNullable` | src/compute/gbnf_grammar.cpp:61-85 | flags exactly the rules that derive the empty word |
| `FirstPositions.BuildAdjacency` | src/compute/gbnf_grammar.cpp:91-102 | lists exactly the edges of the first-position graph |
| `FirstPositions.Explore` | src/compute/gbnf_grammar.cpp:103-130 | the three-colour search finishes a rule with a rank above all it leads to, or has found a cycle |
| `FirstPositions.CheckLeftRecursion` | src/compute/gbnf_grammar.cpp:87-132 | accepts iff the first-position graph has no cycle, and then it is ranked |
| `FirstPositions.RankedIsAcyclic` | src/compute/gbnf_grammar.cpp:87-132 | a ranked graph has no cycle |
| `LeftRecursion.EmptyLoopIsRefused` | tests/test_gbnf_grammar.cpp:62-63 | a grammar that repeats without bound something that can be empty is refused, however deep in it |
| `LeftRecursion.CallCycleIsRefused` | src/compute/gbnf_grammar.cpp:87-104 | a grammar in which a rule can begin with itself, through others and over what can be empty, is refused |
| `LeftRecursion.LeftRecursiveIff` | src/compute/gbnf_grammar.cpp:87-132 | the table of a grammar is left recursive iff the grammar as written has one of these two |
| `StackGrowth.GrowthBound` | src/compute/gbnf_grammar.cpp:204-246 | without left recursion an expansion adds at most one frame per rule, so a limit that far away blocks nothing |
| `StackGrowth.StepWithin` | src/compute/gbnf_grammar.cpp:260-300 | a step deepens the set by at most the number of rules |
| `StackGrowth.RunWithin` | src/compute/gbnf_grammar.cpp:260-300 | a run of n codepoints is unblocked when the limit leaves room for n times the number of rules |
| `StackGrowth.ShortWordsDecided` | src/compute/gbnf_grammar.cpp:204-311 | for words with (length + 1) * rules within the limit the simulator decides derivability exactly |
| `CapReach.StarReach` | src/compute/gbnf_parser.cpp:223-232 | for every table the parser can make of a grammar that reads `root ::= [..]*` or `root ::= "c"*`, and every word: it is in the language iff all its codepoints are members, and accepted iff moreover its length plus two does not exceed the depth limit |
| `Interning.DepthIsRecorded` | src/compute/gbnf_grammar.cpp:174-185 | the recorded depth is the length of the frame list |
| `Interning.StackOfGrows` | src/compute/gbnf_grammar.cpp:174-185 | an id keeps its frame list while the arena grows |
| `Interning.StackOfInjective` | src/compute/gbnf_grammar.cpp:174-185 | equal frame lists have equal ids |
| `Interning.PushNode` | src/compute/gbnf_grammar.cpp:174-185 | interning a new frame keeps ids and frame lists in bijection |
| `IdLists.Dedup` | src/compute/gbnf_grammar.cpp:11-14 | a strictly increasing list with the same ids |
| `Interning.StacksOfSize` | src/compute/gbnf_grammar.cpp:11-14 | a sorted id list is as long as the set of frame lists it stands for |
| `Interning.CutIsCapped` | src/compute/gbnf_grammar.cpp:281-299 | cutting a sorted list at the limit keeps a subset that is all of the set or as large as the limit |
| `IdLists.CutIsLowest` | src/compute/gbnf_grammar.cpp:297-299 | sorting and cutting keeps the lowest ids, and drops one only when the limit is reached |
| `CutOrder.OrderFreeIff` | src/compute/gbnf_grammar.cpp:278-299 | over settled stacks, every two well-formed arenas, whether or not a run builds them, keep the same stacks of a set iff the set fits the limit, or the limit is one and the finished parse is in it |
| `ProbeOrder.Answers` | src/compute/gbnf_grammar.cpp:248-300 | for a choice of classes that share a codepoint, compiled from its text: after a question about one way's own codepoint or none, and that shared codepoint, exactly as many ways are accepted as the limit allows, and the one asked about is among them |
| `ProbeOrder.QuestionDecides` | src/compute/gbnf_grammar.h:178-180 | with a way more than the limit, some continuation is refused by a fresh matcher and accepted by one that was asked about it |
| `ProbeOrder.EveryLimitShows` | src/compute/gbnf_grammar.h:133-137 | such a grammar, with the refused text in its language, for every limit up to half a million |
| `Worklist.ProgressVisit` | src/compute/gbnf_grammar.cpp:209-244 | handling one stack of the work list leaves fewer frame lists to handle |
| `Worklist.ExpandIsExact` | src/compute/gbnf_grammar.cpp:204-246 | when the work list is empty, the output is exactly what the source settles in |
| `MemoSteps.EndIs` | src/compute/gbnf_grammar.cpp:204-246 | where the expansion loop ends depends on the memo, the stack and the results so far alone |
| `GbnfGrammar.GbnfGrammar.constructor` | src/compute/gbnf_grammar.h:173-187 | an uncompiled grammar with empty memo |
| `GbnfGrammar.GbnfGrammar.Compile` | src/compute/gbnf_grammar.cpp:134-163 | succeeds iff the text reads, every called rule and root are defined, no rule can begin with itself and nothing that can be empty is repeated without bound; the root then has the language of the text, and the arena is empty |
| `GbnfGrammar.GbnfGrammar.Intern` | src/compute/gbnf_grammar.cpp:174-185 | the id returned stands for the frame pushed on the parent's list; everything interned before stays, and nothing else is new; memo and id are a function of the memo before |
| `GbnfGrammar.GbnfGrammar.BeginVisit` | src/compute/gbnf_grammar.cpp:187-192 | no stack is marked in the new epoch, also when the 32-bit counter wraps |
| `GbnfGrammar.GbnfGrammar.Descend` | src/compute/gbnf_grammar.cpp:239-244 | queues exactly the descents into the referenced rule |
| `GbnfGrammar.GbnfGrammar.Return` | src/compute/gbnf_grammar.cpp:222-233 | queues exactly the return to the caller |
| `GbnfGrammar.GbnfGrammar.Visit` | src/compute/gbnf_grammar.cpp:209-244 | one turn of the work loop keeps its invariant and makes progress |
| `GbnfGrammar.GbnfGrammar.Expand` | src/compute/gbnf_grammar.cpp:204-246 | adds exactly the settled lists reachable from the stack, interns only lists reachable from it, and terminates |
| `GbnfGrammar.GbnfGrammar.StartSet` | src/compute/gbnf_grammar.cpp:248-258 | the ids of exactly the start set of the root; nothing before compilation |
| `GbnfGrammar.GbnfGrammar.FreshSuccessors` | src/compute/gbnf_grammar.cpp:268-283 | the expansion after the waiting character, cut at the size limit |
| `GbnfGrammar.GbnfGrammar.Successors` | src/compute/gbnf_grammar.cpp:260-286 | a memoised answer is as good as a fresh expansion |
| `GbnfGrammar.GbnfGrammar.StepInto` | src/compute/gbnf_grammar.cpp:288-300 | the ids of the unmemoised step; under the size limit the lowest ids of what the successors yield, which is the whole step while no single successor list is cut; only lists behind a consumed codepoint are interned; ids and memo are a function of the memo before, the stacks and the codepoint |
| `GbnfGrammar.GbnfGrammar.CanConsumeRange` | src/compute/gbnf_grammar.cpp:313-325 | true iff some stack waits for a set that passes the intersection test; for bounds in order, iff one waits for a codepoint of the range |
| `GbnfGrammar.GbnfGrammar.LeadBytes` | src/compute/gbnf_grammar.cpp:457-490 | flags exactly the bytes that start a codepoint some stack waits for |
| `Utf8.DecodeSound` | src/compute/gbnf_grammar.cpp:371-403 | what was pending plus the text is the encoding of the decoded codepoints plus what is pending |
| `Utf8.DecodeConcat` | src/compute/gbnf_grammar.cpp:371-413 | decoding in two pieces is decoding at once, also inside a character |
| `Utf8.DecodeEncode` | src/compute/gbnf_grammar.cpp:331-346 | every codepoint up to 0x10FFFF decodes back from its encoding |
| `Utf8.DecodeUnique` | src/compute/gbnf_grammar.cpp:371-403 | a text decodes completely to w iff it is the encoding of w |
| `Utf8.DeliverableIff` | src/compute/gbnf_grammar.cpp:371-413 | some text delivers exactly the codepoint c iff c is at most 0x10FFFF |
| `Utf8.TwoBytes` | src/compute/gbnf_grammar.cpp:331-403 | two bytes with a two-byte lead deliver their eleven value bits, or are refused when overlong |
| `Utf8.ThreeBytes` | src/compute/gbnf_grammar.cpp:331-403 | three bytes their sixteen value bits, surrogates included, or are refused when overlong |
| `Utf8.FourBytes` | src/compute/gbnf_grammar.cpp:331-403 | four bytes their 21 value bits, or are refused when overlong or above 0x10FFFF |
| `Utf8.Corners` | src/compute/gbnf_grammar.cpp:331-413 | the encodings at both ends of every length; F4 90 80 80, C1 BF, E0 9F BF and F0 8F BF BF are refused |
| `ByteRuns.LoopIsDecodeThenRun` | src/compute/gbnf_grammar.cpp:371-415 | the byte loop is decoding followed by the codepoint simulator |
| `ByteRuns.EndWasOk` | src/compute/gbnf_grammar.cpp:404-413 | a text that survives would have survived the end-of-text check at every earlier point |
| `ByteRuns.UpdateConcat` | src/compute/gbnf_grammar.cpp:371-431 | without a size limit: updating with a and then b is updating with a + b, whatever the split |
| `ByteRuns.UpdateAllIsUpdate` | src/compute/gbnf_grammar.cpp:423-431 | without a size limit: any chunking of a text reaches the same state |
| `TokenCuts.TextConcat` | src/compute/gbnf_grammar.cpp:371-431 | for every step that is a function of the matcher's state and along the text keeps only stacks of the plain step: updating with a and then b is updating with a + b, whatever the split |
| `TokenCuts.ChunksAreOneText` | src/compute/gbnf_grammar.cpp:423-431 | over such steps any chunking of a text leads where the whole text leads |
| `TokenCuts.PlainIsUpdate` | src/compute/gbnf_grammar.cpp:371-431 | for the step that drops nothing these runs are the runs above |
| `ByteRuns.ChunksDecideRoot` | src/compute/gbnf_grammar.cpp:371-437 | done after any chunking implies that the bytes encode a word of the root, and conversely within the limit |
| `ByteRuns.UpdateMonotone` | src/compute/gbnf_grammar.h:133-137 | dropping stacks can only make the constraint stricter |
| `ByteRuns.NeverCutSplits` | src/compute/gbnf_grammar.cpp:288-300 | a text over which no set is truncated splits into two such texts |
| `Prefilter.AcceptedTextIsFlagged` | src/compute/gbnf_grammar.cpp:439-446 | every accepted non-empty text begins with a flagged byte, in any state |
| `Prefilter.LeadFlagIsExact` | src/compute/gbnf_grammar.cpp:457-490 | between characters a multi-byte lead is flagged iff that byte alone is accepted |
| `Prefilter.AlwaysSettles` | src/compute/gbnf_grammar.cpp:204-246 | in a grammar without left recursion every unblocked frame list settles somewhere |
| `Prefilter.FlagIsExact` | src/compute/gbnf_grammar.cpp:457-490 | for every byte, flagged iff accepted alone, while the depth limit is out of reach |
| `Prefilter.StartIsLive` | src/compute/gbnf_grammar.cpp:350-362 | the start set is not empty when the rules fit the depth limit |
| `GbnfMatcher.GbnfMatcher.Compile` | src/compute/gbnf_grammar.cpp:350-362 | the grammar compiles under the condition above; success leaves the matcher at the start of its root, and only more rules than frames can prevent it then |
| `GbnfMatcher.GbnfMatcher.Reset` | src/compute/gbnf_grammar.cpp:364-369 | back to the start set with nothing pending |
| `GbnfMatcher.GbnfMatcher.Run` | src/compute/gbnf_grammar.cpp:371-415 | agrees with the unmemoised byte run, exactly while no set is cut; with cuts, it is the run of the memoised step, within the plain one |
| `GbnfMatcher.GbnfMatcher.WouldAccept` | src/compute/gbnf_grammar.cpp:417-421 | answers for the text and leaves the live state alone |
| `GbnfMatcher.GbnfMatcher.UpdateText` | src/compute/gbnf_grammar.cpp:423-431 | commits the state after a legal text, keeps the old one after a refused text; the outcome is that of the memoised step |
| `GbnfMatcher.GbnfMatcher.IsDone` | src/compute/gbnf_grammar.cpp:433-437 | true iff a derivation is complete and no character is pending |
| `GbnfMatcher.GbnfMatcher.LeadBytes` | src/compute/gbnf_grammar.cpp:439-446 | flags the bytes that may come next, the continuation bytes inside a character |
| `GbnfMatcher.Generate` | src/compute/gbnf_grammar.cpp:350-437 | tokens that leave a compiled matcher done spell a word of the grammar text's language; conversely within the limits |
| `GbnfMatcher.FeedBothWays` | src/compute/gbnf_grammar.cpp:371-431 | of two equal matchers one gets a text whole and one token by token, cut wherever: both pass or neither does, and they stay equal, also when the size limit drops stacks |
| `Desugaring.RepetitionLang` | src/compute/gbnf_parser.cpp:265-310 | the items of `{lo,hi}` have exactly the union of the powers lo to hi of the element's language |
| `Representation.ElemKept` | src/compute/gbnf_parser.cpp:67-84 | what an item list represents stays represented while the table grows |
| `Representation.TableMeansSource` | src/compute/gbnf_parser.cpp:409-432 | a table that represents a source gives every rule the meaning of its definition |
| `GbnfPrinting.CharReads` | src/compute/gbnf_parser.cpp:98-169 | every 32-bit value comes back from its eight-digit escape |
| `GbnfPrinting.ClassReads` | src/compute/gbnf_parser.cpp:185-210 | every class of ordered ranges comes back from its text |
| `GbnfPrinting.BoundsRead` | src/compute/gbnf_parser.cpp:234-263 | bounds within the limit come back from their decimal text |
| `GbnfPrinting.ElemReads` | src/compute/gbnf_parser.cpp:265-355 | an element printed with its chain of repetitions is read as its core followed by exactly that chain |
| `GbnfPrinting.AltsRead` | src/compute/gbnf_parser.cpp:389-407 | alternatives come back, in a group, up to the end of the line, or up to the end of the text |
| `GbnfPrinting.AltsReadIff` | src/compute/gbnf_parser.cpp:389-407 | exactly if the last of them is not empty, is the only one, or ends a group or the text |
| `GbnfPrinting.GrammarReadsBack` | src/compute/gbnf_grammar.h:22-34 | a printed list of definitions with distinct names reads back as exactly that grammar if no definition with an empty last alternative has another behind it, and is refused otherwise |
| `GbnfPrinting.EmptyAlternativeRunsOn` | src/compute/gbnf_parser.cpp:357-376 | a one-rule text with an empty alternative that reads, and two such rules that do not |
| `GbnfSpelled.CharReads` | src/compute/gbnf_parser.cpp:98-169 | plain bytes, UTF-8 sequences, `\n \r \t \0`, other escapes and `\x \u \U` with their digits are read as the value they spell, and no further |
| `GbnfSpelled.GapReads` | src/compute/gbnf_parser.cpp:51-65 | spaces, tabs, carriage returns, comments and, where allowed, line ends are skipped, and nothing else |
| `GbnfSpelled.SpanReads` | src/compute/gbnf_parser.cpp:185-210 | a class member is the one character, or the range a dash makes of two |
| `GbnfSpelled.OpReads` | src/compute/gbnf_parser.cpp:234-310 | `*`, `+`, `?` and counted repetitions up to 1024 are read with their bounds |
| `GbnfSpelled.SpelledIsRead` | src/compute/gbnf_parser.cpp:378-432 | a text that spells a grammar is read as that grammar |
| `GbnfUnspelled.ReadIffSpelled` | src/compute/gbnf_parser.cpp:378-432 | a text is read as a grammar iff it spells that grammar, and read at all iff it spells one |
| `GbnfText.PlainIsUtf8` | src/compute/gbnf_parser.cpp:118-169 | every codepoint but the backslash may be written as its UTF-8 bytes |
| `GbnfText.StrMeans` | src/compute/gbnf_parser.cpp:171-183 | a literal denotes the values of its characters in order |
| `GbnfText.ClassMeans` | src/compute/gbnf_parser.cpp:185-210 | a class denotes one codepoint inside, or for `^` outside, all its spans |
| `GbnfText.DotMeans` | src/compute/gbnf_parser.cpp:314-355 | a dot denotes any one codepoint |
| `GbnfText.OperatorMeans` | src/compute/gbnf_parser.cpp:265-310 | `*` denotes any number of words of the element joined up, `+` at least one, `?` at most one, a count as many as it says |
| `GbnfText.CompilesIff` | src/compute/gbnf_parser.cpp:409-432 | a text compiles iff it spells a grammar with all rules and `root` defined, without a rule that can begin with itself and without an unbounded repetition of something that can be empty |
| `GbnfParser.Parser.SkipSpace` | src/compute/gbnf_parser.cpp:51-65 | moves past exactly the blank space and comments allowed here |
| `GbnfParser.Parser.Hex` | src/compute/gbnf_parser.cpp:98-116 | the value of exactly that many hexadecimal digits |
| `GbnfParser.Parser.NextChar` | src/compute/gbnf_parser.cpp:118-169 | one possibly escaped character, as the reference reader reads it |
| `GbnfParser.Parser.ParseString` | src/compute/gbnf_parser.cpp:171-183 | one item per character of the literal |
| `GbnfParser.Parser.ParseClass` | src/compute/gbnf_parser.cpp:185-210 | the ranges of the class and whether it is negated |
| `GbnfParser.Parser.MakeOpt` | src/compute/gbnf_parser.cpp:212-221 | a rule for one optional copy in front of at most m - 1 further ones |
| `GbnfParser.Parser.MakeStar` | src/compute/gbnf_parser.cpp:223-232 | the right-recursive rule for any number of copies |
| `GbnfParser.Parser.ParseRepeatBounds` | src/compute/gbnf_parser.cpp:234-263 | at least one bound, none above the limit, not inverted |
| `GbnfParser.Parser.RepeatItem` | src/compute/gbnf_parser.cpp:265-310 | items that are a repetition of the element in the sense of RepetitionLang, on a table that only grew |
| `GbnfParser.Parser.ApplyPostfix` | src/compute/gbnf_parser.cpp:265-310 | a chain of postfix operators turns items of an element into items of the repeated element |
| `GbnfParser.Parser.ParseSequence` | src/compute/gbnf_parser.cpp:314-355 | reads as the reference reader does and returns items that represent the sequence |
| `GbnfParser.Parser.ParseAlternates` | src/compute/gbnf_parser.cpp:389-407 | the same for alternatives |
| `GbnfParser.Parser.ParseRule` | src/compute/gbnf_parser.cpp:357-376 | one definition enters the table; a second definition of a name is refused |
| `GbnfParser.Parser.ParseGrammar` | src/compute/gbnf_parser.cpp:378-387 | the whole text, or failure where the reference reader fails |
| `GbnfParser.Parser.Parse` | src/compute/gbnf_parser.cpp:409-432 | succeeds iff the text reads, every called name and root are defined, and the table represents the source |
| `Languages.RepeatSplit` | src/compute/json_schema.cpp:1028-1069 | lo copies and then up to extra more are lo to lo + extra copies |
| `Languages.RepeatIff` | src/compute/gbnf_parser.cpp:265-310 | a repetition is every list of words whose length is within the bounds, joined up |
| `RegexReparse.AtomCut` | src/compute/json_schema.cpp:741-843 | what follows an atom does not change how it reads |
| `RegexReparse.ReparseIsFaithful` | src/compute/json_schema.cpp:1006-1026 | the text of an atom alone reads as that atom and is consumed whole |
| `RegexPrinting.ClassReads` | src/compute/json_schema.cpp:846-928 | every byte set, the empty one included, comes back from its class |
| `RegexPrinting.PatternReadsBack` | src/compute/json_schema.h:14-30 | every printed expression compiles and is read back as it was |
| `RegexSpelled.MemberReads` | src/compute/json_schema.cpp:853-915 | a class member adds its byte, the bytes from lo to hi, or the bytes of its escape |
| `RegexSpelled.ClassReads` | src/compute/json_schema.cpp:846-928 | a class is read as the bytes some member has, or for `^` as all others |
| `RegexSpelled.TimesRead` | src/compute/json_schema.cpp:945-1001 | every quantifier is read with its bounds |
| `RegexSpelled.AtomReads` | src/compute/json_schema.cpp:741-843 | every atom that is spelled right is read as what it denotes |
| `RegexUnspelled.CompilesIffSpelled` | src/compute/json_schema.cpp:1131-1155 | a pattern compiles iff it is spelled right |
| `RegexUnspelled.SpelledIsRead` | src/compute/json_schema.cpp:741-1155 | it is then read as what its spelling denotes |
| `RegexText.AltIff` | src/compute/json_schema.cpp:741-1129 | the language of a pattern is what its spelling matches: one of the branches, one piece per part in order, as many pieces per part as its quantifier allows, one byte of the right kind per atom, and nothing for `^` and `$` |
| `RegexText.PatternMatches` | src/compute/json_schema.cpp:1131-1155 | so a pattern that is spelled right compiles and matches exactly that |
| `RegexText.SoloPattern` | src/compute/json_schema.cpp:931-1077 | the same for an atom with a quantifier alone |
| `RegexText.OneBytePattern` | src/compute/json_schema.cpp:831-842 | a pattern of one ordinary byte matches that byte and nothing else |
| `RegexText.EscapePattern` | src/compute/json_schema.cpp:785-819 | `\d \w \s`, their complements, the control escapes and quoted bytes, byte for byte |
| `RegexText.RangePattern` | src/compute/json_schema.cpp:896-915 | `[a-z]` matches one byte from a to z, `[^a-z]` one byte outside; it is refused iff z comes before a |
| `RegexAcceptance.CompilesIff` | src/compute/json_schema.h:31-33 | a pattern compiles iff its groups balance, its classes are well formed and no backslash ends it |
| `RegexAcceptance.PlainCompiles` | src/compute/json_schema.cpp:831-835 | no pattern without parentheses, brackets and backslashes is refused |
| `RegexAcceptance.LazyQuantifierIsLiteral` | src/compute/json_schema.cpp:831-835 | `a+?` reads as `a+` followed by a question mark |
| `RegexAcceptance.LookaheadIsLiteral` | src/compute/json_schema.cpp:748-767 | `(?=a)` reads as the three bytes `?=a` |
| `RegexAcceptance.WordBoundaryIsLetter` | src/compute/json_schema.cpp:785-819 | `\b` reads as the letter b |
| `RegexAcceptance.ReversedBoundsAreExact` | src/compute/json_schema.cpp:1058-1069 | `{n,m}` with m below n means exactly n copies |
| `RegexAcceptance.ReversedBoundsMatch` | src/compute/json_schema.cpp:1058-1069 | `a{2,1}` compiles and matches `aa` and nothing else |
| `Fragments.OneByte` | src/compute/json_schema.cpp:837-842 | two states and one byte edge read exactly the bytes of the table, in every automaton that embeds them |
| `Fragments.Sequence` | src/compute/json_schema.cpp:1080-1103 | fragments linked by a free edge read the concatenation |
| `Fragments.Star` | src/compute/json_schema.cpp:949-953 | the edges of `*` read any number of copies |
| `Fragments.Plus` | src/compute/json_schema.cpp:954-957 | the edges of `+` read one or more copies |
| `Fragments.Optional` | src/compute/json_schema.cpp:958-962 | the edges of `?` read one copy or none |
| `Fragments.Alternatives` | src/compute/json_schema.cpp:1106-1129 | a fork into branches that join again reads the union |
| `Fragments.ThenOptions` | src/compute/json_schema.cpp:1058-1069 | copies that may each be skipped to the end read up to that many |
| `RegexNfa.ShorthandBytes` | src/compute/json_schema.cpp:696-738 | the table of `\d \D \w \W \s \S` |
| `RegexNfa.RegexNfa.ParseMembers` | src/compute/json_schema.cpp:853-915 | the byte set of the class members, or refusal |
| `RegexNfa.RegexNfa.ParseClass` | src/compute/json_schema.cpp:846-928 | a fragment that reads one byte of the class |
| `RegexNfa.RegexNfa.ParseAtom` | src/compute/json_schema.cpp:741-843 | a fragment of new states with the language of the atom as read, or refusal where reading fails |
| `RegexNfa.RegexNfa.CloneAtom` | src/compute/json_schema.cpp:1006-1026 | a fresh fragment of the same language; text, position and error flag restored |
| `RegexNfa.RegexNfa.ParseBraces` | src/compute/json_schema.cpp:968-1001 | the bounds, or nothing consumed when the brace is a literal |
| `RegexNfa.RegexNfa.MandatoryCopies` | src/compute/json_schema.cpp:1003-1044 | a fragment of exactly n copies |
| `RegexNfa.RegexNfa.UnboundedCopies` | src/compute/json_schema.cpp:1046-1057 | any number of further copies |
| `RegexNfa.RegexNfa.OptionalCopies` | src/compute/json_schema.cpp:1046-1069 | up to m - n further copies, none when m is below n |
| `RegexNfa.RegexNfa.ParseCounted` | src/compute/json_schema.cpp:968-1073 | exactly the counted repetition |
| `RegexNfa.RegexNfa.AddQuantifier` | src/compute/json_schema.cpp:945-966 | the repetition of `*`, `+` or `?` |
| `RegexNfa.RegexNfa.ParseRepeat` | src/compute/json_schema.cpp:931-1077 | an atom with at most one quantifier |
| `RegexNfa.RegexNfa.ParseConcat` | src/compute/json_schema.cpp:1080-1103 | the concatenation of the parts, the empty word for none |
| `RegexNfa.RegexNfa.ParseAlt` | src/compute/json_schema.cpp:1106-1129 | the union of the branches |
| `RegexNfa.RegexNfa.Compile` | src/compute/json_schema.cpp:1131-1155 | succeeds iff the pattern reads as a whole; the automaton then recognises exactly its language and only its exit accepts |
| `NfaRuns.ClosedIsExact` | src/compute/json_schema.cpp:1157-1174 | a set between x and its closure that no free edge leaves is the closure |
| `NfaRuns.StepIsReached` | src/compute/json_schema.cpp:1185-1200 | stepping the states reached by w gives the states reached by w and the byte |
| `NfaRuns.OpenRecognises` | src/compute/json_schema.cpp:1131-1155 | a finished fragment as a whole automaton accepts exactly its language |
| `NfaRuns.OpenGoesOn` | src/compute/json_schema.cpp:1131-1155 | from every state that is reached edges lead on to the exit |
| `NfaRuns.CanGoOn` | src/compute/json_schema.cpp:1131-1155 | if every edge can be taken, every reached state continues to an accepted text |
| `RegexNfa.RegexNfa.EpsilonClosure` | src/compute/json_schema.cpp:1157-1174 | the sorted list of exactly the states reachable over free edges; duplicates of the given list stay |
| `RegexNfa.RegexNfa.StartSet` | src/compute/json_schema.cpp:1176-1183 | the states reached without reading; empty before compilation |
| `RegexNfa.RegexNfa.Step` | src/compute/json_schema.cpp:1185-1200 | exactly the closure of the byte's targets |
| `RegexNfa.RegexNfa.Accepts` | src/compute/json_schema.cpp:1202-1207 | true iff an accepting state is in the set, which after compilation is the exit |
| `RegexNfa.RegexNfa.Run` | tests/test_schema_constrain.cu:29-37 | the last set accepts iff the text is in the language of the pattern; an empty set means no text of the language starts this way, and if no class of the pattern is empty, any other set means that some text does |
| `SchemaRefs.ResolveSchemaRef` | src/compute/json_schema.cpp:453-472 | the node at the end of the chain of references, or none |
| `SchemaRefs.ResolveIff` | src/compute/json_schema.cpp:453-472 | resolution finds t iff a chain of at most 64 hops ends at t |
| `SchemaRefs.NoReturn` | src/compute/json_schema.cpp:451-472 | a chain that ends visits no place twice |
| `SchemaRefs.EndIsFoundIff` | src/compute/json_schema.cpp:453-472 | a chain that ends is resolved iff it has at most 64 hops |
| `SchemaRefs.LimitIsHarmless` | src/compute/json_schema.cpp:451-472 | with fewer than 64 definitions every chain that ends is resolved |
| `SchemaRefs.LimitIsTight` | src/compute/json_schema.cpp:451-472 | for every number of definitions a chain that ends one hop past it; from 64 on it is refused |
| `SchemaRefs.ValidIff` | src/compute/json_schema.cpp:477-496 | validation accepts a tree iff every reference in it resolves |
| `ToolDefs.RenameMap` | src/compute/json_schema.cpp:610-613 | self and every definition name are mapped, later entries winning |
| `ToolDefs.AdmitTool` | src/compute/json_schema.cpp:582-599 | the gates on name, structure and keys |
| `ToolDefs.CollectToolDefs` | src/compute/json_schema.cpp:579-623 | succeeds iff every tool passes; the table lists each tool's hoisted definitions and then its schema |
| `ToolDefs.BuildToolCallSchema` | src/compute/json_schema.cpp:625-650 | the tool-call root over that table: "name", an enumeration of exactly the given tool names in order, and "arguments", both required |
| `ToolDefs.BuildXmlToolCallSchema` | src/compute/json_schema.cpp:652-669 | the XML root over that table, listing exactly the given tool names in order |
| `ToolRefs.KeyTells` | src/compute/json_schema.cpp:604-606 | a hoisted key tells its tool and its definition when tool names have no slash |
| `ToolRefs.FindInTable` | src/compute/json_schema.cpp:463-468 | a name is found in the shared table where its own tool filed it |
| `ToolRefs.HopSurvives` | src/compute/json_schema.cpp:547-563 | one hop after renaming leads to the moved copy of where it led before |
| `ToolRefs.ChainSurvives` | src/compute/json_schema.cpp:609-618 | whole chains survive hop for hop |
| `ToolRefs.SelfRefEscapes` | src/compute/json_schema.cpp:607-609 | in a schema without definitions a reference denotes the schema, and after the build the root over all tools |
| `ToolRefs.RecursiveArgumentEscapes` | src/compute/json_schema.cpp:607-609 | a tool list with a recursive argument that is admitted and validates, and whose reference ends up at the root |
| `ToolRefs.RefSurvivesIff` | src/compute/json_schema.cpp:579-623 | a resolvable reference keeps its meaning iff its schema has definitions |
| `ToolRefs.CarriedWithin` | src/compute/json_schema.cpp:614-621 | every node of a tool schema is found again below the built root |
| `ToolRefs.BuiltSchemaKeepsRefs` | src/compute/json_schema.cpp:579-650 | both of these for every reference of every validated tool schema, under the JSON and the XML root |
| `ToolRefs.AdmittedIff` | src/compute/json_schema.cpp:582-599 | a tool gets in iff it has a name and its schema leads over at most 64 references to an object with properties, or for JSON to an enumeration with values; for XML no `<`, `>` or line end is in its name or a property name |
| `ToolRefs.NameFindsTool` | src/compute/json_schema.cpp:614-621 | each listed name is found in the definitions of the built root as the moved schema of its own tool |
| `ToolRefs.NameFindsDef` | src/compute/json_schema.cpp:614-618 | each definition of a tool is found as tool, slash, name |
| `ToolRefs.CarriedKeeps` | src/compute/json_schema.cpp:547-563 | a moved node keeps kind, required names, values and children in order; only references are renamed, self to the tool and definitions to their keys |
| `PreambleGate.PreambleGate.Configure` | src/compute/preamble_gate.h:72-85 | a negative budget counts as none, and the gate starts afresh |
| `PreambleGate.PreambleGate.Reset` | src/compute/preamble_gate.h:87-101 | open unless unconfigured or the thinking block is already closed without tools |
| `PreambleGate.PreambleGate.RearmAfterCall` | src/compute/preamble_gate.h:117-125 | the gate is armed again with a fresh budget and window |
| `PreambleGate.PreambleGate.Absorb` | src/compute/preamble_gate.h:129-143 | the new state, counter and window, and whether the token was kept |
| `GateRuns.ForwardedIsSuffix` | src/compute/preamble_gate.h:126-143 | after a forwarded token every later one is forwarded under the mask; a forwarded token sampled without it starts JSON |
| `GateRuns.MaskedIsForwarded` | src/compute/preamble_gate.h:103-109 | a token sampled under the mask is never kept |
| `GateRuns.TerminalStays` | src/compute/preamble_gate.h:40-41 | after a closed tool call the gate never changes again |
| `GateRuns.BudgetEndsPreamble` | src/compute/preamble_gate.h:192-196 | without tools a budget of n ends the preamble within n tokens |
| `GateRuns.WindowIsTail` | src/compute/preamble_gate.h:244-249 | in the preamble the window holds the last 32 characters read since it was cleared |
| `GateRuns.OpenerFoundIff` | src/compute/preamble_gate.h:174-182 | the opener is found iff it occurs within the last 32 characters |
| `GateRuns.OpenerFoundExactly` | src/compute/preamble_gate.h:174-182 | when token and opener fit the window, it is found in the token that completes its first occurrence |
| `GateRuns.OpenerClearsWindow` | src/compute/preamble_gate.h:164-182 | the token that opens a tool body leaves the window empty |
| `GateRuns.BodyWindowIsTail` | src/compute/preamble_gate.h:201-220 | inside a tool body the window holds the last 32 characters behind the opening token |
| `GateRuns.CloserFoundIff` | src/compute/preamble_gate.h:209-217 | a token closes the body iff the closer occurs within the last 32 characters |
| `GateRuns.CloserFoundExactly` | src/compute/preamble_gate.h:209-217 | when token and closer fit the window, iff the token completes the closer |
| `GateRuns.ClosesBehindOpener` | src/compute/preamble_gate.h:145-220 | from the preamble on, for tokens that fit the window: the gate closes iff the closer has occurred wholly behind the opening token |
| `GateRuns.CloserInOpenerIsMissed` | src/compute/preamble_gate.h:174-182 | tokens in which the closer begins in the opening token and is missed, and the same text cut so that it closes |
| `GateStreams.FreshIsArmedIff` | src/compute/preamble_gate.h:87-101 | a fresh gate is armed iff a preamble is asked for and the thinking block is open or tools may come; otherwise every token is forwarded under the mask |
| `GateStreams.DuringPreamble` | src/compute/preamble_gate.h:145-199 | until the preamble ends no token is masked, and a token is forwarded iff it has a brace or bracket, closes no thinking block and opens no tool |
| `GateStreams.EndState` | src/compute/preamble_gate.h:145-199 | the first token that closes thinking without tools, opens a tool by id or by text within 32 characters, starts an answer or spends the budget ends the preamble, in the state its kind says |
| `GateStreams.AfterPreamble` | src/compute/preamble_gate.h:103-143 | behind it every token is forwarded under the mask, or for a tool without strict arguments every token is kept without it |
| `GateStreams.BudgetIsExact` | src/compute/preamble_gate.h:192-196 | a budget of n lets exactly n quiet tokens through |
| `GateStreams.ClosedById` | src/compute/preamble_gate.h:201-207 | a closing token ends a tool body by its id, for good |
| `GateStreams.OpenWithoutCloser` | src/compute/preamble_gate.h:201-220 | without a closing text nothing else does |
| `DecodeLoop.Context.Prefill` | src/api/quench_api.cpp:678-769 | the request after the engine left prefilling; its outputs count as consumed; a request still active is cancelled; the error code of a cancelled request |
| `DecodeLoop.Context.DecodeStep` | src/api/quench_api.cpp:850-952 | delivers the next output exactly once, steps the engine only when nothing is queued and at most eight times, lets the request go only when nothing is queued, and returns the exact code; with ignore_eos a finished request is stepped, and the first token of up to eight steps is delivered |
| `DecodeLoop.FirstYieldEnds` | src/api/quench_api.cpp:912-926 | the first of eight steps that yields ends the wait, and what it yields is queued |
| `DecodeLoop.IdleGivesUp` | src/api/quench_api.cpp:912-926 | eight idle steps are taken, and no more |
| `DecodeLoop.Context.Generate` | src/api/quench_api.cpp:463-525 | delivers a prefix of the outputs from the first on, at most max(1, limit) tokens, all of them on an early success |
| `Arena.AlignUpIff` | src/memory/arena.cpp:8-8 | rounding up never goes back iff the 64-bit sum does not wrap |
| `Arena.TakeStacks` | src/memory/arena.cpp:46-62 | a served span lies in the region, aligned, and behind every span before it iff there is none or the rounding did not wrap |
| `Arena.AddressIsAligned` | src/memory/arena.cpp:20-20 | with a 256-aligned base the address is aligned for every divisor of 256 |
| `Arena.AnyOrderIsServed` | src/memory/arena.cpp:46-62 | a capacity of the sum of the rounded sizes serves the takes in every order |
| `Arena.ArenaAllocator.Open` | src/memory/arena.cpp:13-28 | refused when open or empty, otherwise an empty arena over the region |
| `Arena.ArenaAllocator.Close` | src/memory/arena.cpp:30-38 | releases the region and bumps the generation; nothing when closed |
| `Arena.ArenaAllocator.Reset` | src/memory/arena.cpp:40-44 | rewinds and bumps the generation |
| `Arena.ArenaAllocator.TakeBytes` | src/memory/arena.cpp:46-62 | the span of TakeFrom, in bounds; keeps all spans since the last bump disjoint exactly as long as no rounding wraps, which it cannot in half of the 64-bit range; a refused take changes nothing |
| `ImmaScratch.ImmaScratchShape` | src/exec/workspace_sizes.cpp:206-228 | the route with the larger product, which does not depend on the number of tokens |
| `ImmaScratch.ChosenIsRoute` | src/exec/workspace_sizes.cpp:206-228 | the buffer is sized for exactly one of the two routes, and left out iff there is none |
| `ImmaScratch.DenseCoversExpert` | src/exec/workspace_sizes.cpp:210-212 | a winning dense route covers both capacity guards of the expert route, for every K |
| `ImmaScratch.CoversBothIff` | src/exec/workspace_sizes.cpp:210-212 | a winning expert route covers the dense route iff its scale groups do |
| `ImmaScratch.AlignedCoversBoth` | src/exec/workspace_sizes.cpp:206-228 | an expert K that is a multiple of 32 covers both routes |
| `ImmaScratch.GroupsCanFallShort` | src/exec/workspace_sizes.cpp:210-212 | a shape whose larger product has too few scale groups, for every context length; only a caller of the overload that takes a shape can pass it |
| `ImmaScratch.ScratchIsMonotone` | src/exec/workspace_sizes.cpp:160-171 | a longer context needs no less scratch |
| `ImmaScratch.TokensIff` | src/exec/workspace_sizes.cpp:160-171 | the most tokens of a batch, as the largest number within the context and 4096, or 2048 for state-space models with experts |
| `ImmaCharge.ChargeCoversBuffers` | src/exec/workspace_sizes.cpp:375-382 | whatever was taken before, the four buffers with their rounding cost the arena no more than the charge |
| `ImmaCharge.PreallocationIsServedIff` | src/compute/mmq_q8_imma_scratch.cu:168-263 | an arena with room for the earlier takes and the charge serves the preallocation iff a row has a scale group |
| `ImmaCharge.SplitFactor` | src/compute/mmq_q8_imma.cu:435-439 | the doubling loop stops at the first of its three bounds, and past one slice stays below 512 tiles |
| `ImmaCharge.SplitKFits` | src/exec/workspace_sizes.h:116-121 | no product of up to 32 rows needs more than eight megabytes of split slices |

## Left out

- Error messages, logging and null arguments: every failure is a refusal without text.
- GbnfParser.Parser.ParseRepeatBounds: digit strings are unbounded numbers; the conversion exception of `std::stoi` on long ones, raised before the limit is checked, is modelled as the refusal the limit gives.
- RegexNfa.RegexNfa.ParseBraces: bounds are unbounded numbers, so the overflow of `long` on more than 18 digits is not modelled.
- GbnfGrammar.GbnfGrammar.Intern: ids do not overflow 32 bits; hashing is left to the map.
- ToolDefs.CollectToolDefs: schemas are values that arrive parsed and validated. Updates in place on the owned trees become new values with the same identity field; JSON text handling and `clone()` are not modelled.
- ByteRuns.UpdateConcat: states no size limit; GbnfMatcher.FeedBothWays covers it.
- ByteRuns.UpdateAllIsUpdate: states no size limit; GbnfMatcher.FeedBothWays covers it.
- DecodeLoop.Context.DecodeStep: the codes of exceptions and null arguments are not modelled.
- DecodeLoop.Context.Prefill: the engine is an arbitrary sequence of effects that at some point leaves the prefilling state; sampling parameters, KV management and exceptions are not modelled.
- PreambleGate.PreambleGate.Absorb: the token counter does not overflow.
- Arena.ArenaAllocator.Open: locks and the typed `take` are not modelled.
- ImmaScratch.ImmaScratchShape: the product of tokens and active experts does not overflow `int`.
- `ExecT2Demand::total()` leaves out `chunk_capture` although it is computed (`workspace_sizes.h:171-174`); the sum and the other demand terms would only add easy members.
- `GbnfMatcher::state_key`, `RegexConstrainer` and the other constrainers, the tokenizer, device masks and GPU kernels.
- Recursion depth of the parsers, which the program does not limit.
