# A verified model of the ABNF front-end

The repository turns ABNF (RFC 5234) into the grammar a shared compiler emits, in TypeScript, Go and Rust, and
renders an emitted grammar back as ABNF. This project models the parts of it that carry its meaning and proves what
they are for:

- **The meta-grammar as a pushdown machine.** The table of six rules is data (`MetaGrammar`), the engine's step over
  it is `Engine.Step`, with the hooks, the actions, the shared node arrays, the give-backs, the guards and the depth
  limit. For every token sequence the run halts within nine steps a token (`Halting`), is accepted without a hole
  exactly when the sequence derives from the grammar, and builds that derivation's tree (`Parsing`). The grammar
  is the comment's but for productions named by prose; the comment's own is told apart. On the way: a recursive descent
  with the machine's lookahead (`Reader`), its soundness and completeness for derivations (`Derivations`, `Grammar`),
  and a simulation of the descent by the machine, arrays and all (`Steps`, `Storage`, `Simulation`). A run gives back
  exactly one token for each bracket left open, and those are the holes (`GiveBacks`, `Holes`). `Parser` runs the same
  machine on objects that are assigned, and `Printer` writes trees back as tokens, so that a parse of a print gives the
  tree back. `Depths` gives the shape of every reachable stack, `Spans` where the nodes stand in the text.
- **The three ports.** A mode says which port runs the table (`Ports`): how it decodes a numeric value, whether it wraps
  a hole, how deep brackets may stand. Go and Rust are compared with TypeScript on every token sequence: what they
  accept (`Porting`), when they build the same tree (`PortTrees`), by the texts of the numeric values alone
  (`Numerals`), and that recording a value out of range answers what throwing does (`Recorder`).
- **The render.** The range algebra of character classes on three-byte code points (`CodePoints`, `Ranges`,
  `Tiling`): a merged list is a canonical form, and tiling is a partition of Unicode. Classes as the text of their
  patterns (`Classes`, `ClassPatterns`, `Admissions`): which patterns are admitted, and what is read out of them. The
  check of a token set over its tokens' sources (`ClassSets`), by the flags that fit them (`ClassFlags`) and the class
  read back from the set's name (`ClassNames`). What a class renders to, and what that is read as (`ClassTexts`,
  `Alternations`). References written back and left-factored tails expanded (`WriteBack`, `Unsubs`, `FactoredTails`),
  which keep a rule's alternatives and its language. Numeric values (`Numeric`, `DigitText`, `Spelling`), whose two
  directions are inverse to each other.
- **Core rules** (`CoreRules`, `CoreOrder`, `CoreCache`): the rules added are the least closed set, in a fixed order;
  the ones the author named are recovered from that order alone, and the cached rules survive every interleaving of
  parses and writes.
- **Annotations and incremental alternatives** (`Comments`, `Productions`, `Annotations`, `Incrementals`).
- **The passes together** (`FrontEnd`), in the order they run after the parse, and what they return or refuse in terms
  of the rules and comments alone (`Outcomes`).
- **The Rust port's numbers** (`WideInteger`, `Utf16`) and **the walk over a result in the C library**
  (`ValueWalk`).

Where the source changes things step by step there is a method with the source's loop or an object with its fields,
proved equal to a function of the old state; the theorems are about the function. Where the source is an expression
there is a function.

## Findings

Properties one would expect that the code does not have, each with inputs and with the exact condition:

- A range of two different ends, `%x41-5A`, parses to another element in Go than in TypeScript and Rust, which write
  another escape (`Divergences.RangeDiverges`); so does a value that names a surrogate, `%xD800.DC00`
  (`Divergences.PairDiverges`), and Rust's differ where half a pair stands alone. `Parsing.PortsAgree` says exactly when
  the trees are the same.
- `%d5A` is five in TypeScript and Rust and is refused by Go (`Divergences.DigitsDiverge`). `Parsing.GoAccepts` says
  exactly when Go accepts.
- A class pattern in which the high end of a range is again a low end is admitted; of three escapes so chained the last
  is not read (`Admissions.ChainLosesMember`). Text before a pattern's first bracket is admitted and dropped, with
  the `^` of a negated class (`Admissions.TextBeforeIsLost`). `Admissions.AdmitsClasses` says exactly which patterns are
  admitted unchained: a class behind text without a bracket.
- So a set of one token passes for a class the token does not match: `@/^x[\u0041]/`, which matches two characters, and
  `@/^x[^\u0041]/`, its opposite, both pass for the letter A (`ClassSets.LateInputs`), as does every token in which text
  stands before the bracket or before the anchor (`ClassSets.LatePasses`). An unchained token is read as what it matches
  exactly where its bracket follows the anchor (`ClassSets.ReadRightWhere`), and of such tokens the check is exact
  (`ClassSets.CheckSetIsExact`).
- Found by cutting from the left, the last two digits of a code point are missed exactly where the last three are one
  digit and the one before them another, as in `E000` (`PairEnds.EndPairFound`).
- A character alone written with five or six digits is taken to be ASCII exactly where the first two are zeros and the
  third is at most 7, and where its first four name a printable character the others are rendered, in small letters, as
  text after it (`ClassTexts.LongAlone`); with at most four it is rendered as itself (`ClassTexts.AloneSpells`).
- A range of one character whose ends are written in different digits renders to a range of one, which is read without
  regard to case: `[\u{041}-\u0041]` renders to `%x041-41` (`Alternations.RangeInput`). Of ASCII characters it is exact
  exactly where the character is no letter (`Alternations.RangeOfOneClass`).

## Model

| member | source | states |
|---|---|---|
| `Choices.AtSeq` | ts/src/converter.ts:252-337 | Which alternate of `seq` a token sequence takes: it stops at `/`, a closing bracket, the end or the next production's header, opens an element otherwise, and after an element pops on anything that starts none. |
| `Choices.AtElem` | ts/src/converter.ts:344-421 | The five repetition prefixes in their order, each only before an atom, and what their actions are; close always wraps. |
| `Choices.AtAtomOpen` | ts/src/converter.ts:425-490 | Which tokens an atom opens on, how many it reads, and that nothing else matches. |
| `Choices.AtAtomClose` | ts/src/converter.ts:491-537 | An opened bracket closes on its own mate only; every other token is given back. |
| `Choices.AtProd` | ts/src/converter.ts:168-226 | The three headers of a production, and that a closing production is replaced exactly where the next header stands. |
| `Halting.AtEach` | ts/src/converter.ts:154-538 | Every alternate of the table lowers a weight of rule and phase, paid for by the tokens it reads; only a closing production replaces itself. |
| `Halting.StepDecreases` | ts/src/converter.ts:154-538 | Every step, from any state whose suspended rules wait to close, lowers the measure and keeps them waiting. |
| `Halting.RunIsLinear` | ts/src/converter.ts:154-538 | Every run ends within nine steps a token and seven more, although pushes, replacements and give-backs read nothing. |
| `Reader.ReadCount` | ts/src/converter.ts:344-399 | The repetition prefix read is one the grammar allows, and with what follows it is the tokens that were there. |
| `Grammar.ProductionsSound` | ts/src/converter.ts:133-143 | What the descent reads is well-formed and yields exactly the tokens read. |
| `Grammar.ProductionsComplete` | ts/src/converter.ts:133-143 | Every derivation is read back from its tokens, with nothing left over. |
| `Grammar.ProseNames` | ts/src/converter.ts:168-226 | Among the tokens a derivation derives prose stands in front of `=` exactly where it names a production. |
| `Grammar.ReadsExactlyDerivations` | ts/src/converter.ts:133-143 | The descent reads tokens as a closed derivation exactly when it is one whose yield they are. |
| `Grammar.Unambiguous` | ts/src/converter.ts:133-143 | Two derivations of the same tokens are the same derivation. |
| `Storage.HoldsOnce` | ts/src/converter.ts:154-421 | A node in the store of shared arrays stands for at most one tree. |
| `Storage.KeepsElem` | ts/src/converter.ts:400-419 | Writes to arrays below a bound leave the tree a node stands for, in the arrays above it, unchanged. |
| `Simulation.SimBracket` | ts/src/converter.ts:477-537 | From an opened bracket the run pops with the node the descent's bracket builds, or with nothing where its mate is missing. |
| `Simulation.SimElement` | ts/src/converter.ts:344-421 | From an element the run pops having pushed one node, the repetition the descent's element builds, onto the sequence's array. |
| `Simulation.SimAlts` | ts/src/converter.ts:233-247 | From an alternation the run pops with a new array that holds the sequences the descent reads. |
| `Simulation.SimProductions` | ts/src/converter.ts:168-226 | The productions pushed onto the grammar's array are those the descent reads. |
| `Simulation.RunMeans` | ts/src/converter.ts:144-539 | For every port's machine and every token sequence a run is accepted exactly when the descent reads the tokens, and its result holds the tree of what was read. |
| `Parsing.ParsesRead` | ts/src/converter.ts:144-539 | The result of a run is the one tree built from what was read, brackets left open included. |
| `Parsing.AcceptsExactlyTheGrammar` | ts/src/converter.ts:133-539 | The table accepts with a hole-free tree exactly when the tokens derive from the grammar, and the tree is that derivation's with its repetitions normalised. |
| `Parsing.AcceptsTheCommentedGrammar` | ts/src/converter.ts:133-143 | The comment's grammar, whose productions start with an identifier, derives exactly the sequences the table accepts with a hole-free tree in which no prose stands in front of `=`, and the tree is the derivation's. |
| `Spans.AtomSpan` | ts/src/converter.ts:94-102 | The span of an atom's node runs from the first token it derives to the last, in the row and column of the first; so does that of the group in a bracketed option. |
| `Spans.ProductionSpan` | ts/src/converter.ts:216-226 | A production stands where its name does; what a repetition wraps keeps its span, and the wrapper has none. |
| `GiveBacks.StepCounts` | ts/src/converter.ts:477-537 | Every step of a running machine keeps the brackets standing, those open and those among the tokens left, but for the one an atom gives back. |
| `GiveBacks.PopsAreOpen` | ts/src/converter.ts:491-537 | An accepting run gives back exactly as many tokens for want of a mate as what was read leaves brackets open. |
| `GiveBacks.HolesAreGivenBack` | ts/src/converter.ts:403-417 | In every accepting run of every port the tree has a hole exactly when the run comes to a bracket's atom that pops through the alternate giving the next token back. |
| `GiveBacks.HolesAreOpenBrackets` | ts/src/converter.ts:491-537 | A rule of the tree holds a hole exactly when its production leaves a bracket open, at any nesting. |
| `Parsing.GoAccepts` | go/converter.go:487-560 | Go accepts a source exactly when TypeScript does and in each numeric value every part is digits of its radix, with at most one `-`. |
| `Parsing.PortsAgree` | go/parser_abnf.go:166-208 | Where a port and TypeScript both accept a source they refuse the same productions for holes, and build the same tree, if there is none, exactly when each numeric value agrees: in Go none is a range of two ends or names a surrogate, in Rust none keeps half a pair. |
| `Porting.ReadsWhatItKeeps` | rs/src/parser_abnf.rs:45-59 | A port reads a source as TypeScript does, exactly where it decodes each numeric value and its limit admits the nesting, and otherwise not at all. |
| `PortTrees.BuildSame` | go/converter.go:487-560 | Of a derivation both ports admit they build the same tree exactly when they decode each of its numeric values to the same element. |
| `Numerals.WholeIsPlain` | go/converter.go:508-556 | Go's reading of a numeric value is TypeScript's where every part is digits of its radix with at most one `-`, and a refusal elsewhere. |
| `Numerals.PortsDecodeDotted` | go/converter.go:487-560 | After each letter dotted digits are, in TypeScript, the units of the code points joined, in Rust those read as characters, and in Go each scalar alone. |
| `Numerals.PortsDecodeRange` | go/converter.go:533-552 | After each letter two ends that differ are one class in TypeScript and Rust, and Go's class of the same ends in Go. |
| `Numerals.GoClassReads` | go/converter.go:541-551 | The class Go writes is its two ends in order, each in braces, in at least four hexadecimal digits that name it, without flags. |
| `Numerals.LossySame` | rs/src/numeric.rs:271-289 | Decoding a concatenation's units and encoding the characters again keeps the text exactly when every half of a surrogate pair has its mate beside it. |
| `Numerals.DecodesWhere` | rs/src/numeric.rs:212-296 | By the text alone: whether a port decodes a numeric value that TypeScript decodes, and whether to the same element. |
| `Recorder.RecordingAnswersAlike` | go/converter.go:38-51 | A run that records a value out of range, goes on and is refused afterwards answers, for every state, what the run that stops at the value answers. |
| `Recorder.SalvagedIs` | go/converter.go:508-560 | In place of a value a port that records builds the element the value names, and the character zero for one number out of range. |
| `Divergences.RangeDiverges` | ts/src/converter.ts:1095-1109 | `%x41-5A` parses in TypeScript and Rust to one class and in Go to another. |
| `Divergences.DigitsDiverge` | rs/src/numeric.rs:6-12 | `%d5A` is five in TypeScript and Rust and refused by Go. |
| `Divergences.PairDiverges` | go/converter.go:555-559 | `%xD800.DC00` is the halves of U+10000 in TypeScript and Rust and two replacement characters in Go. |
| `Parsing.RustAccepts` | rs/src/parser_abnf.rs:732-741 | Rust accepts a source exactly when TypeScript does and no bracket of it is nested past 511. |
| `Holes.RejectHoles` | ts/src/converter.ts:936-967 | The first production holding a hole, found at any nesting, or none exactly when no production holds one. |
| `Holes.AltsHole` | ts/src/converter.ts:403-417 | The tree built of alternatives holds a hole exactly when a bracket among them is not closed, whether or not holes are wrapped. |
| `Holes.HoleFreeIsClosed` | ts/src/converter.ts:914-967 | The tree of a grammar passes the walk exactly when every bracket is closed by its own mate. |
| `Holes.PortsRejectAlike` | go/converter.go:279-309 | Of one derivation every two ports refuse the same productions, whether a hole is recorded bare or inside its repetition. |
| `Depths.ReachableShape` | rs/src/parser_abnf.rs:122-254 | After any number of steps the stack is abnf, prod, then whole blocks of alts, seq, elem and atom, one per open bracket, then part of a block; an atom stands at depth four times the open brackets and five. |
| `Depths.DepthCountsBrackets` | rs/src/parser_abnf.rs:49-58 | A shaped stack's open brackets are a quarter of its depth past two. |
| `Parser.RuleObject.Hook` | ts/src/converter.ts:154-247 | The hooks on objects: a new shared array, a reset count or node, or a push of the child's node, exactly as the engine's function of the same step. |
| `Parser.RuleObject.Perform` | ts/src/converter.ts:154-538 | An action on an object leaves the fields, the arrays and the refusal that the engine's function of it says. |
| `Parser.AbnfParser.Step` | ts/src/converter.ts:144-539 | One step on objects changes the parser to the state the engine's step gives. |
| `Parser.AbnfParser.Run` | ts/src/converter.ts:544-670 | Stepping until the run is over terminates, and ends where the engine's run ends. |
| `Parser.Parse` | ts/src/converter.ts:544-670 | A parse on objects ends as the engine's run of the tokens does. |
| `Printer.PrintedParses` | ts/src/converter.ts:133-539 | Every printable tree, written as tokens, parses without a hole to the same tree but for spans. |
| `Printer.ParsedPrintsBack` | ts/src/converter.ts:133-539 | Every hole-free tree a parse builds is printable, and its print parses back to it. |
| `CodePoints.OrderIsNumeric` | ts/src/translate.ts:898-916 | Code points are ordered as the numbers their three bytes are, and are the same exactly when those are. |
| `CodePoints.NextIsSuccessor` | ts/src/translate.ts:918-924 | The code point after one, with its carries, is the next number. |
| `CodePoints.CpOfHexIsValue` | ts/src/translate.ts:880-896 | The bytes of one to six hexadecimal digits, in either case, are the number the digits name. |
| `PairEnds.EndPairFound` | ts/src/translate.ts:892-893 | By a cut from the left the last two of four digits are found exactly where they do not overlap themselves one place before, and no other pair is. |
| `PairEnds.CutReads` | ts/src/translate.ts:239-242 | Read by such cuts, six digits give their code point exactly where the pair is found, and otherwise none. |
| `Ranges.RankRises` | ts/src/translate.ts:980-982 | Ranks rise with the order the ranges are sorted by. |
| `Ranges.SortedSorts` | ts/src/translate.ts:980-982 | Sorting by rank puts every range in one place: in order, and the same ranges. |
| `Ranges.CpMax` | ts/src/translate.ts:926-927 | The code point picked is one of the list, and no other is above it. |
| `Ranges.BlockFacts` | ts/src/translate.ts:970-978 | A block runs from its start to the next one's, its low end its first range's, its high end the greatest of its own. |
| `Ranges.MergedHolds` | ts/src/translate.ts:965-978 | Merging changes which ranges hold the code points, and not which code points are held. |
| `Ranges.MergedApart` | ts/src/translate.ts:963-978 | The merged list is sorted, well-ordered, and has a gap between each two ranges. |
| `Tiling.ApartUnique` | ts/src/translate.ts:963-968 | Lists with a gap between each two ranges that hold the same code points are the same list. |
| `Tiling.MergedSame` | ts/src/translate.ts:963-987 | Two merged lists compare the same exactly when the lists they were merged from hold the same code points. |
| `Tiling.ChainIsPartition` | ts/src/translate.ts:991-1000 | A list each of whose ranges starts past the one before it, from 0 to 10FFFF, holds every code point once. |
| `Tiling.CoverIsChained` | ts/src/translate.ts:991-1000 | A sorted list that holds every code point once is such a chain. |
| `Tiling.TileIsPartition` | ts/src/translate.ts:989-1000 | Two lists of ranges tile exactly when they are disjoint and together are 0 to 10FFFF. |
| `Tiling.LaysExactly` | ts/src/translate.ts:989-1000 | Ranges are laid over a class, by tiling if it is negated and otherwise by comparing merged lists, exactly when they hold what it matches. |
| `ClassPatterns.ReadsBack` | ts/src/translate.ts:934-961 | The pattern of a class of any members, negated or not, ranges and characters alone, is read back member by member; so is the class of every character. |
| `Admissions.AdmitsClasses` | ts/src/translate.ts:751-792 | The patterns admitted in which no range's high end is again a low end are exactly `[\s\S]` and the classes written of members, behind any text without a bracket. |
| `Admissions.AdmitsAnchored` | ts/src/translate.ts:732-739 | Of patterns that open a bracket, as a token outside a set must, those are exactly the classes written. |
| `Admissions.TextBeforeIsLost` | ts/src/translate.ts:1055-1060 | A class behind other text is admitted, negated or not, and read as its members alone. |
| `Admissions.ChainLosesMember` | ts/src/translate.ts:938-952 | A pattern of three escapes joined by two hyphens is admitted, and read as the range of the first two alone. |
| `ClassFlags.HoldsSurrogateIs` | ts/src/translate.ts:1025-1036 | By the first digits of its members' ends: a class of four digits is said to hold a surrogate exactly where it matches one. |
| `ClassFlags.FlagsAlike` | ts/src/translate.ts:1002-1023 | A class of four digits for which either flags fit takes the same units of every text with `u` as without. |
| `ClassFlags.RangeFlags` | ts/src/translate.ts:1002-1023 | The class of a numeric range has the flag `u` exactly where its pattern wants it. |
| `ClassFlags.FlagsFitIs` | ts/src/translate.ts:1002-1036 | The flags accepted for a class are `u` alone where it is every character, negated or written with braces, none where it otherwise matches a surrogate, and either elsewhere. |
| `ClassSets.CheckSetIsExact` | ts/src/translate.ts:1046-1060 | Over the pattern of the set's class and its tokens' sources, each a mark, a pattern and flags between slashes: a token is refused exactly where it is no class, is negated, or has other flags than the class is matched with, and otherwise the set passes exactly when some token matches each code point the class matches and no other. |
| `ClassSets.LatePasses` | ts/src/translate.ts:1055-1060 | A set of one token in which text stands before the bracket or the anchor passes for the class of its members, negated or not. |
| `ClassSets.ReadRightWhere` | ts/src/translate.ts:1055-1060 | An unchained token that is accepted is read as exactly what it matches where nothing stands before its class, and otherwise not. |
| `ClassSets.LateInputs` | ts/src/translate.ts:1055-1060 | `@/^x[\u0041]/` and `@/^x[^\u0041]/` both pass for the letter A. |
| `ClassNames.NameIsSpelt` | ts/src/translate.ts:856-874 | The name of a pattern is the one text that has, behind `RX_`, an underscore for each mark of the pattern and each letter in capitals, less up to two underscores at the end. |
| `ClassNames.NameIsChecked` | ts/src/translate.ts:840-854 | From a name a pattern is read only if it spells that name. |
| `ClassNames.NameReadsBack` | ts/src/translate.ts:820-874 | From the name a class's pattern spells that pattern is read back, place by place, with the hexadecimal digits in small letters. |
| `ClassNames.CheckNamedIsExact` | ts/src/translate.ts:1038-1060 | A set with the name a class spells is refused exactly for a token, and passes exactly when its tokens match, between them, what the class does. |
| `ClassNames.LettersReadBack` | ts/src/translate.ts:840-874 | `RX___U0061__U007A` is read as `[\u0061-\u007a]`. |
| `ClassPatterns.RangeClassMatches` | ts/src/translate.ts:938-961 | The pattern of a numeric range is read as a class that holds the code points from its low end to its high end. |
| `WriteBack.PrefixTailIs` | ts/src/translate.ts:1667-1673 | The joined text compared for a tail is that tail's exactly when the alternative is the candidate's followed by it. |
| `WriteBack.MatchIsRun` | ts/src/translate.ts:1675-1684 | A candidate matches at a place exactly when its alternatives stand there, each followed by one same tail. |
| `WriteBack.CandAtIsLongest` | ts/src/translate.ts:1687-1698 | A candidate is found exactly where one other than the rule itself stands, and none that stands there has more alternatives. |
| `WriteBack.RunsApart` | ts/src/translate.ts:1710-1713 | The runs accepted never overlap. |
| `WriteBack.WriteBackRestores` | ts/src/translate.ts:1700-1726 | Each reference put in, replaced by its candidate's alternatives, each followed by the kept tail, gives the alternatives' keys back, in order. |
| `Unsubs.WritesEach` | ts/src/translate.ts:1700-1726 | Where the first longest candidate stands that no candidate chosen before reaches, its reference is written in, with the tail behind it, and what stands before it restores the alternatives before it. |
| `Unsubs.PiecesAre` | ts/src/translate.ts:1687-1726 | All else that is written is an alternative as it was, at which no reference is to be written in. |
| `Unsubs.UnsubIs` | ts/src/translate.ts:1705-1716 | A rule is written as those pieces, but stays as it is where they are one reference alone. |
| `WriteBack.BackIsACandidate` | ts/src/translate.ts:1693-1724 | Only candidates are written in, and never the rule itself. |
| `WriteBack.WriteBackKeepsMeaning` | ts/src/translate.ts:1622-1637 | Under every meaning that gives a reference its rule's, the rule written matches exactly the texts the rule matched. |
| `FactoredTails.ExpandsLower` | ts/src/translate.ts:1319-1334 | Each expansion of a last tail lowers a weight, so the recursion ends wherever tails refer only to lower-ranked ones. |
| `FactoredTails.NoneEndsInTail` | ts/src/translate.ts:1319-1334 | No sequence an alternative expands to ends in a tail reference. |
| `FactoredTails.ExpandKeepsLanguage` | ts/src/translate.ts:1319-1334 | The sequences an alternative expands to read as exactly the words the alternative does. |
| `DigitText.ParseDigits` | ts/src/converter.ts:1074-1082 | Reading back the digits a number is written with gives the number, in each radix. |
| `DigitText.DottedIs` | ts/src/converter.ts:1062-1113 | After each letter, dotted parts of any text are refused exactly where some part is led by no digit of the radix or names more than 10FFFF, and otherwise are the code points their leading digits name, in order. |
| `DigitText.DashedIs` | ts/src/converter.ts:1062-1109 | After each letter, parts with `-` between them are refused exactly where one of the first two names no code point, and otherwise are those two ends, or the one they are. |
| `DigitText.DecodeDotted` | ts/src/converter.ts:1062-1113 | `%x`, `%d` and `%b`, in either case, before dotted digits in base 16, 10 and 2: the literal of the code points the digits name. |
| `DigitText.DecodeRange` | ts/src/converter.ts:1062-1109 | The same letters before two ends: the class from the one to the other, or the one character they are. |
| `Spelling.WalkSpells` | ts/src/translate.ts:1482-1501 | Cutting characters out, each put back as its code point, keeps what the pieces spell. |
| `Spelling.WalkLeaves` | ts/src/translate.ts:1489-1501 | After the walk no piece still holds a character cut out, and none is empty. |
| `Spelling.WideCharsFind` | ts/src/translate.ts:1538-1547 | Every character past ASCII of a run is found, a block of 256 at a time, with the digits of its code point. |
| `Spelling.CodesSpell` | ts/src/translate.ts:1503-1556 | The codes of a text of the Basic Multilingual Plane are its characters' code points, in order, in capitals, in at least two digits and without a zero in front of more. |
| `Spelling.CodesWhere` | ts/src/translate.ts:1503-1536 | A text has codes exactly where it holds no character past U+FFFF. |
| `Spelling.TextRoundTrip` | ts/src/translate.ts:1482-1547 | Decoding `%x` and the dotted codes of a text of the Basic Multilingual Plane gives the text back. |
| `ClassTexts.DigitsName` | ts/src/translate.ts:1763-1772 | The digits read out of a class member's escape name the code point its own digits do, in capitals, and of four without two zeros in front. |
| `ClassTexts.RangeRoundTrip` | ts/src/translate.ts:1774-1817 | For every two code points that differ, the class their range decodes to, rendered and decoded again, is the same pattern with the same flags. |
| `ClassTexts.AnythingText` | ts/src/translate.ts:1781-1784 | The class of every character renders to `%x0-10FFFF`, which decodes to the class of every code point. |
| `ClassTexts.NegatedHasNone` | ts/src/translate.ts:1786-1790 | A negated class renders to nothing. |
| `ClassTexts.SeveralText` | ts/src/translate.ts:1786-1816 | A class of several members renders to the alternation of its members' texts in order, and to nothing where one has none. |
| `Alternations.AlternationReadsBack` | ts/src/translate.ts:1786-1837 | That alternation is what a row of tokens spells, and as a rule those parse, without a hole, to a group that matches exactly what the class does, where each member is a range of two code points or an ASCII character written plainly. |
| `Alternations.RangeOfOneClass` | ts/src/translate.ts:1818-1826 | A class of one ASCII character, as a range whose ends are written in different digits, renders to a text that matches the class exactly where the character is no letter. |
| `Alternations.RangeInput` | ts/src/translate.ts:1818-1826 | Such a range of the letter A: `\u{041}-\u0041`, whose ends are rendered `041` and `41`. |
| `ClassTexts.RangeSpells` | ts/src/translate.ts:1824-1826 | A member's range, rendered and decoded, is the class of its two ends, or the one character they are. |
| `ClassTexts.AloneSpells` | ts/src/translate.ts:1824-1842 | A character alone, of at most four digits, has a text exactly below U+0080: a string of it, exact where it is a letter, or else a value decoded to it that is no letter. |
| `ClassTexts.LongAlone` | ts/src/translate.ts:1827-1842 | Of five or six digits a character alone has a text exactly where two zeros and a digit up to 7 lead: the character two digits name and the others, in small letters, as a string, or where that character is unprintable a range of one. |
| `CoreRules.WithCoreRules` | ts/src/converter.ts:912-1001 | The loop terminates and appends to the user's productions, left first and unchanged, what passes over the table add until one adds nothing. |
| `CoreRules.CoreIsLeast` | rs/src/converter.rs:576-614 | What is added is the least set of core rules, not the user's, that the user or an added rule references, each once. |
| `CoreOrder.AddedInTurn` | ts/src/converter.ts:973-999 | Each core rule added is the first of the table, from behind the one added before it and round past the end, that the user or a rule added references and none of them defines. |
| `CoreRules.FirstPassIsDirect` | ts/src/translate.ts:1955-1960 | Where every reference of the table points backward, the first pass adds exactly the undefined rules the user references, in table order. |
| `CoreRules.DirectCoreIsDirect` | ts/src/translate.ts:1955-1978 | Cutting the order the rules were added in at its first descent gives exactly the undefined core rules the user references, even when rules without references are gone from the list. |
| `CoreRules.CoreTableIsBackward` | ts/src/converter.ts:858-875 | The sixteen rules of RFC 5234, Appendix B.1, are named once each and refer only to rules before them. |
| `CoreRules.TableHolds` | ts/src/converter.ts:858-875 | A rule is in the table exactly where RFC 5234, Appendix B.1, has it, with the rules it is written with. |
| `CoreRules.TableOrder` | ts/src/converter.ts:858-875 | The sixteen rules stand in the order of the appendix. |
| `CoreRules.CorePulls` | ts/src/converter.ts:907-911 | What each core rule pulls in, where a user names it alone: the rules it is written with, at any remove, and itself. |
| `CoreCache.CloneIsFresh` | ts/src/converter.ts:68-76 | A copy of a span-free production refers to new productions, arrays and elements only, and has the tree of what was copied. |
| `CoreCache.GetCoreRules` | ts/src/converter.ts:879-905 | The loop that fills the cache clears the span of every cell under a parsed core rule, and changes nothing else. |
| `CoreCache.CachedApart` | ts/src/converter.ts:82-91 | What it leaves is closed, without spans, and apart from every cell callers held before. |
| `CoreCache.DoKeeps` | ts/src/converter.ts:985-996 | A parse hands out a copy with the cached rule's tree; a parse, a new object or a caller's write leaves the cache as it was and apart from all that callers reach. |
| `CoreCache.CacheIsKept` | ts/src/converter.ts:879-905 | From that loop on, over every interleaving of parses and of callers' writes, the cached rules keep the trees they were parsed to, without spans and apart from all that callers reach. |
| `Comments.AnnotationComments` | ts/src/converter.ts:751-770 | The scanner's loop yields the comments the skipping function does. |
| `Comments.ScanIsExact` | ts/src/converter.ts:744-770 | A comment is yielded exactly when its `;` stands outside strings, prose and comments, read a character at a time, and what stands from there to the end of the line, less the blanks at both ends, starts with `@`. |
| `Comments.ScanAscends` | ts/src/converter.ts:751-770 | Comments are yielded in the order they stand. |
| `Annotations.LastIsLatest` | ts/src/converter.ts:773-777 | No production that starts before a place is later in the text than its owner. |
| `Annotations.CursorIsSearch` | ts/src/converter.ts:790-800 | Where the cursor stops, the production it passed last is the owner a full search finds. |
| `Annotations.ClaimPasses` | ts/src/converter.ts:812-842 | A claim passes the checks exactly when an array names no members, or an object's members are rule names, each once. |
| `Annotations.AttachValueAnnotations` | go/converter.go:167-257 | The cursor, moved forward only and never reset, attaches what a full search per comment attaches, and refuses where it refuses. |
| `Annotations.AttachIsExact` | ts/src/converter.ts:780-852 | The pass succeeds exactly when every claim is well-formed, follows a production and is the only one to follow it; each production then is an array, or an object with the members claimed in their order, as the claim that follows it says. |
| `Annotations.RefusalIsFirst` | ts/src/converter.ts:790-850 | A text refused is refused for the first comment that is wrong, and for what is wrong with it: no production before it, an array with members, the first member that is no name or named twice, or a production an earlier comment annotates. |
| `Incrementals.MergeIsExact` | ts/src/converter.ts:1008-1049 | The merge succeeds exactly when every `=/` line has an earlier definition and no rule is annotated twice; each rule kept then holds its own alternatives, those of its `=/` lines in order, and the one annotation among them. |
| `Incrementals.MergeRefusal` | ts/src/converter.ts:1014-1035 | A merge refused is refused for the first line it cannot take, by that line's name: a `=/` line with none of its name before it, or a second annotation. |
| `Incrementals.MergeIncrementals` | ts/src/converter.ts:1008-1049 | The fold on objects, which grows the list a base production shares with its rebuilt copy, yields new productions with those fields, or the first refusal. |
| `FrontEnd.HolesSurviveMerge` | ts/src/converter.ts:715-727 | After the merge a production holds a hole exactly when a rule parsed does, `=/` lines included. |
| `FrontEnd.SucceedsExactly` | ts/src/converter.ts:711-728 | The passes after the parse succeed exactly when there is a rule, the annotations fit, every `=/` line has a rule to extend and none is annotated twice, and no rule parsed holds a hole. |
| `FrontEnd.SourceSucceeds` | ts/src/converter.ts:691-728 | A source is parsed and passes exactly when its tokens derive from the grammar and its annotations and `=/` lines are in order. |
| `Outcomes.UserIsExact` | ts/src/converter.ts:711-728 | Where the passes succeed there is one production for each rule that is not `=/`, in order: its name and span, its alternatives and then those of the `=/` rules that extend it, and the one annotation that follows one of them. |
| `Outcomes.RefusalIsExact` | ts/src/converter.ts:711-967 | Where they do not, the reason given is the first: no rule, the first wrong comment, the first line that does not merge, or the first rule that holds a hole with what extends it. |
| `FrontEnd.AddsLeast` | ts/src/converter.ts:969-1000 | The core rules added at the end are the least set, not defined by any rule parsed, that a rule parsed or added references, each once. |
| `FrontEnd.RuleRefsOccur` | ts/src/converter.ts:964-972 | The names referenced are exactly those a path into some rule ends at, through wrappers and groups of any depth. |
| `Outcomes.AddedAreInTurn` | ts/src/converter.ts:969-1000 | The core rules behind them are added in turn, for what the rules parsed name and reference. |
| `WideInteger.MulAddIs` | rs/src/numeric.rs:77-89 | A pass over the decimal slots multiplies the number they are by the radix and adds the digit. |
| `WideInteger.TakeSlot` | rs/src/numeric.rs:80-84 | One slot multiplied in place stays below ten and leaves a carry below the radix. |
| `WideInteger.TooWide` | rs/src/numeric.rs:69-76 | Digits wider than the cut name an integer of at least 2 to the 1024, leading zeros aside. |
| `WideInteger.ParseIntWide` | rs/src/numeric.rs:62-96 | The wide parse answers infinity exactly where the width says so, and hands the rounding the exact integer everywhere else. |
| `WideInteger.ParseExact` | rs/src/numeric.rs:28-60 | No number exactly where no digit leads; otherwise the exact integer of the longest prefix of digits whichever path runs, but for integers of at least 2 to the 1024 cut at once. |
| `Utf16.PushAll` | rs/src/numeric.rs:183-197 | The units pushed for a list of parts are each part's, one after another. |
| `Utf16.LossyNames` | rs/src/numeric.rs:271-289 | Decoding through UTF-16 units names, for every list of code points, the text in which adjacent halves are joined and others replaced. |
| `Utf16.PairJoins` | rs/src/numeric.rs:271-289 | An adjacent high and low half, wherever they stand, become the one code point they encode. |
| `Utf16.OtherStands` | rs/src/numeric.rs:271-289 | Any other code point stands for itself, but for a half without a mate, which becomes U+FFFD. |
| `Utf16.PlainUnchanged` | rs/src/numeric.rs:183-197 | A list without surrogates comes back unchanged. |
| `ValueWalk.UnsafeWalk.Visit` | go/clib/core.go:339-368 | A visit terminates, leaves the set of containers on the path as it was, and gives the reason the walk's function gives. |
| `ValueWalk.UnsafeWalk.Contained` | go/clib/core.go:370-398 | The same for what stands behind a pointer, map or slice. |
| `ValueWalk.JsonUnsafe` | go/clib/core.go:308-318 | The answer is empty exactly when no container repeats on a path from the root and every string, key and number emitted is safe. |
| `ValueWalk.ValueIsAtoms` | go/clib/core.go:339-487 | The walk is the walk of the atoms a value emits, in order, keys before their values. |
| `ValueWalk.ReasonIsReal` | go/clib/core.go:308-487 | A reason given is true of some path from the root: a repeated container, text that is not UTF-8, or a number that would be rounded. |
| `ValueWalk.WalkIsExact` | go/clib/core.go:294-318 | No reason is given exactly when the value is safe, over every finite graph of containers. |
| `ValueWalk.ContainerIsSafe` | go/clib/core.go:370-463 | A container is safe exactly when its keys are text, each value it emits is safe, an object node's entries for its keys among them, and no path leads back to it. |
| `ValueWalk.FieldsAreSafe` | go/clib/core.go:455-487 | What is emitted inline is safe exactly when each field is. |
| `ValueWalk.LeafIsSafe` | go/clib/core.go:339-368 | A value emitted as it stands is safe exactly when it is no arbitrary-precision number and no string that is not UTF-8. |
| `ValueWalk.FaultyEntry` | go/clib/core.go:420-436 | An object node whose one entry is the string of the byte FF is refused as not UTF-8. |
| `ValueWalk.SharingIsNoCycle` | go/clib/core.go:321-328 | A value whose parts are shared but repeat on no path is never reported as a cycle. |

## Left out

- The shared compiler and the engine themselves: the engine's step is modelled from how the table uses it, and the
  compiler's `refsIn` is each production's set of referenced names. The source of neither is part of this model.
- The lexer and its choice of tokens by context: the model starts from tokens with a kind, a text and offsets.
- The grammar comment says a production starts with an identifier; the table also takes prose before `=`
  (`<all> =`), and the model follows the table: `Parsing.AcceptsTheCommentedGrammar` is the comment's.
- The exact text of diagnostics: errors are tagged cases.
- A span's offsets are the engine's units, characters in TypeScript and bytes in Go and Rust: the ports are compared on
  one token sequence.
- Counts in repetitions are unbounded integers; the doubles and clamped integers the ports hold them in, and the
  rounding of an exact integer to a double, are not modelled.
- `Numeric.DecodeFor` works on the text of a token the lexer admits: a text shorter than its prefix, which no token has,
  is refused, and neither a sign, which Go's integer parse would take, nor a base letter beside `x`, `d` and `b` is in
  one.
- `CodePoints.CpOfHexIsValue`: the last pair of digits is taken as the suffix it is specified to be; `PairEnds` says
  where cutting finds it.
- `Alternations.AlternationReadsBack`: the tokens spell the text, with a space between two; that the lexer cuts it into
  them is not modelled. A literal read without regard to case folds ASCII letters only.
- `ClassSets.CheckSetIsExact`: of classes whose members' low ends are not above their high ends and within Unicode,
  as every regular expression has them.
- `ClassNames.NameReadsBack`: of names of classes. A name of no class may be read as a pattern too, which spells it and
  which the render does not admit.
- `ClassFlags.FlagsAlike`: a text is read from its start, not from inside a pair.
- `WriteBack.WriteBackRestores`: keys are not empty and hold neither the separator U+0001 nor the sentinel U+0000
  alone, as every key made of token and rule names is; every candidate has an alternative. The keys of helper rules
  are given with their elements.
- `FactoredTails.ExpandKeepsLanguage`: tails refer to tails of lower rank. The source does not check this, and does not
  return where a tail refers back to itself.
- `CoreRules.WithCoreRules`: starts after the walk for holes, which `Holes.RejectHoles` states and `FrontEnd` puts
  before it; productions are their names and references.
- `CoreCache.CacheIsKept`: objects are cells numbered so that what one is made of comes before it; a span is a cell of
  its own, which a copied field would share, and strings and numbers, the kind each cached rule is marked with among
  them, are values.
- `Annotations.AttachIsExact`: of productions of which at least one has a span, as every parsed one has; without any,
  nothing is attached. The two regular expressions and the characters trimmed are parameters, and on a refusal what was
  attached before it is not undone, as in the source.
- `Utf16.LossyNames`: the standard library's lossy decoding is modelled as documented.
- `WideInteger.ParseIntWide`: the logarithm of the radix, 1 or 4, is exact in a double, as is its product with any
  length of text.
- `ValueWalk.WalkIsExact`: reflection is replaced by a finite graph; map keys come in the order they are visited, and
  whether bytes are UTF-8 is given. The recovery from a panic and the handle registry are not modelled.
- The rest of the render: refusals of alternates, the numbering of helpers, groups split from factored alternatives,
  literals and the text of elements. The command-line tools, the cgo shim, the plugin wrappers and the corpora.
