# Verification models of the scredis documentation site

The repository ships the JavaScript of its documentation site. This project models
its three algorithmic parts in Dafny and proves what they promise:

- the code highlighter (`docs/lib/prettify/prettify.js`): it flattens a DOM tree to
  text and spans, combines regular expressions, runs lexers with embedded languages,
  compacts their decorations in place, cuts the text nodes of the tree accordingly,
  and splits the tree into numbered lines;
- the cooperative scheduler (`docs/api/lib/scheduler.js`) and the chunked search that
  runs on it (`docs/api/lib/index.js`);
- the two compilers from typed words to patterns (`docs/api/lib/index.js`,
  `docs/api/lib/template.js`), and the member filter that uses one of them.

Loops that push, overwrite and splice are methods with invariants, proved against
specification functions; the promises themselves are lemmas about those functions
and about all runs. `dafny verify dfyconfig.toml` checks everything.

| files | part |
|---|---|
| `Prelude`, `Texts`, `Sorting` | text, trimming, `sort()` |
| `EscapeCodec`, `EscapeMeaning`, `CodeRanges`, `CharClass`, `ClassMatches`, `ClassReading`, `ClassFolding` | folding the case of classes |
| `GroupNumbering`, `PatternText`, `SourceTokens`, `CombinedPattern`, `JoinedPatterns`, `BrokenPatterns` | combining regular expressions: groups and references |
| `OctalEscapes`, `TokenReading`, `CaseTreatment`, `CaseExamples` | combining regular expressions: characters and case |
| `Dom`, `SpanExtraction`, `BlankRuns`, `Decorations`, `Lexer` | from tree to decorations |
| `Recombination`, `Highlighting`, `TextPreservation`, `Pipeline` | from decorations to the new tree |
| `LineTrees`, `LineTexts`, `LineSplitting` | numbered lines |
| `WorkQueues`, `Scheduler`, `SchedulerRuns`, `ScheduleLast` | the scheduler |
| `ChunkedSearch`, `SearchRuns`, `SearchPage` | the search |
| `MiniRegex`, `QueryCompilers`, `SearchPattern`, `PlainQueries`, `MemberFilter` | queries and filter |

## What the code does not keep

- Some character classes are read otherwise than JavaScript reads them. A set at the
  end of a range is the plainest case: `[a-\d]`, which is `a`, a hyphen and the digits,
  is folded as the range from `a` to `d` (`EscapeAsRangeEnd`). `[\B]` is copied unfolded
  (`EscapedLetterStays`), folding `[z-\D]` twice differs from folding it once
  (`FoldingTwiceDiffers`), and `[\x]` has no number (`LetterIsNoNumber`).
  `ReadingsAgree` says exactly which classes are read alike, `FoldClassMeans` when the
  folded class is the right one, `FoldClassIsIdempotent` when folding again changes it.
- Combining patterns rewrites their tokens and joins their text, and the joined text,
  read again, need not say what they said. `JoinedPatterns.CombiningKeepsReferences`
  gives the exact condition on the tokens of each pattern. It fails for
  - a number that is no back-reference and becomes a parenthesis, a bracket or a bar:
    `\40`, `\91(x)]\1`, `(a\41b)\1`, `a\124b` (`SyntaxFromNumber`,
    `ParenthesisEscapeOpensAGroup`);
  - a back-reference that a dropped caret or a number turned into a digit makes longer:
    `(a)\1^0`, `(a)\1\49` (`CaretBeforeDigit`, `DigitBehindReference`);
  - a number turned into a question mark behind a parenthesis: `(\63:)\1`
    (`QuestionMarkInGroup`);
  - a reference in front of its group, and a number with a leading zero: `\1(a)`,
    `(a)\01` (`ForwardReference`, `LeadingZero`).
- The other numeric escapes are octal in JavaScript, and the code takes them for
  decimal, so that only those below eight, of at most three digits, keep their
  character (`NumberKeepsCharacter`).
- Nor do combined patterns keep their own treatment of case. The source looks for
  letters outside escapes in the case-sensitive patterns; if there are none, all get
  the flag `i`, and otherwise those that ignore case are folded. `CombiningKeepsCase`
  gives the exact condition on the tokens (`Keeps`). With the flag, a case-sensitive
  pattern may hold no character that has another case, however it is written, no class
  without all cases of what it has, and no back-reference: `/\x41/` and `/[:-_]/` beside
  `/a/i` (`EscapedLetterGetsFlag`, `RangeGetsFlag`, `ReferenceMindsFlag`). When folded, a
  pattern may hold no escape that stands for a character with another case, no such
  character in its text but ASCII letters, no back-reference, no `\c`, and no class that
  comes out wrong: `/\x41/i` beside `/a/` (`EscapedLetterIsNotFolded`,
  `ForeignLetterIsNotFolded`, `ControlIsNotFolded`).
- A style that contains the class `nocode` hides its text from a second extraction
  (`NocodeStyleLosesText`); `Pipeline.ApplyDecorator` states the exact condition on the
  styles that the languages give, and `VisibleHidesNothing` one that is enough.
- A job that throws stops the scheduler for good: `timeout` stays set and no timer is
  pending (`ThrowStalls`; `ThrowReached` is a run that gets there).
- Two `scheduleLast` requests for one label wait for each other forever
  (`TwoRequestsStarve`; `TwoRequestsReached` is a run that gets there).
- The search escapes neither `^` nor `$` nor braces: a query with one of the first two,
  or with a count such as `{2}`, finds other names than those that contain it, and any
  other query just these (`LowerCaseSearch`, `MixedCaseSearch`; `CountFindsOther`). A
  count that repeats nothing, or goes from more to less, makes the search throw.
- The member filter finds what was typed, whatever the case, if and only if the terms
  as typed and the lower-cased terms cover each other: each has one of the others within
  it (`FilterMatchesTyped`). U+0130, which becomes two characters, and U+212A, which
  becomes `k`, are not found in themselves (`DottedIsNotFound`, `KelvinIsNotFound`).
- The owner of a member whose name has neither `#` nor a dot is the name without its
  last character (`OwnerMeans`).

## Model

| member | source | states |
|---|---|---|
| EscapeCodec.DecodeEncode | docs/lib/prettify/prettify.js:2 | decoding an encoded escape gives the code unit back, for every code unit |
| EscapeMeaning.DecodedIsMeant | docs/lib/prettify/prettify.js:2-6 | a token of a class is decoded to the code that JavaScript gives it, by its own table of control letters and its own reading of digits |
| CodeRanges.WithAllCaseFoldsCloses | docs/lib/prettify/prettify.js:3 | the ranges pushed for the parsed ones, through the arithmetic on bit 5, denote exactly the parsed set closed under swapping ASCII case |
| CodeRanges.NormaliseIsCanonical | docs/lib/prettify/prettify.js:3 | sorting and merging give sorted, disjoint, non-adjacent ranges of the same set |
| CodeRanges.CanonicalIsUnique | docs/lib/prettify/prettify.js:3 | a set has only one such list, so the folded class is determined by its set |
| CodeRanges.WidenOrPush | docs/lib/prettify/prettify.js:3 | one turn of the merge: the last cell is widened through its alias or the next one is pushed, and later cells keep their values |
| CodeRanges.MergeSorted | docs/lib/prettify/prettify.js:3 | the merging loop over shared two-element arrays computes the merge of the sorted ranges |
| ClassMatches.TokenIsFirstMatch | docs/lib/prettify/prettify.js:2 | a token of a class is the first match of the token pattern, by its alternatives in order |
| ClassMatches.TokensAreMatches | docs/lib/prettify/prettify.js:2 | the tokens are the body of the class, one match behind the other, but for a backslash at its end |
| CharClass.TokensOfConcat | docs/lib/prettify/prettify.js:2 | tokenising a concatenation of self-delimiting tokens gives these tokens |
| CharClass.ParsePrint | docs/lib/prettify/prettify.js:2-4 | tokenising and parsing a printed class gives the same flag, escapes and ranges |
| ClassReading.SpacesAreSpace | docs/lib/prettify/prettify.js:2-3 | white space is the same set in a class and elsewhere |
| ClassReading.ReadingsAgree | docs/lib/prettify/prettify.js:2-3 | the folder takes a class for the same items as JavaScript, each where the other has it, if and only if no escape for a set ends a range that begins with a character, and the like |
| ClassFolding.FoldedHas | docs/lib/prettify/prettify.js:2-4 | what the folded class is in JavaScript: the same negation, the copied escapes, and the merged ranges of what was parsed |
| ClassFolding.FoldClassMeans | docs/lib/prettify/prettify.js:2-4 | the folded class denotes the class closed under ASCII case, with the same negation, if and only if what was parsed has that canonical form; so for every class read alike |
| ClassFolding.FoldClassIsIdempotent | docs/lib/prettify/prettify.js:2-4 | folding a folded class changes nothing if and only if the ranges printed are canonical and closed under case; so where no parsed range is reversed |
| ClassFolding.GarbledFails | docs/lib/prettify/prettify.js:2-3 | an escape has no number just where the folder reads one without its digits |
| ClassFolding.EscapeAsRangeEnd | docs/lib/prettify/prettify.js:2-4 | `[a-\d]`: the digits and the hyphen are lost, other letters come in |
| ClassFolding.FoldingTwiceDiffers | docs/lib/prettify/prettify.js:2-4 | `[z-\D]`: folding twice differs from folding once |
| ClassFolding.EscapedLetterStays | docs/lib/prettify/prettify.js:2-4 | `[\B]`: the letter is copied and not folded |
| ClassFolding.LetterIsNoNumber | docs/lib/prettify/prettify.js:2-3 | `[\x]`: a letter in JavaScript, no number here |
| ClassFolding.EscapeAsRangeStart | docs/lib/prettify/prettify.js:2-4 | `[\b-z]`: the characters in between are lost |
| ClassFolding.OthersUnfaithful | docs/lib/prettify/prettify.js:2-3 | two more that are read otherwise: `[\cJ]` and `[\d-a-z]` |
| CharClass.PushRange | docs/lib/prettify/prettify.js:3 | a range is pushed with its images in the other case |
| CharClass.CollectRanges | docs/lib/prettify/prettify.js:3 | the parsing loop collects the closed ranges and copies the class escapes, in order |
| CharClass.EmitRanges | docs/lib/prettify/prettify.js:3-4 | the emission loop prints each merged range: its start, and for more than one member a hyphen and its end |
| CharClass.CaseFoldCharset | docs/lib/prettify/prettify.js:2-4 | the function step by step gives the folded class, and fails where it has no tokens or an escape is no number |
| GroupNumbering.DecimalReads | docs/lib/prettify/prettify.js:4-5 | a printed group number reads back as that number |
| GroupNumbering.EncodedIsNotNumeric | docs/lib/prettify/prettify.js:2-4 | an encoded code unit is never read as a back-reference, and is a parenthesis only for 40 |
| GroupNumbering.ReferencesMean | docs/lib/prettify/prettify.js:4 | the groups marked are those that some back-reference names |
| GroupNumbering.MarkReferences | docs/lib/prettify/prettify.js:4 | the first pass marks just the groups that some later back-reference names and turns the other numeric escapes into characters |
| GroupNumbering.AssignNumbers | docs/lib/prettify/prettify.js:4 | the second pass gives the marked groups consecutive numbers after the shared counter, in order |
| GroupNumbering.Renumber | docs/lib/prettify/prettify.js:4-5 | the third pass makes the unreferenced groups non-capturing and writes the new numbers |
| GroupNumbering.RewritePattern | docs/lib/prettify/prettify.js:4-5 | all passes over one pattern, and the shared counter after it |
| GroupNumbering.TargetIsUnique | docs/lib/prettify/prettify.js:4 | the n-th opening parenthesis is the one with n-1 in front of it |
| SourceTokens.TokenIsFirstMatch | docs/lib/prettify/prettify.js:4 | a token is the first match of the token pattern where it begins, by its eight alternatives in order, each as long as it can be |
| SourceTokens.TokensAreMatches | docs/lib/prettify/prettify.js:4 | for every source: its tokens stand in it in order, each is what the token pattern matches there, and in between it matches nowhere |
| SourceTokens.SourceReads | docs/lib/prettify/prettify.js:4 | a source in which everything is matched is the concatenation of its tokens, and its marks are theirs |
| PatternText.PatternTokensAreTokens | docs/lib/prettify/prettify.js:4 | the tokens that the token pattern cuts a source into are such tokens when they stand alone |
| PatternText.TokenDelimited | docs/lib/prettify/prettify.js:4 | a token ends where it did, whatever stands behind it, unless digits go on or a parenthesis meets `?` and a sign |
| CombinedPattern.FoldedClassIsToken | docs/lib/prettify/prettify.js:2-5 | a folded class is read as one class |
| CombinedPattern.PatternReads | docs/lib/prettify/prettify.js:4-6 | a rewritten pattern, read where it stands, has just the groups, ends, bars, classes and references meant, and an assertion of the start only where another stood behind it, if and only if no token breaks it |
| JoinedPatterns.TokenInPlace | docs/lib/prettify/prettify.js:4-6 | where each token stands in the joined text |
| JoinedPatterns.CombiningKeepsReferences | docs/lib/prettify/prettify.js:4-6 | so has the whole joined text, if and only if no token of any pattern breaks it: none that the caller can see to become syntax, to be met by a digit, or to be a number that JavaScript and the code take differently |
| JoinedPatterns.ReferencesKeepTheirGroups | docs/lib/prettify/prettify.js:4-6 | then every reference stands in its place, and the capturing group it has the number of is the parenthesis it referred to |
| JoinedPatterns.OnlyReferencesRefer | docs/lib/prettify/prettify.js:4-6 | and the joined text has no other escapes with digits, but for zeros that were there |
| JoinedPatterns.CombinedGroups | docs/lib/prettify/prettify.js:4-6 | and it captures exactly as many groups as numbers were handed out |
| BrokenPatterns.ParenthesisEscapeOpensAGroup | docs/lib/prettify/prettify.js:2-4 | the counterexample `\40`, which comes out as a parenthesis |
| BrokenPatterns.SyntaxFromNumber | docs/lib/prettify/prettify.js:2-4 | any number that becomes a parenthesis, a bracket or a bar breaks its pattern |
| BrokenPatterns.CaretBeforeDigit | docs/lib/prettify/prettify.js:4-5 | the counterexample `(a)\1^0` |
| BrokenPatterns.CaretBeforeDigitText | docs/lib/prettify/prettify.js:4-5 | its tokens come out as those of `(a)\10` |
| BrokenPatterns.DigitBehindReference | docs/lib/prettify/prettify.js:2-5 | the counterexample `(a)\1\49` |
| BrokenPatterns.QuestionMarkInGroup | docs/lib/prettify/prettify.js:2-5 | the counterexample `(\63:)\1` |
| BrokenPatterns.ForwardReference | docs/lib/prettify/prettify.js:4 | the counterexample `\1(a)` |
| BrokenPatterns.LeadingZero | docs/lib/prettify/prettify.js:4 | the counterexample `(a)\01` |
| OctalEscapes.NumberKeepsCharacter | docs/lib/prettify/prettify.js:2-4 | a number that is no reference keeps the character it stands for in JavaScript, where it is octal, just if it is below eight and of at most three digits |
| JoinedPatterns.UnescapedMeans | docs/lib/prettify/prettify.js:5 | what is looked through for letters are the units of the source outside escapes, found from left to right |
| JoinedPatterns.MixedMeans | docs/lib/prettify/prettify.js:5 | case must be folded just if some case-sensitive pattern has an ASCII letter among them |
| JoinedPatterns.DecideCase | docs/lib/prettify/prettify.js:5 | the first loop: whether case must be folded, and whether it is ignored, that is if it need not be and some pattern ignores it |
| JoinedPatterns.CombinePatterns | docs/lib/prettify/prettify.js:4-6 | every source is cut into the matches of the token pattern and rewritten with the shared counter, and the pieces are joined to a text that reads as these tokens are meant if and only if none breaks it; a global or multi-line pattern, one with no tokens, or a class that cannot be folded fails |
| TokenReading.ElemsFlagged | docs/lib/prettify/prettify.js:5-6 | what a token accepts is the same with and without the flag just if case matters to none of its characters, sets and references |
| CaseTreatment.PlainKept | docs/lib/prettify/prettify.js:5 | folded text accepts, unit by unit, what it accepted with the flag, just if all that has another case is ASCII letters |
| CaseTreatment.ClassKept | docs/lib/prettify/prettify.js:2-5 | a folded class accepts what it accepted with the flag just if it has all cases of what the class has |
| CaseTreatment.FaithfulClassFolds | docs/lib/prettify/prettify.js:2-5 | for a class read as JavaScript reads it, just if it has all cases of its characters that are not ASCII |
| CaseTreatment.TokenKeeps | docs/lib/prettify/prettify.js:4-6 | a token means in the combined pattern what it meant in its own, with the flag each has, if and only if it is one that keeps it |
| CaseTreatment.ModeIsMethod | docs/lib/prettify/prettify.js:5-6 | which patterns are folded and which get the flag is what the method decides |
| CaseTreatment.CombiningKeepsCase | docs/lib/prettify/prettify.js:4-6 | so do all tokens of all patterns, if and only if all are such |
| CaseExamples.EscapedLetterGetsFlag | docs/lib/prettify/prettify.js:5-6 | the counterexample `/\x41/` beside `/a/i` |
| CaseExamples.EscapedLetterIsNotFolded | docs/lib/prettify/prettify.js:5 | the counterexample `/\x41/i` beside `/a/` |
| CaseExamples.RangeGetsFlag | docs/lib/prettify/prettify.js:5-6 | the counterexample `/[:-_]/` beside `/a/i` |
| CaseExamples.ForeignLetterIsNotFolded | docs/lib/prettify/prettify.js:5 | any letter that is not ASCII, in a pattern that ignores case, beside `/a/` |
| CaseExamples.ReferenceMindsFlag | docs/lib/prettify/prettify.js:4-6 | a back-reference in a pattern that gets the flag or is folded |
| CaseExamples.ControlIsNotFolded | docs/lib/prettify/prettify.js:5 | a `\c` in a pattern that is folded |
| Dom.NocodeMeans | docs/lib/prettify/prettify.js:6 | the class `nocode` is one of the words of the attribute |
| SpanExtraction.EndsLineMeans | docs/lib/prettify/prettify.js:6 | `br` and `li` end a line, in small letters or capitals |
| BlankRuns.NormalMeans | docs/lib/prettify/prettify.js:6 | text that is not preformatted keeps its units other than tab, newline, return and space in order, and has one space between two of them, in front and behind just where one of these four stood |
| BlankRuns.GapsDetermine | docs/lib/prettify/prettify.js:6 | only one text does |
| BlankRuns.UnixMeans | docs/lib/prettify/prettify.js:6 | in preformatted text a return, with a newline behind it or not, is one newline |
| BlankRuns.UnixStays | docs/lib/prettify/prettify.js:6 | and nothing else changes |
| LineTexts.RawOfOne | docs/lib/prettify/prettify.js:6 | the text of a node: its own if it is a text, none inside `nocode`, else that of its children with a newline behind if it ends a line |
| SpanExtraction.SourceMeans | docs/lib/prettify/prettify.js:7 | the source is that text without one final newline |
| SpanExtraction.SpansTile | docs/lib/prettify/prettify.js:6-7 | span starts are 0 and strictly increasing, each the length of the texts before it; the texts are the source up to one final newline |
| SpanExtraction.Extractor.Walk | docs/lib/prettify/prettify.js:6-7 | the traversal of a node appends its texts and spans and advances the length |
| SpanExtraction.ExtractSourceSpans | docs/lib/prettify/prettify.js:6-7 | the whole traversal gives the source and the spans of the tree |
| Decorations.CompactKeepsStyles | docs/lib/prettify/prettify.js:16 | compaction keeps the style at every position of the source; positions increase strictly and neighbours differ |
| Decorations.CompactStartsAtZero | docs/lib/prettify/prettify.js:16 | a list that starts at 0 still does |
| Decorations.DropEmpty | docs/lib/prettify/prettify.js:16 | the first loop over the array, with the sentinel behind it, drops the entries that style nothing |
| Decorations.RunEnd | docs/lib/prettify/prettify.js:16 | the inner scan stops at the end of a run of one style |
| Decorations.DropRepeats | docs/lib/prettify/prettify.js:16 | the second loop keeps the first entry of every run |
| Decorations.CompactInPlace | docs/lib/prettify/prettify.js:16 | both loops in place compute the compacted list |
| Lexer.FindRule | docs/lib/prettify/prettify.js:8 | the loop finds the first rule that matches |
| Lexer.ClassifyMeans | docs/lib/prettify/prettify.js:7-8 | what a token is: the rule of its first character, or the first rule that matches, gives its style; a style that begins with `lang-` embeds the capture, and is `src` without one |
| Lexer.UnmatchedIsPlain | docs/lib/prettify/prettify.js:8 | a token that no rule matches is `pln` |
| Lexer.LangForMeans | docs/lib/prettify/prettify.js:15 | the language named if it is registered, and otherwise that of markup just for a text that begins with `<` |
| Lexer.InnerStart | docs/lib/prettify/prettify.js:8 | the embedded text is the capture where it first occurs, or where it stands in front of the second group; both rests are shorter than the token |
| Lexer.ClassifyCached | docs/lib/prettify/prettify.js:7-8 | looking a token up in the style cache gives what classifying it anew gives; only plain styles are cached |
| Lexer.DecorateCovers | docs/lib/prettify/prettify.js:7-8 | the decorations start at the base, do not decrease and lie within base and base plus length, through embedded languages |
| Lexer.DecorateSays | docs/lib/prettify/prettify.js:7-8 | at every position the style in force is the style of the token there, or the one the embedded language gives it |
| Lexer.StyledTokens | docs/lib/prettify/prettify.js:7-8 | every character of a token that embeds nothing has the token's style |
| Lexer.EmbeddedTokens | docs/lib/prettify/prettify.js:7-8 | the characters of a capture have the styles that its language gives the capture, and those in front and behind the styles of the token's own language |
| Lexer.DecorateOne | docs/lib/prettify/prettify.js:7-8 | what the loop pushes for one token: a style, or prefix, embedded text and suffix |
| Lexer.DecorateSource | docs/lib/prettify/prettify.js:7-8 | the loop with its cache pushes what classifying every token anew would report |
| Recombination.CutMore | docs/lib/prettify/prettify.js:17 | wrapping one more piece keeps that the pieces spell the source and carry the style in force |
| Recombination.WrapExtendsList | docs/lib/prettify/prettify.js:17 | editing the tree at the current text node is the same as extending the list that stands for the original one |
| Recombination.Recombiner.Cut | docs/lib/prettify/prettify.js:17 | the branch that cuts and wraps, which also puts the rest into the span list |
| Recombination.Recombiner.Step | docs/lib/prettify/prettify.js:16-17 | one turn of the two-pointer loop keeps the invariant and moves a cursor on |
| Recombination.Recombiner.Run | docs/lib/prettify/prettify.js:16-17 | the loop ends with every text span cut into pieces that spell its range of the source in the styles in force, and only them replaced |
| Highlighting.GlyphsOfRebuilt | docs/lib/prettify/prettify.js:16-17 | every character of the new document is the expected one, under the same chain of ancestors, the highlighted ones in one new element with the style in force |
| Highlighting.DoneIsRebuilt | docs/lib/prettify/prettify.js:16-17 | what the loop leaves, span by span, is what the whole tree needs |
| TextPreservation.NormalIsStable | docs/lib/prettify/prettify.js:6 | extracting text that was extracted before leaves it alone |
| TextPreservation.TextAfterKept | docs/lib/prettify/prettify.js:6-7 | what the highlighted tree should say is the text, or the text without its final newline |
| TextPreservation.TextOfRebuilt | docs/lib/prettify/prettify.js:16-17 | what it does say is that, unless a style hides some of it: then it is shorter |
| TextPreservation.VisibleHidesNothing | docs/lib/prettify/prettify.js:6 | styles without the class `nocode` hide nothing |
| Pipeline.SpansFit | docs/lib/prettify/prettify.js:6-7 | the spans of a tree meet what the recombination needs of them |
| Pipeline.InputIsValid | docs/lib/prettify/prettify.js:16-17 | so do the spans and the compacted decorations together |
| Pipeline.StylesInForce | docs/lib/prettify/prettify.js:16 | after compaction the style in force at every position is the one the language gives it |
| Pipeline.DecorateAndCompact | docs/lib/prettify/prettify.js:15-16 | choosing the handler, lexing and compacting the array |
| Pipeline.ApplyDecorator | docs/lib/prettify/prettify.js:15-17 | end to end: the characters of the new tree, and that its text is the old one up to the dropped newline, if and only if the languages give no shown character a style with the class `nocode` |
| Pipeline.NocodeStyleLosesText | docs/lib/prettify/prettify.js:15-17 | a document and a language for which the text is lost |
| LineTrees.TextAroundBreak | docs/lib/prettify/prettify.js:13 | a text is what stands before its first line break, the break, and what stands after |
| LineTrees.NoBreakBefore | docs/lib/prettify/prettify.js:13 | nothing in front of the break that the walk finds breaks |
| LineTrees.CutKeepsEvents | docs/lib/prettify/prettify.js:13-14 | the two trees of a cut, with a break between, say what the one said, every character under its chain of ancestors |
| LineTrees.CutKeepsEnd | docs/lib/prettify/prettify.js:13-14 | a cut leaves nothing behind exactly when the break is the last thing there is |
| LineSplitting.LineSplitter.BreakLeftOf | docs/lib/prettify/prettify.js:13-14 | the siblings from the limit on move into copies of its ancestors |
| LineSplitting.LineSplitter.BreakAfter | docs/lib/prettify/prettify.js:14 | what follows a node moves to a new item, and none is made if nothing follows |
| LineSplitting.LineSplitter.BreakAtElement | docs/lib/prettify/prettify.js:13 | at a `br` the item is cut and the `br` removed |
| LineSplitting.LineSplitter.BreakAtText | docs/lib/prettify/prettify.js:13 | at a text the item is cut at its first break, and an emptied text removed |
| LineSplitting.LineSplitter.Walk | docs/lib/prettify/prettify.js:13 | a walk cuts its item at the first break there is, once, or leaves it alone |
| LineSplitting.CutOneItem | docs/lib/prettify/prettify.js:13-14 | a cut keeps what the items say together, and the new tail has fewer breaks |
| LineTexts.CutKeepsRaw | docs/lib/prettify/prettify.js:6-7 | the extraction reads off the two parts of a cut, with a newline between, what it read off the one |
| LineSplitting.LineSplitter.Run | docs/lib/prettify/prettify.js:13-14 | the work list ends; no item holds a break outside `nocode`; joined by breaks the items say what the tree said, with their chains of ancestors, less one final break; so do their texts |
| LineSplitting.NumberLines | docs/lib/prettify/prettify.js:13-15 | the list built: one item a line, its class counting modulo 10 from the start number, none empty; the number the first item is given; and what the extraction reads off the list, against what it read off the tree |
| LineSplitting.ListSays | docs/lib/prettify/prettify.js:6-15 | the text of the numbered list is that of its lines, each with a newline, and one no-break space for an empty line |
| LineSplitting.FullLines | docs/lib/prettify/prettify.js:6-15 | with no empty line it is the text of the lines joined by newlines, and one more |
| WorkQueues.WithLabelKeepsOrder | docs/api/lib/scheduler.js:22-27 | a new label has its place by priority, behind equals, with an empty queue; every other label keeps its queue |
| WorkQueues.WithoutLabelKeepsOrder | docs/api/lib/scheduler.js:29-35 | removing a label removes its queue and no other |
| WorkQueues.WithJobKeepsOrder | docs/api/lib/scheduler.js:48-70 | a job goes to the end of its label's queue and nowhere else |
| WorkQueues.ClearedKeepsOrder | docs/api/lib/scheduler.js:72-74 | clearing empties one queue and leaves the others |
| WorkQueues.DispatchOrder | docs/api/lib/scheduler.js:37-46 | the dispatched job is the oldest of the first nonempty queue by priority and age of label, and nothing else moves |
| Scheduler.Scheduler.IndexOf | docs/api/lib/scheduler.js:76-82 | the loop finds the first label of the name |
| Scheduler.Scheduler.AddLabel | docs/api/lib/scheduler.js:22-27 | the loop and the two insertions |
| Scheduler.Scheduler.ClearLabel | docs/api/lib/scheduler.js:29-35 | the two removals, or nothing for an unknown label |
| Scheduler.Scheduler.NextWork | docs/api/lib/scheduler.js:37-46 | takes the first job of the first nonempty queue |
| Scheduler.Scheduler.Add | docs/api/lib/scheduler.js:48-70 | queues the job and asks for a timer if there is none; throws for an unknown label |
| Scheduler.Scheduler.Clear | docs/api/lib/scheduler.js:72-74 | empties the queue of the label |
| Scheduler.Scheduler.QueueEmpty | docs/api/lib/scheduler.js:84-90 | whether the label's queue is empty; throws for an unknown label |
| Scheduler.Scheduler.NumberOfJobs | docs/api/lib/scheduler.js:102-107 | the length of the label's queue; throws for an unknown label |
| Scheduler.Scheduler.OnTimer | docs/api/lib/scheduler.js:50-60 | the callback: runs one job and asks for the next timer, or clears `timeout`; a job that throws skips both |
| SchedulerRuns.CommandMeans | docs/api/lib/scheduler.js:22-82 | what each command does to labels, queues and timer, and when it throws |
| SchedulerRuns.ExecInTurn | docs/api/lib/scheduler.js:50-60 | commands are executed in turn, up to the first that throws |
| SchedulerRuns.RunKeeps | docs/api/lib/scheduler.js:22-82 | whatever jobs and user code do, labels and queues stay parallel and in order, every job is accounted for, and the timer is the one remembered |
| SchedulerRuns.OneTimer | docs/api/lib/scheduler.js:48-66 | never two timers; waiting work has one if and only if no job has thrown |
| SchedulerRuns.EachJobOnce | docs/api/lib/scheduler.js:37-70 | a job added is either run once, or waiting, or dropped by clearing; when nothing waits it has run unless it was dropped |
| SchedulerRuns.ThrowStalls | docs/api/lib/scheduler.js:50-60 | after a throw no job ever runs again |
| SchedulerRuns.ThrowReached | docs/api/lib/scheduler.js:50-60 | a run from the start that throws with work waiting |
| SchedulerRuns.FireLoad | docs/api/lib/scheduler.js:50-60 | with finitely spawning jobs every dispatch lightens the load |
| SchedulerRuns.Drains | docs/api/lib/scheduler.js:48-70 | left alone, with such jobs and none that throws, it becomes idle after one firing a job and one more, all jobs run that were waiting or added since, less the dropped |
| SchedulerRuns.JobsBounded | docs/api/lib/scheduler.js:48-70 | with any interleaving of user code the jobs run are bounded by what user code asked for |
| ScheduleLast.Schedule | docs/api/lib/scheduler.js:92-100 | executes the function if the label's queue is empty, queues the request if it is not, throws for an unknown label |
| ScheduleLast.RequestExecutes | docs/api/lib/scheduler.js:92-100 | the firing of a request whose label's queue is empty otherwise executes its function |
| ScheduleLast.OthersExecute | docs/api/lib/scheduler.js:50-100 | an ordinary job is executed, and any other request only queued again |
| ScheduleLast.TwoRequestsStarve | docs/api/lib/scheduler.js:92-100 | while two requests for a label are outstanding none of the label's is ever called, whatever else happens, and both stay |
| ScheduleLast.TwoRequestsReached | docs/api/lib/scheduler.js:92-100 | a run from the start that reaches two requests |
| ScheduleLast.FireCalm | docs/api/lib/scheduler.js:92-100 | while no label holds two requests, a firing calls one of them, or comes closer to it |
| ScheduleLast.EachRequestCalledOnce | docs/api/lib/scheduler.js:92-100 | with at most one request a label, on any number of labels, and finitely spawning jobs, every function is executed exactly once, with its queue empty |
| ScheduleLast.AllCalledIffOneEach | docs/api/lib/scheduler.js:92-100 | the function of every outstanding request is executed if and only if no label holds two |
| ChunkedSearch.LeftStep | docs/api/lib/index.js:291-315 | the queue of a search goes on as planned: packages first, then for each its members and its results |
| ChunkedSearch.SearchJob | docs/api/lib/index.js:291-315 | a search job's commands and its effect on the page make one step of the plan |
| ChunkedSearch.SearchedKeeps | docs/api/lib/index.js:535-582 | a new search replaces the whole plan |
| ChunkedSearch.AppStepKeeps | docs/api/lib/index.js:291-315 | searches, other user code and firings in any order keep to the plan |
| SearchRuns.EverySearchRun | docs/api/lib/index.js:535-582 | so does every state it can reach |
| Texts.TextLeqMeans | docs/api/lib/index.js:578-581 | the order of the keys: by the first unit that differs, a beginning first |
| SearchRuns.DirectSearchMeans | docs/api/lib/index.js:576-582 | the direct search visits every key in sorted order and finds exactly the matching entities, in the order of the index |
| SearchRuns.DirectSearchFinds | docs/api/lib/index.js:273-305 | with the compiled patterns: for a plain query the entities whose name contains it, and for any other some name is wrongly found or missed |
| SearchRuns.TypedIsInForce | docs/api/lib/index.js:535-582 | in every run a search is in force just if the text typed last is not blank and compiles, and then for that text, trimmed |
| SearchRuns.SearchRefinesDirect | docs/api/lib/index.js:406-434 | then the results shown are a prefix of those of the direct search for that text, and all of them once no search job waits |
| SearchRuns.NoStaleJob | docs/api/lib/index.js:535-545 | after a restart no job of an older search runs, and the jobs search for the text typed last |
| SearchRuns.ProgressShown | docs/api/lib/index.js:601-616 | the percentages: 2(p-k) of max(1, 2p-2) left after the k-th package, rising, within 0..100, 100 for the last only |
| SearchRuns.SearchEnds | docs/api/lib/index.js:535-582 | left alone the page ends with the results of the direct search for the text typed last |
| SearchPage.SearchPage.SearchAll | docs/api/lib/index.js:535-582 | clears the queue and the lists and adds a job for every sorted key; a query that does not compile throws before that |
| SearchPage.SearchPage.Partition | docs/api/lib/index.js:301-303 | the loop that sorts entities into matching and not matching |
| SearchPage.SearchPage.PackageJob | docs/api/lib/index.js:292-314 | the package's job adds the members' job, then the results' job |
| SearchPage.SearchPage.SetProgress | docs/api/lib/index.js:601-616 | the new maximum and the percentage shown |
| SearchPage.SearchPage.HandleJob | docs/api/lib/index.js:310-313 | results first, then progress |
| Texts.TrimMeans | docs/api/lib/index.js:538 | trimming takes all spaces off both ends and nothing else |
| QueryCompilers.FilterParses | docs/api/lib/template.js:433-434 | the pattern built from any query is well formed: one literal alternative a term |
| QueryCompilers.FilterMatches | docs/api/lib/template.js:432-434 | it matches a text just if some term of the lower-cased trimmed input is a substring, whatever the case |
| QueryCompilers.FilterMatchesTyped | docs/api/lib/template.js:432-434 | it matches just the texts with a term as typed if and only if the typed and the lower-cased terms cover each other; so where lower-casing changes only case |
| QueryCompilers.DottedIsNotFound | docs/api/lib/template.js:432-434 | the counterexample U+0130 |
| QueryCompilers.KelvinIsNotFound | docs/api/lib/template.js:432-434 | the counterexample U+212A |
| QueryCompilers.TermsMean | docs/api/lib/template.js:433 | the terms are the query without its white space, none empty |
| QueryCompilers.TermsSplit | docs/api/lib/template.js:433 | the query is its terms with some white space, and nothing else, between one and the next |
| SearchPattern.PatternParses | docs/api/lib/index.js:274-282 | any query compiles to one alternative of literals, lead-ins, anchors and counted characters as it reads, or to an error where a count repeats nothing or goes from more to less |
| PlainQueries.Cropped | docs/api/lib/index.js:273-284 | what a pattern matches inside a text it matches alone |
| PlainQueries.SpelledRuns | docs/api/lib/index.js:273-284 | what a query's pattern spells out has no more runs of characters than the query, and fewer unless the query is plain |
| PlainQueries.LowerCaseSearch | docs/api/lib/index.js:281-283 | the lower-case branch finds just the names that contain the query, whatever the case, if and only if the query has no `^`, no `$` and no count in braces |
| PlainQueries.MixedCaseSearch | docs/api/lib/index.js:276-280 | the other branch finds just the names in which the query occurs with lower-case letters inserted in front of its capitals, if and only if it has none of these; so all that contain it literally |
| PlainQueries.CountFindsOther | docs/api/lib/index.js:274-283 | the counterexample `a{2}` |
| MemberFilter.OwnerMeans | docs/api/lib/template.js:503-507 | what the owner is: before the first `#`, else before the last dot, else the name without its last character |
| MemberFilter.Hides | docs/api/lib/template.js:508-519 | the loops find the owner among the hidden ones just if it is there |
| MemberFilter.FilterItem | docs/api/lib/template.js:487-528 | an item is left showing just if it passes every test |
| MemberFilter.MemberList.Filter | docs/api/lib/template.js:484-535 | every item of the list accordingly, and the list is shown just if some item is |
| MemberFilter.ShownMeans | docs/api/lib/template.js:432-528 | in terms of what was typed, in lower case: access level, owner, and some term in the name or the comment |
| MemberFilter.ShownMeansTyped | docs/api/lib/template.js:432-528 | so it is for the terms as typed if and only if the filter finds them; otherwise there is a text with which members are wrongly shown or hidden |

## Left out

- CharClass.CaseFoldCharset: an escape whose digits are missing gives `NaN` in the source, which goes on, with an order that its comparator leaves to the engine; here it is an error, reported by LetterIsNoNumber. An empty class, which makes the source throw, is an error too.
- ClassFolding.FoldClassMeans: for classes that the `RegExp` constructor accepts. Which of the classes that are not read alike come out right nonetheless is decided by comparing canonical ranges, not by their form.
- JoinedPatterns.CombiningKeepsReferences: about groups, alternatives, classes and references. Patterns are those of ECMAScript 5: named groups and lookbehind, which are newer than the script, are not told from capturing groups. Operators that numbers turn into, and quantifiers, have no marks. Numerals have no upper bound.
- CaseTreatment.CombiningKeepsCase: token by token; that the tokens stand in the joined text as they stand alone is JoinedPatterns.CombiningKeepsReferences. Groups and the assertions that are dropped are left aside, what operators mean is not modelled, and case folding is any function that is right on ASCII.
- CaseTreatment.ClassKept: for a class that is not read alike, whether it comes out right is decided by comparing sets.
- Lexer.InnerStart: a rule with a second group is one whose first group ends where the second begins, at the end of the token, as the source assumes.
- Lexer.DecorateCovers: tokenisers and rules are functions; every token is nonempty and the tokens concatenate to the source; a handler of its own is assumed to meet the position contract; nested languages are assumed to have a well-founded order where a token is the whole source, as the source would recurse forever without.
- Recombination.Document.WrapPiece: the calls that replace the node, append it to the `span` and insert the rest are one replacement in the tree.
- Recombination.Recombiner.Run: the tree is a value with node identities, so moving one node object to two places is not modelled; neither are the Internet Explorer newline and the display toggle. The same holds for line splitting.
- LineSplitting.LineSplitter.Run: its second statement, on texts, is for trees in which every element that ends a line for the extraction is a `br` in lower case without text; in the first, children of a `br` are no text. The source compares with lower-case `br` only, while the extraction lower-cases names first, and the model follows both.
- LineSplitting.NumberLines: node attributes other than the class and the number of the first item, which is returned beside the list.
- SchedulerRuns.Drains: assumes that no job throws, and a bound on the jobs each job leads to.
- ScheduleLast.AllCalledIffOneEach: jobs may add jobs, ask, and clear other labels than those with requests; jobs that add or remove labels, make requests themselves or throw are not covered. The same holds for EachRequestCalledOnce.
- SearchRuns.EverySearchRun: other jobs and user code leave the search label alone and add no labels, as the page does.
- PlainQueries.LowerCaseSearch: the case folding of the engine is a function that keeps anchors, braces and digits apart from everything else.
- QueryCompilers.FilterMatches: `toLowerCase` is any function.
- MemberFilter.MemberList.Filter: one list; which lists are filtered, the hiding of empty groups and where the hidden classes come from are left out.
- The regular expression engine and the keyword tables of the languages.
- The search of members by promises, keyboard navigation, `insertSorted` (no caller), browser history, animation, jQuery.
- The page driver `prettyPrint`: time slicing and page scanning only.
- The Scala client: this model is about the JavaScript of the site.
