# Verified models of the Google Test sources and the MMIO stress program

This project models the parts of the repository in which behaviour is decided by algorithms rather than by
devices, and proves what they promise: the simple regular expressions, the Pump meta-programming language, death
tests, the printer of char arrays, the shuffle, file paths, the prime number samples and the fusing script of
Google Test 1.7.0, and the threaded MMIO stress program. `dafny verify dfyconfig.toml` checks all of it.

| component | files |
|---|---|
| simple regular expressions: grammar, validator, denotation, matcher, words written out | `SimpleRegex.dfy`, `RegexMatcher.dfy`, `RegexWords.dfy` |
| Pump: comments, lines and cursors, patterns, parentheses, tokenizer, layout of tokens | `PumpComments.dfy`, `PumpLines.dfy`, `PumpPatterns.dfy`, `PumpParens.dfy`, `PumpTokenizer.dfy`, `PumpTokenLayout.dfy`, `PumpTokenText.dfy` |
| Pump: trees, parser, unparser, semantics, evaluator, whole programs | `PumpSyntax.dfy`, `PumpParser.dfy`, `PumpUnparser.dfy`, `PumpSemantics.dfy`, `PumpBigStep.dfy`, `PumpEvaluator.dfy`, `PumpProgram.dfy` |
| Pump: what the parser leaves over, printing parsed trees, three programs | `PumpLeftover.dfy`, `PumpReprint.dfy`, `PumpExamples.dfy` |
| printer of char arrays, and a reader of C string literals | `StringPrinter.dfy` |
| death tests: the protocol over the pipe, the selection of one test in the child | `DeathTestProtocol.dfy`, `DeathTestSelection.dfy` |
| shuffle | `Shuffling.dfy` |
| fusing of headers, the order of the output, the scripts | `HeaderFusion.dfy`, `FusionOrder.dfy`, `FusionScripts.dfy`, `IncludeLines.dfy` |
| prime tables and samples, and the primality of the largest int | `PrimeTables.dfy`, `LargestPrime.dfy` |
| file paths, file names, directories | `FilePaths.dfy`, `FileNames.dfy`, `Directories.dfy` |
| MMIO workers, ranges and interleavings | `MmioStress.dfy` |
| character sets, numerals, Python strings, C types, Option and Result | `CharacterSets.dfy`, `Numerals.dfy`, `PythonText.dfy`, `CTypes.dfy`, `Wrappers.dfy` |

Code that updates state is a class or a method with loops, proved against a function on values; the promises are
lemmas about that function. Concurrent parts are state machines over their steps, and the lemmas speak of every
run. System calls, clocks and randomness are parameters: what `fork`, `read` and `waitpid` answer, which paths
`mkdir` refuses, which files exist, what Python's `eval` gives.

## What the code does differently

Where the code falls short of what it or its documentation says, the model follows the code, and the exact
condition is proved.

- `RE::Init` looks at the last character only: a pattern that ends in `\$` gets no end anchor
  (`FullMatchIsMembershipIff`).
- A NUL is printed as `\0` even in front of an octal digit, which changes what the literal stands for
  (`LiteralIsFaithfulIff`); the printed arrays still differ from each other (`PrintedArrayInjective`).
- Pump's parser drops blank code behind an `$if` without an else branch (`RoundTripIff`), and ignores everything
  behind a stray `]]`, `$else` or `$elif` (`NothingIsLeftIff`; `StrayBracketEndsProgram` has a program).
- Pump's comment stripping means to take lines that are nothing but comments out whole. At the start of the text it
  leaves an empty line if there are two or more (`LeadingCommentLines`); behind text it takes the empty lines in
  front of them too (`InnerCommentLines`).
- A Pump `$range` on the last line of the text raises an IndexError (`RangeNeedsNextLine`; `RangeOnLastLine` has a
  program). A lone `$` does not insist on an opening parenthesis (`TokenIsBalancedIff`;
  `UnopenedExpression` has a program).
- A child that is killed between entering Abort and writing its byte counts as dead (`OutcomeIsExact`;
  `KilledInsideAbort` has a run).
- A file name with a bar in it spoils the flag for the child (`FlagRoundTripIff`).
- ParseNaturalNumber means to reject numbers that do not fit, but takes the numbers within 2^31 below 2^64 for
  negative ones (`ParsedNumberIsTheOneWrittenIff`).
- OnTheFlyPrimeTable::IsPrime overflows an int exactly on the primes from 46340 squared on
  (`OnTheFlyPrimeTable.IsPrime`), of which the largest int is one (`LargestIntIsPrime`), and Factorial from 13 on
  (`FactorialFitsIff`). GetNextPrime promises the next prime above any number, but gives -1 for negative ones, and
  the hybrid table differs from it at -1 (`OnTheFlyPrimeTable.GetNextPrime`, `HybridPrimeTable.GetNextPrime`).
- The comments on RemoveFileName promise "./" for "/a_file"; the code gives "/" (`FileInRoot`).
- CreateDirectoriesRecursively ends exactly if some path on its way up is a directory (`EndsIff`); without a
  current directory it need not (`NoCurrentDirectory`).

## Model

| member | source | states |
|---|---|---|
| SimpleRegex.PunctuationSet | test_afus/gtest/SW/gtest-1.7.0/src/gtest-port.cc:211-213 | the character ranges used for punctuation are exactly the string of 32 characters that the code searches |
| SimpleRegex.ParseInvertsText | test_afus/gtest/SW/gtest-1.7.0/src/gtest-port.cc:257-311 | reading a pattern and writing a well-formed tree are inverse to each other, in both directions: the grammar is unambiguous |
| SimpleRegex.ParseDecidesGrammar | test_afus/gtest/SW/gtest-1.7.0/src/gtest-port.cc:257-311 | the readable texts are exactly those generated by `^`? (atom repeat?)* `$`? |
| SimpleRegex.ValidateRegex | test_afus/gtest/SW/gtest-1.7.0/src/gtest-port.cc:257-311 | the validator loop accepts exactly the texts of that grammar, and rejects NULL |
| RegexMatcher.PowerOfAtom | test_afus/gtest/SW/gtest-1.7.0/src/gtest-port.cc:228-247 | the n-fold concatenation of an atom is the set of words of length n all of whose characters match it |
| RegexMatcher.ItemIsRun | test_afus/gtest/SW/gtest-1.7.0/src/gtest-port.cc:313-342 | an atom with its repetition denotes exactly the runs of matching characters whose length the repetition allows |
| RegexMatcher.MatchesPrefixStep | test_afus/gtest/SW/gtest-1.7.0/src/gtest-port.cc:320-373 | a tail of a pattern matches a prefix exactly when the rest of it matches behind an allowed run of its first atom |
| RegexMatcher.TailOfStep | test_afus/gtest/SW/gtest-1.7.0/src/gtest-port.cc:347-373 | what the matcher recurses on is again a valid tail, with the tree that is left, so no invalid escape is reached and nothing behind the terminator is read |
| RegexMatcher.MatchRepetitionAndRegexAtHead | test_afus/gtest/SW/gtest-1.7.0/src/gtest-port.cc:320-342 | true exactly when the rest of the pattern matches behind some allowed number of repetitions |
| RegexMatcher.MatchRegexAtHead | test_afus/gtest/SW/gtest-1.7.0/src/gtest-port.cc:347-373 | true exactly when some prefix of the string is in the language of the pattern, all of the string under a final `$` |
| RegexMatcher.SubstringIsSearch | test_afus/gtest/SW/gtest-1.7.0/src/gtest-port.cc:383-396 | membership of some substring is a prefix match of some suffix, or of the whole string under `^` |
| RegexMatcher.MatchRegexAnywhere | test_afus/gtest/SW/gtest-1.7.0/src/gtest-port.cc:383-396 | true exactly when some substring, pinned by the anchors, is in the language |
| RegexMatcher.FullPatternParses | test_afus/gtest/SW/gtest-1.7.0/src/gtest-port.cc:436-447 | the pattern built for full matches is valid, and its tree has both anchors unless the pattern ends in an escaped dollar |
| RegexMatcher.RE.Init | test_afus/gtest/SW/gtest-1.7.0/src/gtest-port.cc:417-448 | the object holds the pattern, whether it is valid, and the pattern for full matches |
| RegexMatcher.RE.FullMatch | test_afus/gtest/SW/gtest-1.7.0/src/gtest-port.cc:406-408 | false for an invalid pattern, otherwise the match of the fully anchored tree |
| RegexMatcher.RE.PartialMatch | test_afus/gtest/SW/gtest-1.7.0/src/gtest-port.cc:412-414 | true exactly when the pattern is valid and some substring is in its language |
| RegexMatcher.LanguageInhabited | test_afus/gtest/SW/gtest-1.7.0/src/gtest-port.cc:257-311 | every valid pattern matches some string |
| RegexMatcher.WholeStringMatch | test_afus/gtest/SW/gtest-1.7.0/src/gtest-port.cc:406-448 | a full match is membership of the whole string, unless the pattern ends in an escaped dollar |
| RegexMatcher.EscapedDollarOvermatches | test_afus/gtest/SW/gtest-1.7.0/src/gtest-port.cc:436-447 | every pattern that ends in an escaped dollar fully matches some string outside its language |
| RegexMatcher.FullMatchIsMembershipIff | test_afus/gtest/SW/gtest-1.7.0/src/gtest-port.cc:406-448 | FullMatch decides membership for all strings if and only if the last token is not an escaped dollar |
| RegexWords.EscapesAre | test_afus/gtest/SW/gtest-1.7.0/src/gtest-port.cc:222-224 | the escapes are those of the 32 punctuation characters and of the letters dDfnrsStvwW |
| RegexWords.PlainAtomsAre | test_afus/gtest/SW/gtest-1.7.0/src/gtest-port.cc:286-303 | the atoms that need no escape are all characters but the terminator and \ ^ $ ? * + ( ) [ ] { } \| |
| RegexWords.DotDenotes | test_afus/gtest/SW/gtest-1.7.0/src/gtest-port.cc:246 | an unescaped dot denotes every character but the newline |
| RegexWords.PlainDenotes | test_afus/gtest/SW/gtest-1.7.0/src/gtest-port.cc:246 | any other plain character denotes itself |
| RegexWords.DigitsDenote | test_afus/gtest/SW/gtest-1.7.0/src/gtest-port.cc:231-232 | `\d` denotes the ten digits and `\D` all other characters |
| RegexWords.WhiteSpaceDenotes | test_afus/gtest/SW/gtest-1.7.0/src/gtest-port.cc:236-237 | `\s` denotes the six white space characters and `\S` all others |
| RegexWords.WordCharactersDenote | test_afus/gtest/SW/gtest-1.7.0/src/gtest-port.cc:240-241 | `\w` denotes letters, digits and the underscore, and `\W` all other characters |
| RegexWords.ControlsDenote | test_afus/gtest/SW/gtest-1.7.0/src/gtest-port.cc:233-239 | `\f`, `\n`, `\r`, `\t` and `\v` denote one control character each |
| RegexWords.PunctuationDenotes | test_afus/gtest/SW/gtest-1.7.0/src/gtest-port.cc:243 | escaped punctuation denotes itself |
| RegexWords.RepeatsDenote | test_afus/gtest/SW/gtest-1.7.0/src/gtest-port.cc:320-342 | `?` allows at most one word of the atom, `*` any number and `+` at least one; any other character does not repeat |
| RegexWords.PlainPatternIsSubstring | test_afus/gtest/SW/gtest-1.7.0/src/gtest-port.cc:383-396 | a pattern without special characters matches exactly the strings that contain it, at the start and at the end where its anchors say so |
| RegexWords.PlainFullMatchIsEquality | test_afus/gtest/SW/gtest-1.7.0/src/gtest-port.cc:406-448 | and it fully matches itself only |
| PumpLines.SplitLinesKeepsText | test_afus/gtest/SW/gtest-1.7.0/scripts/pump.py:382-387 | the lines of a text join to the text, and a newline stands only at the end of a line |
| PumpLines.SplitLinesIff | test_afus/gtest/SW/gtest-1.7.0/scripts/pump.py:385 | the lines are the only ones that join to the text, all but the last end with a line break, and have no line break in front of their end |
| PumpLines.SubStringIsSlice | test_afus/gtest/SW/gtest-1.7.0/scripts/pump.py:208-223 | the substring between two cursors is the slice of the text between their offsets, across any number of lines |
| PumpPatterns.KeywordIffWord | test_afus/gtest/SW/gtest-1.7.0/scripts/pump.py:72-79 | the expression for a keyword matches exactly where the whole word behind the dollar is the keyword and white space follows |
| PumpPatterns.EntryIsFirst | test_afus/gtest/SW/gtest-1.7.0/scripts/pump.py:72-84 | some entry of the table matches exactly at a dollar, `[[` or `]]`, and the first that does is told by the word behind the dollar |
| PumpPatterns.RestOfLineIsShortest | test_afus/gtest/SW/gtest-1.7.0/scripts/pump.py:255 | the lazy expression for the rest of a line stops at the first line end or comment, and not before |
| PumpPatterns.FindDotsIsLeftmost | test_afus/gtest/SW/gtest-1.7.0/scripts/pump.py:258 | the two dots that are found are the leftmost |
| PumpPatterns.FindFirstInLine | test_afus/gtest/SW/gtest-1.7.0/scripts/pump.py:169-183 | the loop over the table finds the leftmost match of any entry, on a tie that of the earliest entry, with its length |
| PumpPatterns.BestIsFirstMarker | test_afus/gtest/SW/gtest-1.7.0/scripts/pump.py:169-183 | what the loop finds for the whole table is the first marker of the line, under the entry that stands for it |
| PumpParens.ParseSkipsBalanced | test_afus/gtest/SW/gtest-1.7.0/scripts/pump.py:289-296 | the recursive scanner skips exactly what a depth counter skips, at every depth |
| PumpParens.ParseIsDepthCounter | test_afus/gtest/SW/gtest-1.7.0/scripts/pump.py:281-300 | the recursive scanner stops exactly where a depth counter does and fails exactly where that runs into the end of the line |
| PumpParens.ParseInParensIff | test_afus/gtest/SW/gtest-1.7.0/scripts/pump.py:282-300 | behind white space and `(` the token is the shortest prefix with as many closing as opening parentheses, otherwise the shortest with one closing parenthesis more, and there is none exactly if there is no such prefix |
| PumpParens.TokenIsBalancedIff | test_afus/gtest/SW/gtest-1.7.0/scripts/pump.py:282-287 | the token is balanced if and only if an opening parenthesis follows the optional white space |
| PumpParens.UnopenedToken | test_afus/gtest/SW/gtest-1.7.0/scripts/pump.py:282-287 | the token at the start of `1)` is all of it |
| PumpTokenizer.FindFirst | test_afus/gtest/SW/gtest-1.7.0/scripts/pump.py:186-205 | the loop over lines returns the first marker from the cursor on, with its cursors and value, or none |
| PumpTokenizer.MarkerAdvances | test_afus/gtest/SW/gtest-1.7.0/scripts/pump.py:310-379 | no marker is empty, so every round of the generator gets strictly further |
| PumpTokenizer.TokenizeVar | test_afus/gtest/SW/gtest-1.7.0/scripts/pump.py:324-339 | what a round yields for `$var` is what the automaton reads, up to the same error |
| PumpTokenizer.TokenizeFor | test_afus/gtest/SW/gtest-1.7.0/scripts/pump.py:340-346 | the same for `$for` |
| PumpTokenizer.TokenizeRange | test_afus/gtest/SW/gtest-1.7.0/scripts/pump.py:347-361 | the same for `$range` |
| PumpTokenizer.TokenizeExp | test_afus/gtest/SW/gtest-1.7.0/scripts/pump.py:362-368 | the same for a lone dollar and its parenthesised expression |
| PumpTokenizer.TokenizeLines | test_afus/gtest/SW/gtest-1.7.0/scripts/pump.py:310-379 | the generator ends, and its tokens are exactly those of the automaton up to the end of the text or the same error |
| PumpTokenLayout.TokensAreSlices | test_afus/gtest/SW/gtest-1.7.0/scripts/pump.py:208-223 | every token is the slice of the text between its cursors; code may have lost one newline at its end |
| PumpTokenLayout.TokensFollow | test_afus/gtest/SW/gtest-1.7.0/scripts/pump.py:310-379 | successive tokens are in order, do not overlap, and have only white space or a comment between them |
| PumpTokenLayout.CodeIsPlain | test_afus/gtest/SW/gtest-1.7.0/scripts/pump.py:186-205 | no marker begins anywhere within a token of plain code |
| PumpTokenLayout.MarkersAreWhole | test_afus/gtest/SW/gtest-1.7.0/scripts/pump.py:169-205 | a marker token is the whole match of the first entry of the table that matches where it begins |
| PumpTokenLayout.TokensKeepText | test_afus/gtest/SW/gtest-1.7.0/scripts/pump.py:310-379 | up to white space, the values of the tokens are the text up to the end of the last of them |
| PumpTokenLayout.Tokenize | test_afus/gtest/SW/gtest-1.7.0/scripts/pump.py:382-387 | a text without comments is kept by its tokens up to white space, unless an error ends the tokenizer |
| PumpTokenLayout.RangeNeedsNextLine | test_afus/gtest/SW/gtest-1.7.0/scripts/pump.py:355-361 | a range fails with an IndexError exactly when it is on the last line |
| PumpTokenText.StripsNewlineIff | test_afus/gtest/SW/gtest-1.7.0/scripts/pump.py:324-379 | the markers that take the newline in front of them are `]]` and the spaced words var, for, range, if, elif and else behind a dollar |
| PumpTokenText.TokensRead | test_afus/gtest/SW/gtest-1.7.0/scripts/pump.py:72-84 | what each token is, by the characters of its line: keywords with all white space behind them, identifiers up to their end, brackets with one newline, definitions up to a comment, bounds up to the dots or the line end, code up to the next marker |
| PumpTokenText.CodeLosesNewlineIff | test_afus/gtest/SW/gtest-1.7.0/scripts/pump.py:303-379 | code loses a newline if and only if it ends with one and such a marker follows; otherwise it is its slice |
| PumpTokenText.TokensStart | test_afus/gtest/SW/gtest-1.7.0/scripts/pump.py:310-379 | where each token starts: behind the name of a loop one white space character is skipped, behind other names and `=` all of it, behind a definition the line, else nothing |
| PumpTokenText.TypesFollow | test_afus/gtest/SW/gtest-1.7.0/scripts/pump.py:310-379 | the type of a token by those of the two in front of it |
| PumpTokenText.FailsIff | test_afus/gtest/SW/gtest-1.7.0/scripts/pump.py:236-300 | an error ends the tokenizer exactly where what the construct asks for is not there, and which error it is |
| PumpExamples.UnopenedExpression | test_afus/gtest/SW/gtest-1.7.0/scripts/pump.py:362-368 | the program `$1)` is read as the expression `1)` |
| PumpExamples.RangeOnLastLine | test_afus/gtest/SW/gtest-1.7.0/scripts/pump.py:355-361 | the program `$range i 1..3` is an IndexError |
| PumpParser.ReadsCode | test_afus/gtest/SW/gtest-1.7.0/scripts/pump.py:475-574 | every legal derivation of the grammar is read back as its tree, with exactly its tokens consumed |
| PumpParser.CodeDerivation | test_afus/gtest/SW/gtest-1.7.0/scripts/pump.py:475-574 | everything that is read has a legal derivation |
| PumpParser.ReadCodeIsDerivation | test_afus/gtest/SW/gtest-1.7.0/scripts/pump.py:475-574 | a token list is parsed to a tree with a rest left over if and only if the grammar derives it so and no ATOMIC_CODE can start at the rest |
| PumpParser.TokenList.PopFront | test_afus/gtest/SW/gtest-1.7.0/scripts/pump.py:443-446 | the first token is removed and returned; an empty list is an IndexError |
| PumpParser.TokenList.PushFront | test_afus/gtest/SW/gtest-1.7.0/scripts/pump.py:449-450 | the element is in front of the old list |
| PumpParser.TokenList.PopToken | test_afus/gtest/SW/gtest-1.7.0/scripts/pump.py:453-460 | the first token is removed if it has the expected type, otherwise the program ends |
| PumpParser.TokenList.PeekToken | test_afus/gtest/SW/gtest-1.7.0/scripts/pump.py:463-467 | the first token or none, the list unchanged |
| PumpParser.TokenList.ParseElseNode | test_afus/gtest/SW/gtest-1.7.0/scripts/pump.py:475-500 | on the shared list, the outcome and what is left are those of the reading function |
| PumpParser.TokenList.ParseAtomicCodeNode | test_afus/gtest/SW/gtest-1.7.0/scripts/pump.py:503-561 | the same for ATOMIC_CODE |
| PumpParser.TokenList.ParseCodeNode | test_afus/gtest/SW/gtest-1.7.0/scripts/pump.py:564-574 | the same for CODE; with ReadCodeIsDerivation this is the grammar |
| PumpUnparser.ReadsPrinted | test_afus/gtest/SW/gtest-1.7.0/scripts/pump.py:475-574 | parsing the tokens of any tree gives the tree without the blank raw code that ParseElseNode swallows |
| PumpUnparser.SwallowAllIsIdentityIff | test_afus/gtest/SW/gtest-1.7.0/scripts/pump.py:475-500 | nothing is swallowed if and only if no blank raw code stands right behind an else-less `$if`, at any depth |
| PumpUnparser.RoundTripIff | test_afus/gtest/SW/gtest-1.7.0/scripts/pump.py:475-574 | parsing undoes printing if and only if no blank raw code stands right behind an else-less `$if` |
| PumpReprint.ParsedTreesSurvive | test_afus/gtest/SW/gtest-1.7.0/scripts/pump.py:475-574 | no tree that the parser returns has blank raw code right behind an else-less `$if` |
| PumpReprint.ParsedTreesComeBack | test_afus/gtest/SW/gtest-1.7.0/scripts/pump.py:475-574 | every tree that the parser returns for tokens with no blank marker is returned again for its printed tokens |
| PumpReprint.TextTreesComeBack | test_afus/gtest/SW/gtest-1.7.0/scripts/pump.py:475-581 | the tree of every text that parses is returned again for its printed tokens |
| PumpLeftover.ScanCode | test_afus/gtest/SW/gtest-1.7.0/scripts/pump.py:475-574 | the tokens of every legal code pass the scan for stray tokens and leave it with the same brackets open and no else branch in sight |
| PumpLeftover.RestBegins | test_afus/gtest/SW/gtest-1.7.0/scripts/pump.py:564-574 | what the parser leaves over of a text begins with `]]`, `$else` or `$elif` |
| PumpLeftover.NothingIsLeftIff | test_afus/gtest/SW/gtest-1.7.0/scripts/pump.py:564-581 | for the tokens of a text that parse, nothing is left over if and only if no prefix closes more brackets than it opens and outside of brackets no `$else` or `$elif` lacks its `$if` |
| PumpExamples.StrayBracketEndsProgram | test_afus/gtest/SW/gtest-1.7.0/scripts/pump.py:564-581 | of the program `a]]b` only `a` is read, and there is no error |
| PumpSemantics.StoreKeepsText | test_afus/gtest/SW/gtest-1.7.0/scripts/pump.py:595-603 | storing a value as an int never changes what is printed, and it happens exactly for the numerals of ints |
| PumpSemantics.PyIntIff | test_afus/gtest/SW/gtest-1.7.0/scripts/pump.py:595-603 | a string is read as an int exactly if it is digits behind an optional sign, between white space |
| Numerals.DigitsIff | test_afus/gtest/SW/gtest-1.7.0/scripts/pump.py:600 | the numeral of a number is the one string of digits without leading zeros that stands for it |
| Numerals.NumberFromLeft | test_afus/gtest/SW/gtest-1.7.0/scripts/pump.py:600 | the first digit of a numeral counts its power of ten |
| PythonText.StripIff | test_afus/gtest/SW/gtest-1.7.0/scripts/pump.py:644-665 | `strip` gives the one text between blanks that neither begins nor ends with white space |
| PumpBigStep.TruthOfStored | test_afus/gtest/SW/gtest-1.7.0/scripts/pump.py:684-685 | what `$var` binds is false in a condition exactly if its text is empty or 0 |
| PumpBigStep.DenoteIff | test_afus/gtest/SW/gtest-1.7.0/scripts/pump.py:642-699 | a tree has a meaning, a text with a scope or an error, if and only if a derivation by one rule for each kind of node concludes it |
| PumpBigStep.DenoteCodeIff | test_afus/gtest/SW/gtest-1.7.0/scripts/pump.py:702-704 | the same for code |
| PumpBigStep.ChoiceInContext | test_afus/gtest/SW/gtest-1.7.0/scripts/pump.py:683-688 | wherever an `$if` stands it means the same as the branch that its condition chooses there, or as nothing |
| PumpSemantics.LoopIsJoin | test_afus/gtest/SW/gtest-1.7.0/scripts/pump.py:675-680 | the loop prints the join of its bodies |
| PumpSemantics.ForIsJoin | test_afus/gtest/SW/gtest-1.7.0/scripts/pump.py:668-680 | `$for` prints the separator-join of its bodies over lower..upper and binds nothing |
| PumpSemantics.DenoteConcat | test_afus/gtest/SW/gtest-1.7.0/scripts/pump.py:702-704 | the meaning of concatenated code is the second part run in the scope that the first leaves |
| PumpSemantics.BlockIsTransparent | test_afus/gtest/SW/gtest-1.7.0/scripts/pump.py:694-695 | brackets around code that binds nothing can be dropped anywhere without a change of meaning |
| PumpSemantics.CodeAgrees | test_afus/gtest/SW/gtest-1.7.0/scripts/pump.py:614-639 | code means the same in scopes that agree on the names it mentions and on all ranges |
| PumpSemantics.UnmentionedVariable | test_afus/gtest/SW/gtest-1.7.0/scripts/pump.py:595-639 | binding a variable that code does not mention changes nothing it prints |
| PumpEvaluator.VisiblePush | test_afus/gtest/SW/gtest-1.7.0/scripts/pump.py:595-620 | a pushed variable hides earlier ones of its name and nothing else |
| PumpEvaluator.Env.Clone | test_afus/gtest/SW/gtest-1.7.0/scripts/pump.py:589-593 | a new environment with the same bindings |
| PumpEvaluator.Env.PushVariable | test_afus/gtest/SW/gtest-1.7.0/scripts/pump.py:595-603 | one binding more, in front of all others, its value stored as an int if it is a numeral |
| PumpEvaluator.Env.PushRange | test_afus/gtest/SW/gtest-1.7.0/scripts/pump.py:608-609 | one range more, in front of all others |
| PumpEvaluator.Env.GetValue | test_afus/gtest/SW/gtest-1.7.0/scripts/pump.py:614-620 | the visible value of the name, or the error |
| PumpEvaluator.Env.GetRange | test_afus/gtest/SW/gtest-1.7.0/scripts/pump.py:632-638 | the visible range of the name, or the error |
| PumpEvaluator.RunAtomicCode | test_afus/gtest/SW/gtest-1.7.0/scripts/pump.py:656-699 | the mutating evaluator prints what the tree denotes or ends with its error; only `$var` and `$range` add bindings to the caller, exactly one |
| PumpEvaluator.RunLoop | test_afus/gtest/SW/gtest-1.7.0/scripts/pump.py:675-680 | the loop of `$for` prints what the denotation of the loop says and leaves the environment alone |
| PumpEvaluator.RunCode | test_afus/gtest/SW/gtest-1.7.0/scripts/pump.py:702-704 | running code refines its denotation, output and environment alike |
| PumpComments.StrippedHasNoComment | test_afus/gtest/SW/gtest-1.7.0/scripts/pump.py:226-234 | after the two substitutions no comment is left, for all texts |
| PumpComments.StripIsIdentityIff | test_afus/gtest/SW/gtest-1.7.0/scripts/pump.py:226-234 | a text is left alone if and only if it has no comment |
| PumpComments.StripKeepsText | test_afus/gtest/SW/gtest-1.7.0/scripts/pump.py:226-234 | up to white space, what is left is every line of the text up to its first `$$` |
| PumpComments.LeadingCommentLines | test_afus/gtest/SW/gtest-1.7.0/scripts/pump.py:229-231 | lines at the start that are nothing but comments go without a trace if and only if there is one of them; more leave an empty line |
| PumpComments.InnerCommentLines | test_afus/gtest/SW/gtest-1.7.0/scripts/pump.py:229-234 | such lines behind text go with all white space in front of them and leave one newline, so without a trace if and only if there was no more than that |
| PumpProgram.TokensAreUnique | test_afus/gtest/SW/gtest-1.7.0/scripts/pump.py:382-387 | a text has at most one list of tokens |
| PumpProgram.ParseToAST | test_afus/gtest/SW/gtest-1.7.0/scripts/pump.py:577-581 | the tree is that of all tokens of the text, or of those in front of a stray token; the tokens keep a text without comments up to white space; an error is exactly that of the tokenizer or of the parser |
| PumpProgram.ConvertFromPumpSource | test_afus/gtest/SW/gtest-1.7.0/scripts/pump.py:823-827 | the phases up to the output print what the tree of the stripped text denotes in an empty environment, or end with exactly the error of the phase that fails; up to white space the tokens are the lines of the source up to their comments; a text without markers prints itself |
| StringPrinter.PrintAsCharLiteralTo | test_afus/gtest/SW/gtest-1.7.0/src/gtest-printers.cc:142-184 | a byte is written as its string literal escape, but for the two kinds of quotes |
| StringPrinter.PrintAsStringLiteralTo | test_afus/gtest/SW/gtest-1.7.0/src/gtest-printers.cc:188-206 | a byte is written with the escape for string literals, and the kind of escape is reported |
| StringPrinter.StandsForItselfIff | test_afus/gtest/SW/gtest-1.7.0/src/gtest-printers.cc:133-176 | exactly the printable bytes other than quote and backslash stand for themselves |
| StringPrinter.EscapesAreWrittenOut | test_afus/gtest/SW/gtest-1.7.0/src/gtest-printers.cc:142-206 | each of the ten special escapes, and hexadecimal for all other bytes |
| StringPrinter.HexIsWrittenOut | test_afus/gtest/SW/gtest-1.7.0/src/gtest-printers.cc:178-180 | a hexadecimal escape has one upper-case digit below 16 and two from there on |
| StringPrinter.PrintedArrayIs | test_afus/gtest/SW/gtest-1.7.0/src/gtest-printers.cc:276-296 | the text for an array with and without a final NUL |
| StringPrinter.PrintCharsAsStringTo | test_afus/gtest/SW/gtest-1.7.0/src/gtest-printers.cc:255-271 | the one-pass loop with its flag writes the literal defined on the whole sequence |
| StringPrinter.UniversalPrintCharArray | test_afus/gtest/SW/gtest-1.7.0/src/gtest-printers.cc:276-296 | the literal without a final NUL, or all of it with the remark that there is none |
| StringPrinter.DigitsAreWrittenOut | test_afus/gtest/SW/gtest-1.7.0/src/gtest-printers.cc:220-271 | the octal and the hexadecimal digits and their values |
| StringPrinter.ReadEscaped | test_afus/gtest/SW/gtest-1.7.0/src/gtest-printers.cc:142-206 | a written byte is read back by the escape rules of ISO C11 section 6.4.4.4, whatever follows, unless that extends the escape |
| StringPrinter.ReadLiteralComplete | test_afus/gtest/SW/gtest-1.7.0/src/gtest-printers.cc:255-271 | with `\0` read as one complete escape, reading the literal gives back the bytes, for all sequences |
| StringPrinter.PrintedArrayEnd | test_afus/gtest/SW/gtest-1.7.0/src/gtest-printers.cc:276-296 | a printed array ends in a quote exactly if the array is NUL-terminated |
| StringPrinter.PrintedArrayInjective | test_afus/gtest/SW/gtest-1.7.0/src/gtest-printers.cc:276-301 | different char arrays are printed differently |
| StringPrinter.ReadLiteralStandard | test_afus/gtest/SW/gtest-1.7.0/src/gtest-printers.cc:255-271 | read by ISO C11 sections 5.1.1.2, 6.4.4.4 and 6.4.5, the literal stands for the bytes with each NUL and up to two octal digits behind it merged |
| StringPrinter.MergedIsIdentityIff | test_afus/gtest/SW/gtest-1.7.0/src/gtest-printers.cc:144-146 | merging changes nothing if and only if no NUL is followed by an octal digit |
| StringPrinter.LiteralIsFaithfulIff | test_afus/gtest/SW/gtest-1.7.0/src/gtest-printers.cc:141-271 | by the standard the literal stands for the printed bytes if and only if no NUL is followed by an octal digit |
| DeathTestProtocol.DeathTest.AssumeRole | test_afus/gtest/SW/gtest-1.7.0/src/gtest-death-test.cc:822-863 | which end is closed and which is kept, by what fork returned |
| DeathTestProtocol.DeathTest.ReadAndInterpretStatusByte | test_afus/gtest/SW/gtest-1.7.0/src/gtest-death-test.cc:425-464 | after any number of interruptions the first other answer decides the outcome or ends the parent; read_fd is left at -1 |
| DeathTestProtocol.DeathTest.Wait | test_afus/gtest/SW/gtest-1.7.0/src/gtest-death-test.cc:799-809 | nothing happens unless a child was spawned; otherwise the status is stored and the outcome is what was read |
| DeathTestProtocol.DeathTest.Passed | test_afus/gtest/SW/gtest-1.7.0/src/gtest-death-test.cc:530-577 | a test passes exactly if the child died, with the expected status and the expected output |
| DeathTestProtocol.InvariantOfRun | test_afus/gtest/SW/gtest-1.7.0/src/gtest-death-test.cc:425-488 | the state invariant holds at every point of every interleaving of parent and child |
| DeathTestProtocol.OutcomeIsExact | test_afus/gtest/SW/gtest-1.7.0/src/gtest-death-test.cc:425-488 | once the parent has read, DIED means that the child ended with nothing written, and each other outcome that exactly the status byte of its reason was written by Abort |
| DeathTestProtocol.ObjectFollowsProtocol | test_afus/gtest/SW/gtest-1.7.0/src/gtest-death-test.cc:425-464 | the outcome in the object is that of the protocol |
| DeathTestProtocol.ReadEndIsClosedOnce | test_afus/gtest/SW/gtest-1.7.0/src/gtest-death-test.cc:456-463 | the read end is closed exactly once, and is no longer stored afterwards |
| DeathTestProtocol.ParentDiesOfReports | test_afus/gtest/SW/gtest-1.7.0/src/gtest-death-test.cc:433-454 | once it reads, the parent dies only of an internal error that a re-executed child reported |
| DeathTestProtocol.KilledInsideAbort | test_afus/gtest/SW/gtest-1.7.0/src/gtest-death-test.cc:470-488 | there is a run in which the child has entered Abort and the parent still concludes DIED |
| DeathTestProtocol.ReadDoesNotBlock | test_afus/gtest/SW/gtest-1.7.0/src/gtest-death-test.cc:822-863 | once the child has ended the read of the parent gets an answer, because the parent closed its write end |
| DeathTestProtocol.NoDeadlock | test_afus/gtest/SW/gtest-1.7.0/src/gtest-death-test.cc:799-863 | until the parent is through, some process can take a step |
| DeathTestProtocol.StepLowersRank | test_afus/gtest/SW/gtest-1.7.0/src/gtest-death-test.cc:799-863 | every step but an interrupted call lowers the number of calls left to make |
| DeathTestProtocol.RunsAreShort | test_afus/gtest/SW/gtest-1.7.0/src/gtest-death-test.cc:799-863 | apart from interrupted calls no run has more than ten steps |
| DeathTestSelection.SplitString | test_afus/gtest/SW/gtest-1.7.0/src/gtest-death-test.cc:1208-1223 | the loop yields the fields between the delimiters |
| DeathTestSelection.SplitOfJoin | test_afus/gtest/SW/gtest-1.7.0/src/gtest-death-test.cc:1208-1223 | splitting undoes joining for fields without the delimiter |
| DeathTestSelection.JoinOfSplit | test_afus/gtest/SW/gtest-1.7.0/src/gtest-death-test.cc:1208-1223 | no field has the delimiter in it, and the fields join to the string again |
| DeathTestSelection.SplitLength | test_afus/gtest/SW/gtest-1.7.0/src/gtest-death-test.cc:1208-1223 | there is one more field than delimiters, for all strings |
| DeathTestSelection.ParsesExactly | test_afus/gtest/SW/gtest-1.7.0/src/gtest-internal-inl.h:1001-1040 | exactly which strings are accepted, and for which number each |
| DeathTestSelection.ParsedNumberIsTheOneWrittenIff | test_afus/gtest/SW/gtest-1.7.0/src/gtest-internal-inl.h:1018-1038 | the number stored is the one written if and only if that is not within 2^31 below 2^64 |
| DeathTestSelection.LargestIsMinusOne | test_afus/gtest/SW/gtest-1.7.0/src/gtest-internal-inl.h:1018-1038 | 2^64 - 1 is accepted as -1 |
| DeathTestSelection.ParseInternalRunDeathTestFlag | test_afus/gtest/SW/gtest-1.7.0/src/gtest-death-test.cc:1296-1338 | no flag, a rejected flag, or the four fields |
| DeathTestSelection.BarSpoilsFlag | test_afus/gtest/SW/gtest-1.7.0/src/gtest-death-test.cc:1326-1334 | a file name with a bar in it makes the child reject the flag |
| DeathTestSelection.FlagRoundTripIff | test_afus/gtest/SW/gtest-1.7.0/src/gtest-death-test.cc:1100-1144 | the child gets the four fields back if and only if the file name has no bar in it |
| DeathTestSelection.TestResult.IncrementDeathTestCount | test_afus/gtest/SW/gtest-1.7.0/include/gtest/gtest.h:585 | the counter goes up by one and is returned |
| DeathTestSelection.TestResult.Create | test_afus/gtest/SW/gtest-1.7.0/src/gtest-death-test.cc:1153-1203 | an error, a skipped test or a built one, by the ordinal, the flag and the style |
| DeathTestSelection.ChildSelects | test_afus/gtest/SW/gtest-1.7.0/src/gtest-death-test.cc:1153-1203 | for the sites of the parent, numbered from 1, the child skips all earlier death tests, builds exactly the one whose ordinal was passed and rejects all later ones |
| DeathTestSelection.ParentMeets | test_afus/gtest/SW/gtest-1.7.0/src/gtest-death-test.cc:1100-1144 | the calls of Create over the death tests of a test body, with their counter, pass each its own file, line and ordinal |
| DeathTestSelection.ChildMeets | test_afus/gtest/SW/gtest-1.7.0/src/gtest-death-test.cc:1153-1203 | the calls of Create over the death tests of a test body let exactly the one with the ordinal, file and line of the flag execute, without a failure before it |
| DeathTestSelection.ReExecute | test_afus/gtest/SW/gtest-1.7.0/src/gtest-death-test.cc:1100-1203 | the child that the parent starts for its k-th death test executes the k-th and fails nowhere |
| DeathTestSelection.KindIffStyle | test_afus/gtest/SW/gtest-1.7.0/src/gtest-death-test.cc:1153-1203 | a death test that is neither skipped nor refused is run by fork under "fast", by exec under "threadsafe", and fails under every other style |
| DeathTestSelection.ChildBuildsAtMostOne | test_afus/gtest/SW/gtest-1.7.0/src/gtest-death-test.cc:1153-1203 | whatever sites a child meets, it builds at most one death test, the one with the ordinal passed |
| Shuffling.Random.Generate | test_afus/gtest/SW/gtest-1.7.0/src/gtest.cc:291-308 | the step of the generator in 32-bit arithmetic and a number below the range |
| Shuffling.ShuffleRange | test_afus/gtest/SW/gtest-1.7.0/src/gtest-internal-inl.h:310-328 | in place, the range is shuffled by one choice for each width, each the draw of the generator for that width, whose state goes on accordingly; an invalid range is refused and nothing changes |
| Shuffling.DrawsAreUnique | test_afus/gtest/SW/gtest-1.7.0/src/gtest.cc:291-308 | the choices depend on the state of the generator alone |
| Shuffling.OrderOfSeedOne | test_afus/gtest/SW/gtest-1.7.0/src/gtest.cc:291-308 | seed 1 turns [1, 2, 3] into [3, 2, 1] |
| Shuffling.LastIsFirstChoice | test_afus/gtest/SW/gtest-1.7.0/src/gtest-internal-inl.h:323-327 | the last place of the range gets the element of the first choice |
| Shuffling.ShuffledIsRearrangement | test_afus/gtest/SW/gtest-1.7.0/src/gtest-internal-inl.h:310-328 | every result has the elements of the range in the range and is unchanged elsewhere |
| Shuffling.ShuffledIsInjective | test_afus/gtest/SW/gtest-1.7.0/src/gtest-internal-inl.h:310-328 | on distinct elements different choices give different results |
| Shuffling.ShuffledIsSurjective | test_afus/gtest/SW/gtest-1.7.0/src/gtest-internal-inl.h:310-328 | every rearrangement is reached by some choices |
| Shuffling.ShuffledIsBijective | test_afus/gtest/SW/gtest-1.7.0/src/gtest-internal-inl.h:310-328 | on distinct elements the choices correspond one to one to the rearrangements of the range |
| HeaderFusion.FileIsVisited | test_afus/gtest/SW/gtest-1.7.0/scripts/fuse_gtest_files.py:152-172 | a visit emits exactly the text lines of the headers it adds, in order, and processes all they include |
| HeaderFusion.FusedOutput | test_afus/gtest/SW/gtest-1.7.0/scripts/fuse_gtest_files.py:146-172 | the output has each text line of each header the seed reaches exactly once and nothing else, the lines of a header in their order, and what a header includes in front of what follows the include, unless that in turn reaches the header |
| FusionOrder.AvoidsProcessed | test_afus/gtest/SW/gtest-1.7.0/scripts/fuse_gtest_files.py:152-172 | an include chain to a header that is still new passes only headers that are still new |
| FusionOrder.RouteThroughInclude | test_afus/gtest/SW/gtest-1.7.0/scripts/fuse_gtest_files.py:152-168 | the first visit of a header is through the least chain of include lines that leads to it without passing a header twice |
| FusionOrder.VisitIsInOrder | test_afus/gtest/SW/gtest-1.7.0/scripts/fuse_gtest_files.py:146-172 | the lines come out in depth-first order: in the order of the least include chains from the seed to their headers, compared include by include, with the own line number last |
| FusionOrder.BranchesInOrder | test_afus/gtest/SW/gtest-1.7.0/scripts/fuse_gtest_files.py:152-168 | where two chains part, the smaller line decides: own lines in front of an include come before all that is first reached through it, and what is first reached through an earlier include comes before what is first reached through a later one |
| FusionOrder.OrderIsUnique | test_afus/gtest/SW/gtest-1.7.0/scripts/fuse_gtest_files.py:146-172 | there is only one arrangement of the lines in that order |
| FusionOrder.FusedOutputIff | test_afus/gtest/SW/gtest-1.7.0/scripts/fuse_gtest_files.py:146-172 | the output is the one sequence that has exactly the text lines of the reachable headers in that order |
| HeaderFusion.MissingFileIsReached | test_afus/gtest/SW/gtest-1.7.0/scripts/fuse_gtest_files.py:152-172 | a failure names a missing header that the seed reaches |
| HeaderFusion.FusingSucceedsIff | test_afus/gtest/SW/gtest-1.7.0/scripts/fuse_gtest_files.py:146-172 | the traversal of any graph, cyclic or not, ends, and it succeeds if and only if all reachable headers exist |
| IncludeLines.MatchIncludeIff | test_afus/gtest/SW/gtest-1.7.0/scripts/fuse_gtest_files.py:71-74 | a line is an include exactly if it is `#`, `include` and a quoted name with the directory in front, with any white space before each, the name going up to the last quote of the line |
| IncludeLines.NoMatchIff | test_afus/gtest/SW/gtest-1.7.0/scripts/fuse_gtest_files.py:71-74 | and it is none exactly if it does not read so for any name |
| IncludeLines.HeaderLineIff | test_afus/gtest/SW/gtest-1.7.0/scripts/fuse_gtest_files.py:157-166 | the lines of a header that are expanded, and by which name, and the lines that are copied |
| IncludeLines.SourceLineIff | test_afus/gtest/SW/gtest-1.7.0/scripts/fuse_gtest_files.py:186-213 | the lines of a source file that expand gtest-spi.h or a part, those that stand for gtest.h, and those that are copied |
| FusionScripts.Fuser.ProcessHeader | test_afus/gtest/SW/gtest-1.7.0/scripts/fuse_gtest_files.py:152-168 | the set of processed files and the output grow as the visit says |
| FusionScripts.Fuser.ProcessSource | test_afus/gtest/SW/gtest-1.7.0/scripts/fuse_gtest_files.py:180-213 | the same for the source file, gtest.h being included instead of expanded |
| FusionScripts.FuseGTestH | test_afus/gtest/SW/gtest-1.7.0/scripts/fuse_gtest_files.py:146-172 | the fused header is the text of the one sequence that has exactly the text lines of the reachable headers in depth-first order; it fails exactly if one is missing, and names such a one |
| FusionScripts.FuseGTestAllCc | test_afus/gtest/SW/gtest-1.7.0/scripts/fuse_gtest_files.py:175-215 | the same for the fused source file, where gtest.h stands for its include line |
| FusionScripts.GtestHeaderIsIncludedOnce | test_afus/gtest/SW/gtest-1.7.0/scripts/fuse_gtest_files.py:186-204 | the include of gtest.h is emitted at most once, and exactly if some part needs it |
| PrimeTables.SquareRootSuffices | test_afus/gtest/SW/gtest-1.7.0/samples/prime_tables.h:58-67 | without a divisor up to the square root a number is prime |
| PrimeTables.PrimeAbove | test_afus/gtest/SW/gtest-1.7.0/samples/prime_tables.h:69-75 | there is a prime above every number (Euclid's argument), so the endless loop ends |
| PrimeTables.Factorial | test_afus/gtest/SW/gtest-1.7.0/samples/sample1.cc:37-44 | the product of the numbers up to n, 1 for n below 1 |
| PrimeTables.FactorialFitsIff | test_afus/gtest/SW/gtest-1.7.0/samples/sample1.cc:37-44 | the factorial fits an int if and only if n is at most 12 |
| PrimeTables.IsPrimeOdd | test_afus/gtest/SW/gtest-1.7.0/samples/sample1.cc:47-68 | odd trial division decides primality for every 32-bit n without leaving the int range |
| PrimeTables.OnTheFlyPrimeTable.IsPrime | test_afus/gtest/SW/gtest-1.7.0/samples/prime_tables.h:58-67 | decides primality; the square of the last number tried leaves the int range if and only if n is a prime from 46340 squared on |
| LargestPrime.LargestIntIsPrime | test_afus/gtest/SW/gtest-1.7.0/samples/prime_tables.h:58-67 | there is such a prime: the largest int |
| PrimeTables.OnTheFlyPrimeTable.GetNextPrime | test_afus/gtest/SW/gtest-1.7.0/samples/prime_tables.h:69-75 | the smallest prime above a p of at least 0, and -1 for a negative p |
| PrimeTables.PreCalculatedPrimeTable.constructor | test_afus/gtest/SW/gtest-1.7.0/samples/prime_tables.h:83-86 | the table holds exactly the primality of 0..max |
| PrimeTables.PreCalculatedPrimeTable.CalculatePrimesUpTo | test_afus/gtest/SW/gtest-1.7.0/samples/prime_tables.h:102-114 | after the sieve is_prime_[k] holds exactly when k is prime |
| PrimeTables.PreCalculatedPrimeTable.IsPrime | test_afus/gtest/SW/gtest-1.7.0/samples/prime_tables.h:89-91 | prime and within the table |
| PrimeTables.PreCalculatedPrimeTable.GetNextPrime | test_afus/gtest/SW/gtest-1.7.0/samples/prime_tables.h:93-99 | the smallest prime above p, or -1 exactly when the table has none |
| PrimeTables.MarksOfComposite | test_afus/gtest/SW/gtest-1.7.0/samples/prime_tables.h:106-113 | skipping composite numbers in the sieve loses no mark |
| PrimeTables.HybridPrimeTable.IsPrime | test_afus/gtest/SW/gtest-1.7.0/samples/sample8_unittest.cc:62-67 | decides primality for every n, whatever the flag and the maximum |
| PrimeTables.HybridPrimeTable.GetNextPrime | test_afus/gtest/SW/gtest-1.7.0/samples/sample8_unittest.cc:69-75 | the smallest prime above p for p of at least 0; below, 2 or -1 depending on the table |
| PrimeTables.NextPrimeIsUnique | test_afus/gtest/SW/gtest-1.7.0/samples/prime_tables.h:50-52 | the smallest prime above a number is unique, so the three tables agree |
| FilePaths.FilePath.Normalize | test_afus/gtest/SW/gtest-1.7.0/src/gtest-filepath.cc:351-379 | the loop over the buffer leaves the path with every run of separators collapsed |
| FilePaths.FilePath.constructor | test_afus/gtest/SW/gtest-1.7.0/include/gtest/internal/gtest-filepath.h:64-66 | a path is normal from the start |
| FilePaths.NormalIsNormal | test_afus/gtest/SW/gtest-1.7.0/src/gtest-filepath.cc:347-379 | the result has no two adjacent separators and no NUL, and begins as the path does |
| FilePaths.NormalIffUnchanged | test_afus/gtest/SW/gtest-1.7.0/src/gtest-filepath.cc:347-379 | normalization is idempotent and changes exactly the paths that are not normal |
| FilePaths.NormalKeepsComponents | test_afus/gtest/SW/gtest-1.7.0/src/gtest-filepath.cc:347-379 | normalization keeps the sequence of names |
| FilePaths.NormalFormIsUnique | test_afus/gtest/SW/gtest-1.7.0/src/gtest-filepath.cc:347-379 | normal paths with the same names, absoluteness and trailing separator are equal |
| FilePaths.NormalIff | test_afus/gtest/SW/gtest-1.7.0/src/gtest-filepath.cc:347-379 | the result of normalization is the one normal path with the names, absoluteness and trailing separator of the given one |
| FilePaths.ConcatIsNormalOfJoin | test_afus/gtest/SW/gtest-1.7.0/src/gtest-filepath.cc:194-200 | a trailing separator of the directory makes no difference |
| FilePaths.ConcatIsAssociative | test_afus/gtest/SW/gtest-1.7.0/src/gtest-filepath.cc:194-200 | concatenation of paths is associative with "" as left identity; on the right "" adds a separator |
| FilePaths.PartsConcatIff | test_afus/gtest/SW/gtest-1.7.0/src/gtest-filepath.cc:150-170 | directory part and file part concatenate back to the path if and only if it has a separator |
| FilePaths.PartsWithoutSeparator | test_afus/gtest/SW/gtest-1.7.0/src/gtest-filepath.cc:150-170 | a path without a separator is all file, and its directory is "./" |
| FilePaths.FileInRoot | test_afus/gtest/SW/gtest-1.7.0/src/gtest-filepath.cc:155-170 | the directory of a file in the root is the root, against the comment |
| FileNames.NameHasTag | test_afus/gtest/SW/gtest-1.7.0/src/gtest-filepath.cc:178-190 | the name is a front, the number with an underscore, and the extension, also after normalization |
| FileNames.NameOfNumber | test_afus/gtest/SW/gtest-1.7.0/src/gtest-filepath.cc:178-190 | the name for 0 has no number, every other has its number behind an underscore |
| FileNames.MakeFileNameInjective | test_afus/gtest/SW/gtest-1.7.0/src/gtest-filepath.cc:178-190 | different numbers make different names |
| FileNames.GenerateUniqueFileName | test_afus/gtest/SW/gtest-1.7.0/src/gtest-filepath.cc:281-290 | over finitely many existing files the loop ends with the least number that is free, not above their number |
| Directories.ParentOfTop | test_afus/gtest/SW/gtest-1.7.0/src/gtest-filepath.cc:155-170 | the root and the current directory have the current directory for a parent |
| Directories.ClimbEndsAtCurrentDirectory | test_afus/gtest/SW/gtest-1.7.0/src/gtest-filepath.cc:303-314 | going up from any directory leads through all that it lies in and ends at the current directory |
| Directories.ClimbIff | test_afus/gtest/SW/gtest-1.7.0/src/gtest-filepath.cc:303-314 | the recursion goes through the prefixes of the path that end with a separator, and the current directory |
| Directories.MissingIff | test_afus/gtest/SW/gtest-1.7.0/src/gtest-filepath.cc:303-314 | what it finds missing are those of them from which down to the path no directory exists |
| Directories.EndsIff | test_afus/gtest/SW/gtest-1.7.0/src/gtest-filepath.cc:303-314 | the recursion ends if and only if one of the finitely many paths on the way up is a directory |
| Directories.NoCurrentDirectory | test_afus/gtest/SW/gtest-1.7.0/src/gtest-filepath.cc:303-314 | where nothing is a directory the recursion does not end |
| Directories.FileSystem.CreateFolder | test_afus/gtest/SW/gtest-1.7.0/src/gtest-filepath.cc:320-336 | true exactly if the directory exists afterwards; at most that one is added |
| Directories.FileSystem.CreateDirectoriesRecursively | test_afus/gtest/SW/gtest-1.7.0/src/gtest-filepath.cc:303-314 | wherever it ends: true if and only if the path ends with a separator and none of the missing directories above it is refused, and then exactly those are added; otherwise only some that are not refused are |
| Directories.AncestorsIff | test_afus/gtest/SW/gtest-1.7.0/src/gtest-filepath.cc:155-170 | a directory lies in its prefixes that end with a separator and, when relative, in the current directory |
| Directories.AncestorsExist | test_afus/gtest/SW/gtest-1.7.0/src/gtest-filepath.cc:303-314 | where a directory exists so do all above it |
| MmioStress.ReadOfWrite | test_afus/ccip_mmio_rdwr_stress/SW/mmio_stress.c:93-116 | a register reads back what was written if it fits |
| MmioStress.PrepareOffsets | test_afus/ccip_mmio_rdwr_stress/SW/mmio_stress.c:209-223 | the computed offsets of every worker |
| MmioStress.SetupOfProgram | test_afus/ccip_mmio_rdwr_stress/SW/mmio_stress.c:52-54 | 32 workers and 256 KB are such a setup |
| MmioStress.CoversWholeAccesses | test_afus/ccip_mmio_rdwr_stress/SW/mmio_stress.c:89-125 | although the ranges end one byte early, the loops take exactly the aligned accesses that fit into a chunk |
| MmioStress.RangesPartition | test_afus/ccip_mmio_rdwr_stress/SW/mmio_stress.c:209-223 | for any number of workers and any chunk divisible by 8 every aligned offset falls to exactly one worker, and no access leaves the register file |
| MmioStress.MMIOWorkerThread | test_afus/ccip_mmio_rdwr_stress/SW/mmio_stress.c:76-125 | alone, a worker leaves each register of its range holding its offset, or reads each of them once in order |
| MmioStress.WriteKeepsInvariant | test_afus/ccip_mmio_rdwr_stress/SW/mmio_stress.c:89-105 | a write of one worker keeps what all workers have filled |
| MmioStress.InvariantOfRun | test_afus/ccip_mmio_rdwr_stress/SW/mmio_stress.c:228-366 | the invariant of the four phases holds at every point of every interleaving |
| MmioStress.ReadbacksAreRight | test_afus/ccip_mmio_rdwr_stress/SW/mmio_stress.c:99-119 | in every interleaving every readback, with 32 and with 64 bits, equals its offset |
| MmioStress.EverythingIsReadBack | test_afus/ccip_mmio_rdwr_stress/SW/mmio_stress.c:228-366 | at the end every aligned offset has been read back, with 32 and with 64 bits |
| MmioStress.NoFault | test_afus/ccip_mmio_rdwr_stress/SW/mmio_stress.c:89-105 | a worker that is not through can always make its next access, which is within its range |
| MmioStress.NoDeadlock | test_afus/ccip_mmio_rdwr_stress/SW/mmio_stress.c:127-131 | until the program is through some thread can take a step |
| MmioStress.RunsEnd | test_afus/ccip_mmio_rdwr_stress/SW/mmio_stress.c:228-366 | a bound on the length of every run, met exactly by the runs that are through |

## Left out

- ValidateRegex: the int index of the loop; a pattern longer than INT_MAX is not modelled.
- MatchRegexAtHead: strings are shorter than SIZE_MAX, as every C string in memory is.
- TokenizeLines: the searches of Python's `re` module are given by functions for the expressions that occur.
- Tokenize: for a text with comments only the order and the gaps are stated; pump.py strips comments first (StripMetaComments).
- ConvertFromPumpSource: BeautifyCode, which wraps the long lines of the output, and may not end on a long word.
- RunAtomicCode: Python's `eval` is any function of the values of the names in the expression.
- ParsedTreesComeBack: asks that the tokens of escaped dollars are not blank; TextTreesComeBack shows that those of a text are not.
- PumpUnparser.ReadsPrinted: `$elif` is printed as `$else` with an `$if` in brackets; the parser itself reads both.
- PrintAsCharLiteralTo: wide characters and PrintCharAndCodeTo; trigraphs are not read back.
- DeathTestProtocol.DeathTest.AssumeRole: log redirection, flushing, and descriptors other than the pipe; a failing fork or pipe aborts.
- OutcomeIsExact: a status byte that another process writes into the pipe, and partial writes.
- ReadDoesNotBlock: a statement that forks a process which outlives the child keeps a write end open, and then the read does block; such processes are not modelled.
- DeathTestSelection.ParseInternalRunDeathTestFlag: the Windows fields, and the text of the error messages.
- DeathTestSelection.ChildSelects: command line passing by exec is taken to hand the flag over unchanged.
- Shuffling.ShuffleRange: that the choices of the generator are equally likely, which they are not.
- FusionScripts.FuseGTestH: reading and writing files, and checking the directories; a missing file is an error of the model.
- OnTheFlyPrimeTable.IsPrime: computed over mathematical integers; where that leaves the int range is stated.
- PreCalculatedPrimeTable.constructor: a maximum below 1 writes outside the table and is excluded.
- PreCalculatedPrimeTable.GetNextPrime: p below -1 reads outside the table and is excluded.
- HybridPrimeTable.GetNextPrime: p below -1 with a table is excluded for the same reason.
- GenerateUniqueFileName: races with other processes, and overflow of the number beyond INT_MAX existing files.
- CreateDirectoriesRecursively: "." and ".." inside paths, links, and directories that vanish meanwhile; its precondition is that the recursion ends.
- MMIOWorkerThread: failures of the MMIO calls and of pthread_create, and the messages for a wrong readback.
- MmioStress.InvariantOfRun: each MMIO access is one step on a register file without side effects.
- Wide-character, Windows and POSIX regcomp variants of all of this: they need headers and calls that are not part of this model.
- The device drivers, simulators and system-call samples of the repository: their logic is in libraries or devices.
- RemoveExtension, GetCurrentDir, captured streams, flags, listeners, sharding: plumbing with one branch each.
