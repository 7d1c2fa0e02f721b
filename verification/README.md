# Verified models of MICO

MICO is an implementation of CORBA that brings its own C preprocessor, an IDL compiler and a daemon
that activates servers. This project models the parts of it with the most intricate behaviour and
proves what they do, for all inputs and over whole runs. `dafny verify dfyconfig.toml` checks
everything.

## The parts

**The preprocessor, `cpp/cccp.c` and `cpp/cexp.c`.**

- `WideInt`, `IfExpression`, `NumberToken`, `NumberSpelling`: the `#if` evaluator at a symbolic width w. The grammar
  actions of the parser run over expression trees and are proved equal to a reference semantics in
  which a value has a type and operands that are not selected are not evaluated. The overflow tests
  are shown to be exact, and constants, printed by division, are read as the numbers they print.
- `Conditionals`, `ConditionalsImpl`, `ConditionalText`: the stack of conditionals and the skipping of groups, as a
  machine over lines and as the loops that run it, against the tree semantics of section 6.10.1 of
  ISO/IEC 9899:1999, and what plain lines and misplaced directives do.
- `IncludeGuard`, `IncludeCache`: the macro that `#endif` records for a file, and when it is sound
  not to open the file again.
- `MacroEngine`: the steps of macro expansion over the stack of input levels.
  `MacroText` says by places what a body stands for. `MacroTermination`, `MacroMeaning`,
  `MacroArguments` and `MacroCalls` prove that every run ends, what it computes, that an argument is
  expanded in isolation, and what a call with arguments is replaced by. `MacroImpl` is the recursive program
  `rescan` - `macroexpand` - `expand_to_temp_buffer`, proved to follow the steps.
- `MacroUses`, `MacroBody`, `MacroSubstitution`: bodies with `#` and `##` compiled to a text and a
  list of places, what they mean, and the buffer that is sized in one pass and filled in another.
  `MacroOperators` states the meaning on bodies put together from their parts, and `MacroLiterals`
  reads the text of a `#` use as a string literal.
- `SymbolTable`: the hash table of macros with its doubly linked chains.
- `FileNames`: the simplification of file names in place.

**The POA mediator, `daemon/poamediator.cc`, with the request queue of `orb/queue.cc`.** `Mediator`
says what each operation does to the state; the ORB, the processes and the clock are its
environment. `MediatorImpl` is the object with its loops. `MediatorRuns`, `MediatorQueue`,
`MediatorBinds`, `MediatorStanding`, `MediatorLifecycle` and `MediatorService` prove properties of every sequence of
events.

**The skeleton generator, `idl/codegen-c++-skel.cc`.** `Sieve` is the search for a prime, over
`Primes`, `Bertrand` and `LastMultiples`, which prove that there is one to be found and how far the
marking stays in range. `Dispatcher` emits a chain of
comparisons or a switch over hashes; `DispatcherMeaning` compares what the two select.

**Text files.** `LineReader` is `istream::getline`; `ImrStrings`, `ImrEntry` and `ImrDatabase` are
the database of the implementation repository (`daemon/imr_impl.cc`, `daemon/main.cc`); `MakeDeps`
is the worklist of `admin/mkdepend.cc`, and `IncludeLines` says which files its lines name.

`Wrappers` and `Characters` hold what several of these share.

A component that changes things in place is a class, or a method with loops, and is proved equal to
functions; the properties are lemmas about these functions.

## Where the code does not keep what it seems to promise

In these places the model follows the code, a lemma gives an input, and another one says exactly
when the promise is kept.

- The request queue is meant to hand back a request that cannot be served yet. A record that is put
  back during the same pass is met again by that pass and thrown away (`MediatorQueue.RequestIsLost`
  and `MediatorQueue.BindIsLost`; exactly when, `MediatorQueue.PassLosesNothingIff`).
- A bind whose servers are all held or stopped, with no server Active, is forgotten
  (`MediatorBinds.HeldBindIsForgotten`; exactly when, `MediatorBinds.HeldBindIsForgottenIff`).
- A request that is cancelled while it waits in the queue is answered nevertheless
  (`MediatorBinds.CancelledInQueueIsAnswered`; exactly when,
  `MediatorBinds.CancelledIsNeverAnsweredIff`).
- The include cache hides text of a guarded file with an `#elif` of its own, because `do_elif` does
  not clear `control_macro` as `do_else` does (`IncludeGuard.ElifIsHidden`). Reading the file again
  would take a group exactly if the condition of such an `#elif` holds (`IncludeGuard.HidesTextIff`),
  and would evaluate something exactly if there is one (`IncludeGuard.SkippingIsSoundIff`).
- The first pass over the uses of arguments does not count the quotes of a `#` use whose argument is
  missing (`MacroSubstitution.MissingArgumentIsNotCounted`; exactly which bodies and calls are
  affected, `MacroSubstitution.CountsEnoughIff`).
- A `#` use is not always a string literal: a backslash outside the literals of the argument is copied
  as it is, so that with a double quote behind it the literal ends too early, and at the end of the
  argument it does not end (`MacroLiterals.LiteralEndsEarly`, `MacroLiterals.LiteralDoesNotEnd`;
  exactly when, `MacroLiterals.IsOneLiteralIff`).
- `get_prime_number` returns `n | 1` for n from 2^31 on, because twice n wraps
  (`Sieve.WrapsToComposite`, `Sieve.GetPrimeNumber`). Close to 2^31 a step of the marking wraps and
  numbers that are no multiples are marked (`Sieve.MarkingWraps`; exactly when,
  `Sieve.MarkingInRangeIff`), and for the last three n the outer loop never ends
  (`Sieve.OuterLoopHasNoExit`).
- The hash switch runs operations before accessors, the chain accessors before operations, which
  matters exactly if an operation has the name of an accessor
  (`DispatcherMeaning.ClashIsDispatchedTwice`; exactly when, `DispatcherMeaning.DispatchersAgreeIff`).
- The database drops empty fields and mistakes `#` in ids and tags (`ImrStrings.EmptyFieldIsDropped`,
  `ImrEntry.HashInTagIsMistaken`; exactly when, `ImrStrings.GetAllAfterPutAll`,
  `ImrEntry.EntryRoundTrip`).

## Model

| member | source | states |
|---|---|---|
| IfExpression.ExprParser.Eval | cpp/cexp.c:911-1152 | for every expression tree and width, the actions leave the value and signedness of the reference evaluator, log exactly its diagnostics, and bring skip_evaluation back to where it began |
| IfExpression.DivisionDiagnosedIffPerformed | cpp/cexp.c:977-1010 | "division by zero" is reported if and only if a strict short-circuit evaluator divides by zero, and otherwise both evaluators give the same value |
| IfExpression.DeadCodeIsQuiet | cpp/cexp.c:1104-1137 | an operand that is not selected yields no diagnostic but the comma warning |
| IfExpression.ExprParser.EvalAnd | cpp/cexp.c:1104-1113 | && raises skip_evaluation exactly around an unselected right operand and gives the reference value |
| IfExpression.ExprParser.EvalOr | cpp/cexp.c:1114-1123 | the same for the two actions of an or |
| IfExpression.ExprParser.EvalCond | cpp/cexp.c:1124-1138 | the same for the three actions of a conditional, whose type joins both arms |
| IfExpression.ExprParser.NegAction | cpp/cexp.c:920-926 | value and type of the reference; overflow is reported exactly when the negation does not fit |
| IfExpression.NegationOverflow | cpp/cexp.c:920-926 | the test on three ANDed words fires for the least value only |
| IfExpression.ExprParser.MulAction | cpp/cexp.c:961-974 | reference product; overflow reported exactly when the signed product does not fit |
| IfExpression.MulOverflowIsExact | cpp/cexp.c:966-970 | the division test and the sign test together decide whether the exact product fits, MIN times -1 included |
| IfExpression.WrappedProductDiffers | cpp/cexp.c:966-970 | if the product wraps, dividing it back does not give the other factor, apart from the case of the sign test |
| IfExpression.ExprParser.DivAction | cpp/cexp.c:975-993 | truncated quotient in the common type, with a zero divisor taken as 1; overflow exactly for MIN / -1 |
| IfExpression.ExprParser.CheckDivisor | cpp/cexp.c:978-983 | a zero divisor is reported unless the operand is skipped, and becomes 1 |
| IfExpression.OnlyMinOverMinusOne | cpp/cexp.c:987-989 | the least value over -1 is the one quotient that does not fit, and the sign test finds exactly it |
| IfExpression.QuotientMeaning | cpp/cexp.c:984-992 | both division branches compute the quotient of the typed operands |
| IfExpression.ExprParser.ModAction | cpp/cexp.c:994-1009 | remainder with the sign of the dividend, in the common type |
| IfExpression.RemainderMeaning | cpp/cexp.c:1003-1008 | both remainder branches compute the remainder of the typed operands |
| IfExpression.ExprParser.AddAction | cpp/cexp.c:1010-1017 | reference sum; overflow reported exactly when the signed sum does not fit |
| IfExpression.SumSignIsExact | cpp/cexp.c:216-217 | overflow_sum_sign holds exactly when the exact signed sum does not fit |
| IfExpression.ExprParser.SubAction | cpp/cexp.c:1018-1025 | reference difference; overflow reported exactly when it does not fit |
| IfExpression.DifferenceSignIsExact | cpp/cexp.c:1023-1024 | the same macro with sum and operand exchanged decides whether the difference fits |
| IfExpression.ExprParser.ShiftAction | cpp/cexp.c:1026-1037 | a negative signed count shifts the other way; the result is the reference shift in the type of the left operand |
| IfExpression.LeftShiftScales | cpp/cexp.c:1915-1927 | left_shift multiplies by the power of two modulo 2^w for every count |
| IfExpression.RightShiftScales | cpp/cexp.c:1929-1940 | right_shift divides by the power of two and rounds down for every count, signed or not |
| IfExpression.ExprParser.CompareAction | cpp/cexp.c:1038-1077 | comparison in the common type |
| IfExpression.ExprParser.BitAction | cpp/cexp.c:1078-1090 | bitwise operators in the common type |
| WideInt.BitsOf | cpp/cexp.c:1078-1090 | every bit of the result of the bitwise and, or, exclusive or and complement is that of the operator on the bits of the operands |
| IfExpression.CommonType | cpp/cexp.c:962 | ANDing the two signedp masks gives the common type of section 6.3.1.8, and the stored bits are the converted operands |
| NumberToken.ParseNumber | cpp/cexp.c:1392-1480 | what the token means is determined by the text (digits, suffix, the three diagnostics and the change to unsigned), for every token text and every width of at least 8; that it is the number written, NumberSpelling.NumberComesBack |
| NumberToken.ReadDigits | cpp/cexp.c:1419-1465 | n is the exact value of the digits modulo 2^w, and overflow is set if and only if that value is at least 2^w |
| NumberToken.StepOverflows | cpp/cexp.c:1462 | the test before the multiplication and the carry test together hold exactly when n * base + digit does not fit |
| NumberToken.ReadSuffix | cpp/cexp.c:1430-1456 | accepts exactly the suffixes of at most one u and two l (one when pedantic), in any order |
| NumberToken.InRangeIsExact | cpp/cexp.c:1467-1480 | the constant is worth what its digits say if and only if no overflow is diagnosed |
| NumberToken.LargestDecides | cpp/cexp.c:1459-1468 | comparing the largest digit with the base finds exactly the digits beyond the radix |
| NumberToken.SplitIsUnique | cpp/cexp.c:1422-1458 | where digits end and suffix begins is determined by the text |
| NumberSpelling.NumberComesBack | cpp/cexp.c:1401-1480 | for every n and width: the decimal digits of n, a 0 and any zeros and its octal digits, or 0x or 0X and any zeros and its hexadecimal digits with letters of either case at each place are read as n, out of range if and only if n is at least 2^w, unsigned if and only if marked so or too large to be signed; accepted if and only if a suffix of the list stands behind the digits |
| NumberSpelling.SuffixesAreListed | cpp/cexp.c:1430-1456 | the suffixes accepted are those of an explicit list, in lower and upper case |
| NumberSpelling.PrefixAlone | cpp/cexp.c:1406-1413 | 0x alone is an error |
| NumberSpelling.PrefixAndSuffix | cpp/cexp.c:1406-1413 | 0x with a suffix but without digits is a 0 |
| Conditionals.RunItems | cpp/cccp.c:7353-7401 | on every well-nested line sequence, from any state, the machine computes the tree semantics of section 6.10.1: first group whose condition holds, nothing else evaluated or emitted |
| Conditionals.WellNestedFile | cpp/cccp.c:2580-3470 | a whole well-nested file ends with its meaning, no conditional open and nothing diagnosed |
| Conditionals.NothingDiagnosed | cpp/cccp.c:6961-6971 | a well-nested file produces no conditional diagnostics |
| Conditionals.MeaningIgnoresStack | cpp/cccp.c:7116-7142 | what a group means does not depend on the conditionals around it |
| Conditionals.SkipKeepsStack | cpp/cccp.c:7353-7401 | skip_if_group returns with the stack it was given whenever it finds its directive, and that directive divides or ends the section |
| Conditionals.AtMostOneGroupPerSection | cpp/cccp.c:6974-6985 | whatever the lines are, well formed or not, no if-section has two groups taken |
| Conditionals.StepStaysBetween | cpp/cccp.c:7116-7142 | between two lines every open section has had a group taken, or the directive at which skipping ended comes next |
| Conditionals.TailAfterTaken | cpp/cccp.c:6974-6976 | after a group was taken the later #elif conditions of the section are not evaluated |
| ConditionalText.PlainFile | cpp/cccp.c:5685-5700 | lines outside conditionals: the text is emitted in order, and each name ends up as the last #define or #undef of it says, or as it was |
| ConditionalText.ConditionSeesDefinition | cpp/cccp.c:6711-6738 | the group of #ifdef is taken if and only if the last line before it that mentions the name defines it, and that of #ifndef if and only if it undefines it |
| ConditionalText.StrayIsDiagnosed | cpp/cccp.c:7454-7457 | #elif, #else or #endif where no conditional is open is diagnosed, once, and what follows is read all the same |
| ConditionalText.OpenAtEndIsDiagnosed | cpp/cccp.c:3477-3508 | a conditional that is open at the end of the file is diagnosed and dropped, whether its group is read or not |
| ConditionalText.SecondElseIsDiagnosed | cpp/cccp.c:7462-7474 | #else or #elif behind an #else is diagnosed and its group passed over, whatever its condition |
| ConditionalText.ElseIsRead | cpp/cccp.c:7453-7480 | the group behind #else is read if and only if no group before it was |
| Conditionals.SkipItems | cpp/cccp.c:7353-7390 | skipping passes over a well-nested group with the stack unchanged |
| ConditionalsImpl.InputFile.SkipIfGroup | cpp/cccp.c:7148-7411 | the loop stops at the directive of the innermost conditional or at the end of the file, as the specification does |
| ConditionalsImpl.InputFile.ConditionalSkip | cpp/cccp.c:7116-7142 | push a frame, then skip or take the group |
| ConditionalsImpl.InputFile.DoIf | cpp/cccp.c:6934-6945 | #if, #ifdef and #ifndef change stack, logs and position as specified |
| ConditionalsImpl.InputFile.StartOfFile | cpp/cccp.c:7032-7056 | only blank text precedes the directive |
| ConditionalsImpl.InputFile.DoDivide | cpp/cccp.c:6951-6987 | #elif and #else inside a conditional |
| ConditionalsImpl.InputFile.DoEndif | cpp/cccp.c:7483-7539 | pop, and record the controlling macro exactly when nothing but blank text follows |
| ConditionalsImpl.InputFile.Rescan | cpp/cccp.c:2580-3470 | reading a file line by line leaves the state the specification gives, with the stack of its beginning |
| IncludeGuard.RecordedMeansGuarded | cpp/cccp.c:7500-7534 | a macro is recorded only for a file that consists of blank lines and one #ifndef section of that macro without an #else of its own |
| IncludeGuard.HidesTextIff | cpp/cccp.c:6951-6987 | reading a guarded file again while its macro is defined takes a group if and only if the condition of an #elif of the guarding section holds then; otherwise it changes neither macros nor stack and emits nothing but blank lines |
| IncludeGuard.SkippingIsSoundIff | cpp/cccp.c:7440-7475 | reading it again does nothing at all, not even evaluate a condition, if and only if the section has no #elif of its own |
| IncludeGuard.ElifIsHidden | cpp/cccp.c:6951-6987 | a file with such an #elif whose second group the cache hides: do_elif does not clear control_macro |
| IncludeCache.Includer.OpenIncludeFile | cpp/cccp.c:4893-4955 | a file is left unopened if and only if the macro recorded for it, or for a new name that of the same file under another name, is defined |
| IncludeCache.Includer.RecordControlMacro | cpp/cccp.c:5147-5160 | only macros that guard the file are recorded |
| IncludeCache.Includer.Include | cpp/cccp.c:4893-4955 | unless the condition of an #elif of the guarding section holds, including a file with the cache has the effect of reading it afresh |
| MacroEngine.DisabledExactlyOnOneLevel | cpp/cccp.c:8383-8391 | in every run a macro is T_DISABLED exactly while an input level reads its expansion, and only one level does |
| MacroEngine.StepKeepsDisabling | cpp/cccp.c:2635-2638 | every step of rescan keeps this, argument collection across levels and temporary buffers included |
| MacroEngine.CollectKeepsDisabling | cpp/cccp.c:8376-8391 | leaving levels while arguments are collected keeps it |
| MacroTermination.RescanEnds | cpp/cccp.c:531-537 | for every text and every table of macros, with arguments and however recursive, the run ends |
| MacroTermination.StepDescends | cpp/cccp.c:3308-3329 | each step lowers the work of a level and leaves the levels under it alone: arguments to expand, then tokens |
| MacroTermination.CollectDescends | cpp/cccp.c:8343-8391 | collecting arguments takes at least the parenthesis from the level where it ends |
| MacroMeaning.OutputIsReplacement | cpp/cccp.c:3308-3329 | with macros without arguments a finished run has written the recursive replacement of section 6.10.3.4 and enabled every macro again; what a body contributes is said by MacroMeaning.BodyIsWritten |
| MacroMeaning.BodyIsWritten | cpp/cccp.c:8062 | a macro without arguments among text without macros: the text before it, the tokens of its body in their order, and the text behind it are written |
| MacroText.SubstituteStands | cpp/cccp.c:8108-8299 | what is pushed is as long as the tokens of the body stand for, and at the place given by the lengths before it stands each token itself or the whole expansion of its argument |
| MacroText.StandsForOne | cpp/cccp.c:8108-8299 | by these places the text is determined |
| MacroText.PlainStands | cpp/cccp.c:8062 | a body without parameters stands for its own tokens in order |
| MacroMeaning.DepthSuffices | cpp/cccp.c:498-537 | with fewer macros than places on the input stack no name is lost to the depth limit |
| MacroMeaning.ReplacementIsFinal | cpp/cccp.c:3304-3318 | every macro name left in expanded text carries the marker that keeps it from being replaced |
| MacroMeaning.ReplacementIsStable | cpp/cccp.c:3128-3144 | expanding expanded text again, in any context, changes nothing |
| MacroArguments.ArgumentExpandsAlone | cpp/cccp.c:8083-8096 | an argument's expansion depends on its text, the macros switched off and the depth only, and takes nothing from the levels below its buffer |
| MacroCalls.CallIsReplaced | cpp/cccp.c:7948-8336 | a call whose text is there leaves what follows it, switches its macro off and pushes a text that has every token of the body, and for every parameter the whole expansion of its argument, read alone, at the place given by the lengths before it; this if and only if no argument that the body uses, read alone, comes to an unterminated call in its own buffer |
| MacroCalls.NameWithoutCall | cpp/cccp.c:3336-3419 | the name of a macro with arguments is written as it is and nothing else is read if no parenthesis follows, on its own level or below exhausted macro levels |
| MacroCalls.CollectsArguments | cpp/cccp.c:8343-8424 | if the text, across levels, goes on like the arguments of a call, exactly these are collected and what follows is left |
| MacroCalls.CollectedIsCall | cpp/cccp.c:8478-8540 | whatever is collected was such a text, with every argument balanced and free of commas outside parentheses |
| MacroCalls.ExpandsAll | cpp/cccp.c:8076-8106 | each argument the body uses is replaced by its expansion and the others are not touched, or the run ends in one of them that fails when read alone |
| MacroCalls.ExpandsOrFails | cpp/cccp.c:8083-8096 | an argument that has an expansion does not come to an unterminated call |
| MacroCalls.ExpansionIsUnique | cpp/cccp.c:8083-8096 | an argument has one expansion, whatever call it belongs to |
| MacroImpl.Preprocessor.RescanFile | cpp/cccp.c:2588-2640 | the recursive program ends, follows the steps of the specification, reads the whole text and, without macros that take arguments, writes its replacement |
| MacroImpl.Preprocessor.Rescan | cpp/cccp.c:2588-2640 | reads its own level to the end and leaves the levels below as they were |
| MacroImpl.Preprocessor.RescanCall | cpp/cccp.c:3336-3419 | looks for the parenthesis across exhausted macro levels and expands the call or copies the name |
| MacroImpl.Preprocessor.SkipExhausted | cpp/cccp.c:3343-3352 | the levels left are exactly the exhausted macro levels on top |
| MacroImpl.Preprocessor.RescanPlain | cpp/cccp.c:3304-3329 | copied tokens, markers for disabled macros, and expansion of macros without arguments |
| MacroImpl.Preprocessor.CollectArguments | cpp/cccp.c:8343-8424 | nested parentheses and commas, going down through macro levels; fails exactly on an unterminated call |
| MacroImpl.Preprocessor.ExpandArguments | cpp/cccp.c:7948-8336 | the call reaches the state that the steps of the specification reach, with all temporary buffers gone |
| MacroImpl.Preprocessor.ExpandUses | cpp/cccp.c:8076-8106 | each argument that the body uses is expanded once, in order |
| MacroImpl.Preprocessor.ExpandToTempBuffer | cpp/cccp.c:3519-3600 | the input stack is afterwards as before, and the output is the expanded argument |
| MacroImpl.Preprocessor.Push | cpp/cccp.c:8303-8336 | the expansion becomes the top level and the macro T_DISABLED |
| MacroImpl.Preprocessor.Pop | cpp/cccp.c:2635-2638 | the top level goes and its macro is enabled |
| MacroBody.CollectExpansion | cpp/cccp.c:5859-6138 | for every body, what the compiled body makes of any arguments is the body with its operators gone, each parameter outside literals replaced by its # , ## or plain use, blanks before ## and behind # and ## left out, and a final marker unless a literal is open |
| MacroBody.PlainBody | cpp/cccp.c:5911-6138 | a body without # and %: outside literals means the body with each parameter outside literals replaced by its expanded argument between two markers |
| MacroOperators.BodyMeansParts | cpp/cccp.c:5908-6138 | a body put together from names, literals, blanks, #, ## and their digraphs and other characters, with any parameters and arguments: operators and blanks before ## contribute nothing, a parameter behind # its string literal, one next to ## its operand, one elsewhere its expansion, anything else itself, in order |
| MacroOperators.LeadingConcat | cpp/cccp.c:5946-5952 | a ## at the very start is passed over |
| MacroOperators.EvenDigraph | cpp/cccp.c:5981-6002 | %: counts as # behind exactly the even numbers of < |
| MacroOperators.OperandIsPasted | cpp/cccp.c:8206-8252 | an argument of white space, a word, its marker, further text and a tail of white space and markers: pasted to what precedes it, it loses the white space and the marker; pasted to, it loses the tail; on the other sides it gets markers |
| MacroOperators.BlankIsPasted | cpp/cccp.c:8206-8252 | an argument of white space only is pasted to what precedes it as nothing |
| MacroBody.IsDigraph | cpp/cccp.c:5935-5956 | %: counts as # behind an even number of < only |
| MacroUses.ResultUse | cpp/cccp.c:6060-6112 | a place added after what is left of the text contributes exactly the text of its use |
| MacroUses.CutsBlanks | cpp/cccp.c:8228-8245 | what is cut from the end of an argument before ## is white space and markers only |
| MacroBody.FindParam | cpp/cccp.c:6026-6036 | the word is a parameter unless it is L before a quote or does not begin like an identifier |
| MacroBody.Trim | cpp/cccp.c:5886-5888 | trailing white space is left out |
| MacroSubstitution.Substitute | cpp/cccp.c:8108-8299 | when the first pass counts enough, the buffer holds the text with every #, ## and plain use in place, the tail and the final zero |
| MacroSubstitution.CountsEnoughIff | cpp/cccp.c:8073-8106 | the first pass counts enough, whatever the given arguments contain, if and only if the # uses of missing arguments are made up for by ## uses |
| MacroSubstitution.MissingArgumentIsNotCounted | cpp/cccp.c:7975-7982 | a # use of a missing argument: nothing is counted and two quotes are written, although totlen passes its check |
| MacroSubstitution.SpelledFits | cpp/cccp.c:8432-8461 | the string literal of an argument is no longer than the stringified_length that macarg computes |
| MacroSubstitution.FirstPass | cpp/cccp.c:8073-8106 | length of the text plus what each use may take |
| MacroSubstitution.StringifyInto | cpp/cccp.c:8140-8205 | a # use writes Stringified(raw), whose meaning as a string literal is stated by MacroLiterals |
| MacroLiterals.IsOneLiteralIff | cpp/cccp.c:8140-8205 | a # use is one string literal, closed by its last character and no earlier, if and only if no backslash outside the literals of the argument stands right before a double quote or at its end |
| MacroLiterals.ReadsBack | cpp/cccp.c:8194-8202 | the value of the literal, with octal escapes, is the spelling of the argument, for all characters, if its backslashes stand in literals |
| MacroLiterals.UseSaysArgument | cpp/cccp.c:8146-8205 | for an argument put together from characters, literals, runs of white space and markers, with white space around it: the value is the characters and literals as they are, a space for each run, nothing for markers |
| MacroLiterals.SpellingIsSaid | cpp/cccp.c:8146-8180 | the spelling of such an argument, backslashes outside literals included |
| MacroLiterals.LiteralEndsEarly | cpp/cccp.c:8182-8196 | for a backslash and a double quote the literal ends one character too early |
| MacroLiterals.LiteralDoesNotEnd | cpp/cccp.c:8182-8205 | for a single backslash the literal does not end |
| MacroSubstitution.Collapse | cpp/cccp.c:8164-8182 | a run of white space and newline-space markers is passed, to its end exactly |
| MacroSubstitution.RawInto | cpp/cccp.c:8206-8250 | a use next to ## writes the raw argument without the white space and markers that face the ##, and markers on the other sides |
| MacroSubstitution.TrimForPaste | cpp/cccp.c:8228-8245 | the end before trailing white space and markers, where a minus sign belongs to a marker behind an odd number of newlines |
| MacroSubstitution.PlainInto | cpp/cccp.c:8251-8265 | the expanded argument between two markers |
| SymbolTable.Table.Install | cpp/cccp.c:9153-9193 | the new node is the newest definition of its name, other names keep theirs, and all links stay intact |
| SymbolTable.Table.Lookup | cpp/cccp.c:9207-9231 | the newest definition of the name, or none |
| SymbolTable.Table.Delete | cpp/cccp.c:9247-9275 | the node leaves its chain at any place, with next, prev and head repaired |
| SymbolTable.DeleteUncovers | cpp/cccp.c:9247-9275 | deleting a node uncovers the definition before it and changes no other name |
| SymbolTable.Table.AroundIfExpression | cpp/cccp.c:7001-7006 | installing and deleting "defined" leaves array, chains and every link as found |
| SymbolTable.Unlink | cpp/cccp.c:9252-9262 | the neighbours of any node of a chain are linked to each other |
| SymbolTable.HashfLoop | cpp/cccp.c:9282-9295 | the loop computes the hash of the specification |
| SymbolTable.ReadIdentifier | cpp/cccp.c:3119-3123 | the hash kept while an identifier is read selects the bucket of hashf |
| FileNames.SimplifyFilename | cpp/cccp.c:4684-4741 | in place, for every name: the buffer holds the root and the components without empty and dot ones, and the result is its length |
| FileNames.SimplifiedKeepsMeaning | cpp/cccp.c:4684-4741 | same root class, same components, never longer, and simplifying again changes nothing |
| FileNames.SimplifiedShape | cpp/cccp.c:4684-4741 | no doubled slash after the root, no dot unless it is the whole name, no trailing slash beyond the root |
| FileNames.PartsRemain | cpp/cccp.c:4684-4741 | a name of any number of slashes and parts with slashes between them becomes its root and the parts that are neither empty nor a dot, with one slash between them; only a relative name without such parts that ends in a dot remains a dot |
| FileNames.CopyRoot | cpp/cccp.c:4692-4713 | one slash, two where they differ from one, and three or more equal one |
| FileNames.CopyComponent | cpp/cccp.c:4720-4721 | one component with its slash, or the last with the zero |
| FileNames.Trim | cpp/cccp.c:4722-4731 | a final dot and trailing slashes are cut, not past the root |
| MediatorRuns.RunConserves | daemon/poamediator.cc:568-692 | over every run the places of a request that only invoke issued add up to what was there plus one for each time it was accepted |
| MediatorRuns.RequestInExactlyOnePlace | daemon/poamediator.cc:605-692 | a two-way request accepted by invoke is in exactly one place: answered, queued, outstanding under one message id, cancelled while outstanding, or dropped by the queue |
| MediatorRuns.StepConserves | daemon/poamediator.cc:818-835 | each event keeps the sum |
| MediatorQueue.PassLosesNothingIff | orb/queue.cc:168-203 | for every queue of invocations and binds with distinct ids, executing it drops nothing if and only if no record goes back, read off the servers as the pass begins and the launches of the records before it |
| MediatorQueue.PassDropsPutBack | orb/queue.cc:168-203 | what a pass drops is exactly the list of records put back during it |
| MediatorQueue.RequestIsLost | orb/queue.cc:183-186 | a run in which a client's request is put back and dropped in the same pass, neither answered nor queued |
| MediatorQueue.BindIsLost | daemon/poamediator.cc:745-766 | a queued bind whose server is still starting is dropped in the same way |
| MediatorQueue.ExecEffect | daemon/poamediator.cc:568-766 | an invocation goes back to the queue exactly when its server is held, stopped or not up yet; a bind when none of its servers fails and one is not up yet; and what either launches |
| MediatorQueue.AllUpIff | daemon/poamediator.cc:712-758 | a bind starts nothing and waits for nothing if and only if every server it names is Active, held or stopped |
| MediatorStanding.BindInExactlyOnePlace | daemon/poamediator.cc:695-803 | a bind that the mediator takes is, at every later point of every run, in exactly one place (answered once, queued, sent out, dropped by the queue), or it has left once: cancelled while sent out, or executed with nobody to ask |
| MediatorStanding.StepStands | daemon/poamediator.cc:818-835 | each event keeps the place of a bind, replies, other requests and passes over the queue included |
| MediatorBinds.BroadcastAnsweredOnce | daemon/poamediator.cc:769-800 | a bind broadcast is answered exactly once when all its replies are in, with LocateHere if and only if some reply said so, for any interleaving |
| MediatorBinds.BroadcastNotAnsweredEarly | daemon/poamediator.cc:964-1006 | before the deciding reply it is not answered |
| MediatorBinds.CancelledIsNeverAnsweredIff | daemon/poamediator.cc:818-835 | after cancel no run answers the request, late replies included, if and only if it was not waiting in the queue |
| MediatorBinds.CancelledInQueueIsAnswered | daemon/poamediator.cc:818-835 | cancel leaves the queue alone, so that a shutdown answers the cancelled request |
| MediatorBinds.HeldBindIsForgottenIff | daemon/poamediator.cc:745-802 | a bind is taken and ends up in no place at all if and only if servers are named, all of them are held or stopped, and no server is Active |
| MediatorBinds.HeldBindIsForgotten | daemon/poamediator.cc:745-802 | a bind to a held server, with no other server running, is forgotten |
| MediatorBinds.BindStands | daemon/poamediator.cc:695-803 | otherwise a bind that is taken is answered, queued or sent out, and in one place only |
| MediatorBinds.RunOfBroadcast | daemon/poamediator.cc:942-1015 | the slots, the replies so far and the answer of a broadcast stay in step over any run |
| MediatorLifecycle.HeldServerStaysDown | daemon/poamediator.cc:239-340 | a held or stopped server is neither launched nor Active until force_activation or continue |
| MediatorLifecycle.NoRestartWithinThirtySeconds | daemon/poamediator.cc:397-409 | after a crash before activation at time t nothing is launched before t + 30 unless an operator intervenes or the server announces itself |
| MediatorLifecycle.RestartsAfterThirtySeconds | daemon/poamediator.cc:397-409 | whatever arrives in the 30 seconds after such a crash at t, an invocation launches the server if and only if it comes at t + 30 or later, unless somebody intervenes |
| MediatorLifecycle.ForwardsToAnnounced | daemon/poamediator.cc:113-130 | over every run, crashes and restarts included, clients are forwarded to the address that an Active server announced last |
| MediatorService.AnnouncedServerServes | daemon/poamediator.cc:132-149 | a server that announces itself while not held or stopped serves every invocation (forwarded to its address, or sent under a fresh id) over every run, until it is deactivated, held or stopped, or its process ends |
| MediatorService.QueuedInvocationIsServed | daemon/poamediator.cc:142-148 | an invocation anywhere in a queue of distinct ids is answered with the address or sent by the pass that the announcement of its server schedules, and neither put back nor dropped |
| MediatorService.EndedServerStartsAgain | daemon/poamediator.cc:165-190 | after the deactivation or the exit of an Active server the next invocation launches it, without a pause |
| MediatorService.LaunchedProcess | daemon/poamediator.cc:375-468 | the process of a launched server is known, so that it may end before or after the server announces itself |
| MediatorService.StartedOnce | daemon/poamediator.cc:385-387 | a server that was launched is not launched again before it announces itself; invocations wait |
| MediatorService.HeldOrStopped | daemon/poamediator.cc:239-340 | invocations of a server that was put on hold or stopped wait and launch nothing |
| MediatorService.Continued | daemon/poamediator.cc:343-372 | a held, stopped or failed server that may continue is launched by the next invocation, whatever the time of its failure, and the queue is scheduled; a running one is left alone |
| MediatorService.HeldAndForced | daemon/poamediator.cc:211-213 | activating a server on hold makes it serve again at its address, without a launch |
| MediatorService.HeldEnds | daemon/poamediator.cc:172-174 | when a held server ends, activating it launches it |
| MediatorService.StoppedAndForced | daemon/poamediator.cc:215-226 | a stopped server is launched by activating it as soon as its process is gone, and not before |
| MediatorService.Forced | daemon/poamediator.cc:192-236 | activating a server that is not running launches it, without the pause after a failure; a running one is left alone |
| MediatorService.Unknown | daemon/poamediator.cc:488-566 | an invocation of an unknown server fails unless the repository knows the server and its command, and then it launches it |
| MediatorService.StillKnown | daemon/poamediator.cc:488-566 | asking for an object of a known server changes no server |
| MediatorService.ReplyReachesClient | daemon/poamediator.cc:948-962 | the reply to an invocation that was sent reaches the client that made it, and its slot is gone |
| MediatorService.ShutdownTellsAll | orb/queue.cc:222-236 | on shutdown every waiting client is told of a failure of its kind, in the order of the queue |
| MediatorImpl.POAMediator.CreateServer | daemon/poamediator.cc:375-468 | new entry, launch and result as specified, the 30 second pause included |
| MediatorImpl.POAMediator.ActivateImpl | daemon/poamediator.cc:132-149 | Active unless held or stopped, and the queue is scheduled |
| MediatorImpl.POAMediator.DeactivateImpl | daemon/poamediator.cc:151-190 | Active becomes Inactive, Holding becomes Stopped, and the process is forgotten |
| MediatorImpl.POAMediator.ForceActivation | daemon/poamediator.cc:192-236 | all six states |
| MediatorImpl.POAMediator.Stop | daemon/poamediator.cc:271-340 | Stopped, with the running process signalled |
| MediatorImpl.POAMediator.Invoke | daemon/poamediator.cc:568-692 | answered, queued or sent on under a fresh id, by the state of the server |
| MediatorImpl.POAMediator.Bind | daemon/poamediator.cc:695-803 | servers are started, then either the bind is queued or one message goes to each Active server; replies may arrive while it is sending |
| MediatorImpl.POAMediator.AllocateSlots | daemon/poamediator.cc:769-785 | one fresh slot for each Active server before anything is sent |
| MediatorImpl.POAMediator.SendBinds | daemon/poamediator.cc:786-800 | the k-th Active server gets the k-th message id counted from the back |
| MediatorImpl.POAMediator.Cancel | daemon/poamediator.cc:818-835 | the loop that starts over after each erasure ends with no slot of the request left |
| MediatorImpl.POAMediator.NotifyInvoke | daemon/poamediator.cc:948-962 | the slot is erased and the client answered |
| MediatorImpl.POAMediator.NotifyBind | daemon/poamediator.cc:964-1006 | late replies are ignored; a positive reply answers at once and erases the other slots; the last negative one answers |
| MediatorImpl.POAMediator.ExecNow | orb/queue.cc:168-203 | a pass ends, executes each id once and drops what comes again |
| MediatorImpl.POAMediator.Shutdown | orb/queue.cc:222-236 | every queued record is answered with a failure |
| MediatorImpl.POAMediator.ProcessExited | daemon/poamediator.cc:1018-1100 | state of the server after its process ended, Failed with the time if it never announced itself |
| Sieve.GetPrimeNumber | idl/codegen-c++-skel.cc:92-123 | with the wrap-around of CORBA::ULong: the smallest prime from n on for every n from 2 to 2147392392, and n with its last bit set for n from 2^31 on, as long as no step of the marking wraps |
| Sieve.MarkingInRangeIff | idl/codegen-c++-skel.cc:112-114 | no step j += 2i of any prime that the outer loop reaches wraps if and only if 2n modulo 2^32 is less than 4294784785 |
| Sieve.MarkingWraps | idl/codegen-c++-skel.cc:113-114 | from there on 91583 is reached, and behind its multiple 4294784785 marking goes on with 655, which is none |
| Sieve.OuterLoopHasNoExit | idl/codegen-c++-skel.cc:112 | for n from 2147483645 to 2147483647 the condition i*i <= 2n holds for every odd i |
| Sieve.MarkComposites | idl/codegen-c++-skel.cc:111-117 | the marks are exactly those of the odd numbers with an odd divisor below the last i, whose square exceeds 2n, and all accesses stay in c[0..n] |
| Sieve.MarkMultiples | idl/codegen-c++-skel.cc:113-114 | exactly the odd multiples of i beyond i are added, as long as no step wraps |
| Sieve.NextUnmarked | idl/codegen-c++-skel.cc:115-116 | the search ends at an unmarked number no later than the next odd prime, and no later than 2n + 1 |
| Sieve.MarkedIsComposite | idl/codegen-c++-skel.cc:112-117 | once i * i exceeds 2n an odd number is marked if and only if it is not prime |
| Sieve.WrapsToComposite | idl/codegen-c++-skel.cc:112-121 | for n = 2147483648 the result is 2147483649, three times 715827883 |
| Bertrand.PrimeBetween | idl/codegen-c++-skel.cc:98-102 | there is a prime from n to 2n, for every n from 4 to 2626486273 |
| Primes.Proth | idl/codegen-c++-skel.cc:98-102 | the criterion by which the primes of that chain are recognised |
| Dispatcher.EmitDispatcher | idl/codegen-c++-skel.cc:147-233 | up to three entries the chain, else a switch over the number that the sieve finds for count + count / 2, whose keys are all operations and accessors in the order of OpKey |
| Dispatcher.EmitChain | idl/codegen-c++-skel.cc:154-168 | tests for all attributes, then for all operations |
| Dispatcher.SortKeys | idl/codegen-c++-skel.cc:184-202 | the set holds the key of every operation and accessor once, ascending |
| Dispatcher.EmitSwitch | idl/codegen-c++-skel.cc:204-232 | labels where the hash changes, a break before each but the first, and a test for each key |
| Dispatcher.InsertSorts | idl/codegen-c++-skel.cc:133-141 | insertion keeps the set ascending and adds exactly the key |
| Dispatcher.StringHash | orb/util.cc:463-480 | the loop computes the hash of the specification |
| DispatcherMeaning.DispatchersAgreeIff | idl/codegen-c++-skel.cc:147-233 | switch and chain select the same handler, or none, for every request name if and only if no operation has the name of an accessor |
| DispatcherMeaning.ClashIsDispatchedTwice | idl/codegen-c++-skel.cc:147-233 | an interface for which the chain selects the accessor and the switch the operation |
| DispatcherMeaning.SwitchIsValid | idl/codegen-c++-skel.cc:204-232 | each case label is emitted once, and each operation and accessor is tested exactly once |
| DispatcherMeaning.SwitchSelectsFirst | idl/codegen-c++-skel.cc:204-232 | the switch runs the first of the handlers with the request's name in the order of OpKey |
| DispatcherMeaning.ChainSelectsFirst | idl/codegen-c++-skel.cc:154-168 | the chain runs accessors before operations, by index |
| DispatcherMeaning.RequestsSelect | idl/codegen-c++-skel.cc:710-760 | an attribute is read under its name behind _get_ and written under its name behind _set_ unless it is read-only, and an operation is called under its name, the first of its name each |
| DispatcherMeaning.OtherNamesSelectNothing | idl/codegen-c++-skel.cc:710-760 | no other name selects a handler |
| ImrStrings.GetAllAfterPutAll | daemon/imr_impl.cc:101-155 | repeated get_str undoes repeated put_str on every list of fields, except that empty fields are not seen; so exactly when none is empty |
| ImrStrings.EmptyFieldIsDropped | daemon/imr_impl.cc:124-155 | three fields of which the middle one is empty are read back as two |
| ImrStrings.PutSpells | daemon/imr_impl.cc:101-122 | writing a field adds it to the fields of the text, whatever it contains |
| ImrStrings.GetSpells | daemon/imr_impl.cc:124-155 | reading takes the first field and leaves the others |
| ImrStrings.PutStr | daemon/imr_impl.cc:101-122 | the loop writes separator, quotes and escapes as specified |
| ImrStrings.GetStr | daemon/imr_impl.cc:124-155 | the loop reads what the specification reads, and leaves the same rest |
| ImrEntry.EntryRoundTrip | daemon/imr_impl.cc:63-95 | the constructor restores an entry from its text if and only if name and command are not empty and there are objects, each with a tag without # or an id that is not empty and has no # |
| ImrEntry.ObjRoundTrip | daemon/imr_impl.cc:79-92 | the exact condition for one object |
| ImrEntry.HashInTagIsMistaken | daemon/imr_impl.cc:79-92 | a tag with # comes back as a longer id and a shorter tag |
| ImrEntry.ToString | daemon/imr_impl.cc:206-234 | the text of an entry |
| ImrEntry.FromString | daemon/imr_impl.cc:60-96 | the fields read back, or the assertion that fails |
| ImrEntry.RFind | daemon/imr_impl.cc:83 | position of the last # |
| ImrDatabase.DatabaseRoundTrip | daemon/main.cc:58-131 | restore_imr after save_imr yields, in order, exactly the entries with a command if and only if each of them can be stored in one line |
| ImrDatabase.EntriesComeBack | daemon/main.cc:117-128 | the loop over lines gives back the entries if and only if all are good |
| ImrDatabase.SavedOfBoth | daemon/main.cc:75-94 | only the entries without a command are left out, and the others keep their order |
| ImrDatabase.ImplRepository.SaveImr | daemon/main.cc:75-94 | number of entries with a command, then their lines |
| ImrDatabase.ImplRepository.RestoreImr | daemon/main.cc:107-131 | the definitions grow by what the file holds, or the program aborts |
| ImrDatabase.ImplRepository.Restore | daemon/imr_impl.cc:266-277 | a definition is appended unless its constructor aborts |
| ImrDatabase.AtoiDecimal | daemon/main.cc:115 | atoi reads the number that was written |
| LineReader.ReadLine | daemon/main.cc:110-120 | getline with a buffer of 10000 characters: line, end of file and overlong lines |
| LineReader.GetLineOf | daemon/main.cc:118 | a whole line that fits is read without its newline |
| MakeDeps.MkDep | admin/mkdepend.cc:81-146 | the worklist ends on every include graph, cyclic or not, and its set is exactly the files that can be opened along include edges from the root; which edges the lines of a file make is stated by IncludeLines |
| MakeDeps.Reads | admin/mkdepend.cc:98-104 | reading a file keeps the invariant of the worklist, even if the file was read before |
| MakeDeps.Finished | admin/mkdepend.cc:97 | an empty stack means that the set is the reachable files |
| MakeDeps.ReadFile | admin/mkdepend.cc:106-142 | pushes exactly the included files that were found and not read yet, in order |
| MakeDeps.PushTargets | admin/mkdepend.cc:107-141 | the first directory that has the file, and the name itself if it stands in quotes |
| IncludeLines.QuotedName | admin/mkdepend.cc:112-139 | a line with # first, include behind it and a name in quotes and no angle bracket names the file in the first directory that has it and then the name itself if it is readable |
| IncludeLines.BracketedName | admin/mkdepend.cc:112-130 | such a line with a name in angle brackets names the file in the first directory that has it only |
| IncludeLines.QuotedLine | admin/mkdepend.cc:112-139 | the line #include with a name in quotes, as it is usually written |
| IncludeLines.BracketedLine | admin/mkdepend.cc:112-130 | the line #include with a name in angle brackets, as it is usually written |
| IncludeLines.OtherLines | admin/mkdepend.cc:107-123 | lines without # first, without include or without an enclosed name name nothing; an angle bracket that is not closed hides the quotes |
| IncludeLines.EdgesAreLines | admin/mkdepend.cc:103-140 | a file includes exactly what its whole lines of at most 9999 characters name; a last line without newline and everything from a longer line on are not seen |
| IncludeLines.SourceNames | admin/mkdepend.cc:60-85 | a name is that of a source if and only if it is not empty before its last dot and one of five endings follows it |
| IncludeLines.SourceHasDot | admin/mkdepend.cc:60-85 | a name without a dot is not that of a source |

## Left out

- Sieve.GetPrimeNumber: does not say what is returned for n from 2147392393 to 2147483644, nor for n whose double modulo 2^32 is 4294784785 or more: there a step of the marking wraps, and whether a prime is marked by mistake depends on n. From 2147483645 to 2147483647 nothing is returned (Sieve.OuterLoopHasNoExit).
- MacroImpl.Preprocessor.CollectArguments: stops the run at an unterminated call; the source reports the error and goes on past the end of the text.
- MacroMeaning.OutputIsReplacement: states the whole output for tables without macros that take arguments; a call with arguments may reach into the text behind its macro, so for these the replacement of each call is stated instead (MacroCalls.CallIsReplaced).
- MacroCalls.CallIsReplaced: the number of arguments is not checked against the number of parameters, which the source only diagnoses; missing arguments are empty and further ones ignored, as there.
- MacroOperators.BodyMeansParts: a digraph behind an even number of <, a # or % that is no operator, and a # before something that is no name are not among the parts; the first is decided by MacroOperators.EvenDigraph.
- MacroLiterals.UseSaysArgument: literals that do not end and markers inside literals are not among the pieces; MacroLiterals.IsOneLiteralIff and MacroLiterals.ReadsBack hold of them too.
- MacroBody.CollectExpansion: its diagnostics, variable arguments and -traditional are not modelled.
- MacroSubstitution.Substitute: raw arguments have no newlines outside markers; rest arguments and change_newlines are not modelled. What happens when the first pass has counted too little is not modelled.
- NumberToken.ParseNumber: for widths of at least 8 bits, because the carry test relies on a radix that is small against the width.
- ImrDatabase.DatabaseRoundTrip: for lines that fit the buffer of 10000 characters and fewer than 2^31 entries; a longer line is cut and ends the reading.
- Dispatcher.EmitDispatcher: emits the tests, labels and breaks only, for interfaces for which no step of the sieve wraps; names are ASCII.
- MakeDeps.MkDep: whether a name can be read and whether a file can be opened are parameters that do not change while it works; the output of the rule is not modelled.
- FileNames.SimplifyFilename: whether // differs from / is a parameter instead of two calls of stat.
- MediatorImpl.POAMediator.Stop: the wait for the exit of the process, and so the result, are left to the environment.
- MediatorRuns.RequestInExactlyOnePlace: counts what the queue drops as a place of its own.
- MediatorImpl.POAMediator.ProcessExited: one variant of the build, without threads, is modelled; process objects are numbers.
- MediatorLifecycle.HeldServerStaysDown: events in which an assertion of the source fails are excluded from runs.
- Macro text is a sequence of tokens: white space, comments, directives inside calls and special symbols such as __LINE__ are not part of the engine.
- Conditionals work on lines that are already classified; comments and quotes across lines, -traditional, #assert, -M output and precompiled headers are not modelled.
- IncludeCache.Includer.Include: the files contain no #include themselves, and the directives inside them are those of Conditionals.
- The include cache is modelled for one directory; the search path, #import and file name maps are not.
- The parser of #if expressions is modelled by its actions on trees; the Bison tables, error recovery, assertions and character constants are not.
- Redefinition, compare_defs and predefined macros: plain lookups and comparisons.
- find_by_name, find_by_repoid and the client of the implementation repository: plain lookups and comparisons.
- Marshalling, object references and the Interface Repository: the mediator sees their answers as parameters.
