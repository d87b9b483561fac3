# Auto-Type verification

A Dafny model of KeePassXC's Auto-Type engine and of two stateful pieces of its release tool, with proofs.
`dafny verify dfyconfig.toml` checks all of it.

## What is modelled

**The sequence compiler** (`src/autotype/AutoType.cpp`). A user string such as `{USERNAME}{TAB 2}^a{DELAY 500}{{}` becomes a
list of typed actions. `Escapes` rewrites the brace escapes and counts braces, `Pattern` is the one regular expression of the
compiler as a recursive scanner with its lazy body, atomic items and backtracking, `Placeholders` holds the key table and the
branches of the dispatch, and `Compiler` holds the loops of `parseSequence` and `verifyAutoTypeSyntax` as methods, each proved
against a function. `Nesting` refines the recursive brace group against a depth counter, `Tokens` shows that scanning undoes
printing, and `Printing` says how every placeholder that the scanner finds is spelled. `Compilation` and `Bounds` state what
holds of every compilation, and `RoundTrip` goes from a text through escaping, compiling and running back to the text.
`Verdicts` gives the exact error of every sequence, `SyntaxCheck` what a syntax check is worth.

The language is also defined a second time, from the side of who writes it. `Numerals` prints numbers in decimal and says which
strings are read as which number, `KeyTable` gives the key or command behind every documented name, `Meaning` says what each
placeholder contributes in characters, keys and literal numbers, and `Sequences` writes sequences from pieces (a character or a
named placeholder, keys held in any order, white space, a count with leading zeros): the text compiles to what the pieces say,
and any sequence whose braces count is read as such pieces. What the pieces say is not taken from the dispatch of the compiler.

**The executor and its re-entrant state machine** (`src/autotype/AutoType.cpp`, `src/autotype/AutoTypeAction.cpp`). `Execution`
is the plain run of a list: window guard, at most five tries, retry waits. `Session` is the Auto-Type object with its two locks,
its executor, and a script for every point at which the event loop runs. A script is a finite tree that an adversary chooses: it
may call Auto-Type again, with a script of its own, to any depth, and it picks every platform answer, window and dialog choice.
`AutoTypeObject` is the class that updates the fields in place; each method is tied to a function of `Session`. `Reentrancy`
runs a monitor over the history and proves it content with every script. `Targets` says when a global call asks, types or gives
up, and into which window and in which mode each event types.

**Two pieces of `release-tool.py`**. `TranslatorList` is the greedy line wrapping of translator names; `BranchCheckout` is the
protocol that remembers the branch on which the tool was started and goes back to it.

Some of what the code does is easily overlooked, and the statements follow the code:

- A repeat count or delay that does not fit an `int` is read as 0: a huge count types nothing and is no error.
- The brace count is no nesting test: `}{` passes, and its braces are typed as characters. So is a modifier with nothing behind it.
- `{DELAY=x}` loses every `delay=` in its name, so `{DELAY=DELAY=5}` sets 5 ms.
- `{DELAY=x}` changes the delay at run time but not the typing delay with which TOTP times are computed.
- The pattern's `.` does not match a line break, so a bare line break in a sequence is dropped without an error. The round
  trip holds exactly for texts without one.
- `verifyAutoTypeSyntax` accepts an empty sequence without an entry, which `parseSequence` rejects.
- The placeholder resolvers read the clock (`{DT_SECOND}` and its kin, `{TOTP}` inside another placeholder; `src/core/Entry.cpp:1210-1236`)
  and other entries, so here they may answer differently at every match of every compilation. A sequence that passes
  `verifyAutoTypeSyntax` may therefore fail to parse later: `{T-REPLACE-RX:/a/[3-{DT_SECOND}]/b/}` names a valid range at second 45
  and an invalid one at second 05. If nothing is known of the resolvers, the check is reliable exactly for sequences that ask none
  or are rejected whatever they answer; else it is as reliable as the resolvers' verdicts are stable.
- `{S:My Field 2}` is read as the name `S:My Field` with the count 2: a name that ends in white space and digits gives them up.
- The dialog lock does not keep a second selection dialog from opening: every execution that ends frees it, whoever holds it, and while
  one dialog is open another one opens exactly if a signal has come since the lock was last taken.
- The branch is restored only if git performs the clean-up's own checkout, and only if the tool was started on a branch: for a detached
  HEAD git reports the name `HEAD`, and checking that out goes nowhere.

## Model

| member | source | states |
|---|---|---|
| `Pattern.MatchAt` | src/autotype/AutoType.cpp:618 | a match takes at least one character and its groups spell out the text it matched; what it captures is said by `Printing.MatchAtIff` |
| `Printing.MatchAtIff` | src/autotype/AutoType.cpp:613-618 | behind any run of modifiers the match is the whole brace group if the depth counter finds one, with all of the run; else the next character; and if there is none on the line, the last of the modifiers behind the others |
| `Pattern.NoMatchIsNewline` | src/autotype/AutoType.cpp:618 | nothing matches at a position exactly if it is a line break or the end |
| `Pattern.ScanCovers` | src/autotype/AutoType.cpp:619-621 | the matches cover the whole sequence in order, with nothing but line breaks around them |
| `Nesting.GroupRefinesCounter` | src/autotype/AutoType.cpp:618 | the recursive brace group matches n characters iff a depth counter closes the first brace there and no `{}` pair lies before; it fails iff no such n exists |
| `Nesting.BraceMatchesIff` | src/autotype/AutoType.cpp:613-618 | at an opening brace the match is that whole group if the counter finds one, and the brace alone as a character otherwise |
| `Tokens.MatchAtCanonical` | src/autotype/AutoType.cpp:618 | whatever text follows, the printed form of a canonical match is matched as that match |
| `Tokens.ScanTexts` | src/autotype/AutoType.cpp:618-621 | scanning the printed concatenation of any list of canonical matches returns the list |
| `Tokens.ScannedGroupIsCanonical` | src/autotype/AutoType.cpp:618 | every placeholder that the scanner finds is canonical: the converse of the above |
| `Printing.PrintedIsCanonicalIff` | src/autotype/AutoType.cpp:618 | a name and a count, printed with one blank between them, are read back as that name and count iff the name is not empty, balanced, without `{}` and without an end that reads as part of the count, and the count is all digits |
| `Printing.SpacedIsCanonicalIff` | src/autotype/AutoType.cpp:618 | the same for any white space between them, of which there must be some iff there is a count |
| `Printing.ScanIsSpelled` | src/autotype/AutoType.cpp:618-621 | every placeholder that is scanned anywhere is `{`, a readable name, white space, its count and `}`: all of the white space, all of the digits, and both or neither |
| `Printing.PlainSpacedIsCanonical` | src/autotype/AutoType.cpp:618 | a name without braces and spaces is captured with any count behind any white space |
| `Escapes.RewriteLeavesNone` | src/autotype/AutoType.cpp:602-605 | no `{{}` and no `{}}` is left after the two replacements |
| `Escapes.RewriteIdempotent` | src/autotype/AutoType.cpp:602-605 | rewriting twice is rewriting once |
| `Escapes.LeftKeepsFreeRightEscapes` | src/autotype/AutoType.cpp:604-605 | the first replacement makes no match for the second, and takes away only those whose brace it used |
| `Escapes.CountAccepts` | src/autotype/AutoType.cpp:604-611 | the count test accepts iff the original excess of `{` over `}` equals left rewrites minus right rewrites |
| `Numerals.NumeralIsRead` | src/autotype/AutoType.cpp:640-643 | `toInt()` of a number printed in decimal, with a sign, leading zeros and white space around it, is that number, or 0 if it does not fit 32 bits |
| `Numerals.OnlyNumeralsAreRead` | src/autotype/AutoType.cpp:671 | whatever `toInt()` reads as another number than 0 is such a numeral |
| `Numerals.DigitsAreDecimal` | src/autotype/AutoType.cpp:640-643 | every string of digits is some zeros and a number in decimal |
| `Numerals.SpaceIff` | src/autotype/AutoType.cpp:618 | white space of the pattern is the blank and the characters 9 to 13 |
| `Numerals.DigitIff` | src/autotype/AutoType.cpp:618 | its digits are the ten of the decimal system |
| `KeyTable.BracesHaveKeys` | docs/topics/AutoType.adoc:63 | `{LEFTBRACE}` and `{RIGHTBRACE}`, to which the escapes are rewritten, and the parentheses press these characters |
| `KeyTable.ArrowKeys` | docs/topics/AutoType.adoc:62 | the names of the arrow keys |
| `KeyTable.WhiteSpaceKeys` | docs/topics/AutoType.adoc:59 | `{TAB}`, `{ENTER}`, `{SPACE}` |
| `KeyTable.PagingKeys` | docs/topics/AutoType.adoc:59 | `{HOME}`, `{END}`, and paging with its second name |
| `KeyTable.DeletingKeys` | docs/topics/AutoType.adoc:59 | inserting, deleting and backspace under all their names |
| `KeyTable.SystemKeys` | src/autotype/AutoType.cpp:82-87 | escape, help, break and print screen |
| `KeyTable.LockKeys` | src/autotype/AutoType.cpp:83-88 | the three lock keys |
| `KeyTable.WindowKeys` | src/autotype/AutoType.cpp:89-92 | the window keys and the menu key |
| `KeyTable.SignKeys` | src/autotype/AutoType.cpp:94-97 | the four signs of the number pad |
| `KeyTable.FunctionKeys` | docs/topics/Reference.adoc:82 | `{Fn}` is the n-th function key for n from 1 to 16, and no key for any other number |
| `KeyTable.NumpadKeys` | src/autotype/AutoType.cpp:113-122 | `{NUMPADn}` presses the digit n, and is no key for a number of more than one digit |
| `KeyTable.OneCharacter` | src/autotype/AutoType.cpp:99-112 | exactly eleven single characters are names, and these have no key but themselves |
| `KeyTable.NoOtherRows` | src/autotype/AutoType.cpp:63-138 | how many names the table has for each first letter: there are no others |
| `KeyTable.OtherNames` | src/autotype/AutoType.cpp:654-785 | a name that is neither a key nor one of the commands is taken for a field of the entry |
| `KeyTable.FieldNames` | docs/topics/AutoType.adoc:46-52 | title, user name, password, URL, notes and `S:` attributes are neither keys nor commands |
| `Compiler.AppendTyped` | src/autotype/AutoType.cpp:696-698 | appends one unmodified character key per character |
| `Compiler.AppendResolved` | src/autotype/AutoType.cpp:771-779 | the same with enter and tab keys for line breaks and tabs |
| `Compiler.AppendRepeated` | src/autotype/AutoType.cpp:666-668 | appends the action as often as the repeat count says, and never for a count below 1 |
| `Compiler.AppendPicked` | src/autotype/AutoType.cpp:725-735 | k picked characters with tabbing append 2k-1 actions, characters and tabs in turn, and nothing earlier is removed |
| `Compiler.CompileKey` | src/autotype/AutoType.cpp:654-668 | the error above the limit, else the row's key or the placeholder's own lower-case name, as often as the count says |
| `Compiler.CompileTotp` | src/autotype/AutoType.cpp:688-702 | the digits at the scheduled time, an error for invalid settings, nothing without TOTP |
| `Compiler.CompileResolved` | src/autotype/AutoType.cpp:738-757 | a resolver's text without modifiers, or its error |
| `Compiler.CompilePick` | src/autotype/AutoType.cpp:703-737 | the missing-attribute error even when only the syntax is checked; else the picked characters |
| `Compiler.CompilePlaceholder` | src/autotype/AutoType.cpp:654-787 | the dispatch performs the step that the specification gives for the placeholder's kind, on actions, delay and error |
| `Compiler.CompileMatch` | src/autotype/AutoType.cpp:623-652 | the same for a match of any form, characters included; what the step is, is said by the rows of `Meaning` |
| `Sequences.WrittenIsSaid` | src/autotype/AutoType.cpp:582-790 | the text written from any pieces without a stray brace, sign or line break compiles to what these pieces say one behind the other, after Begin and the typing delay; the delays of the configuration are held within 0..500 and 100..10000 |
| `Sequences.EverySequenceIsSaid` | src/autotype/AutoType.cpp:582-790 | any sequence whose braces count is scanned into pieces (a character, or a placeholder in one of its senses) and compiles to what they say, or is rejected with the first of their errors |
| `Sequences.EveryMatchIsAPiece` | src/autotype/AutoType.cpp:618-787 | every match that can be written is a piece that is read as this match |
| `Sequences.KeyIsReadable` | src/autotype/AutoType.cpp:618 | the name of every key is read back with any count behind it |
| `Sequences.WrittenIsRead` | src/autotype/AutoType.cpp:602-621 | a text written from matches is scanned as these matches, has no escapes and has its braces in balance |
| `Meaning.SignsAreHeld` | src/autotype/AutoType.cpp:623-636 | in any order and with repetitions, `+` holds shift, `^` control, `%` alt and `#` meta |
| `Meaning.CharacterMeans` | src/autotype/AutoType.cpp:646-652 | a character is typed with the keys written before it |
| `Meaning.KeyMeans` | src/autotype/AutoType.cpp:654-668 | a key is pressed with the keys written before it, n times for a count n up to 100 whatever its leading zeros; 101..2147483647 is an error, and anything larger presses nothing |
| `Meaning.OwnNameMeans` | src/autotype/AutoType.cpp:661-662 | the same for the characters that type themselves |
| `Meaning.WaitMeans` | src/autotype/AutoType.cpp:677-684 | `{DELAY n}` waits n ms up to 10000, once for no count; 10001..2147483647 is an error |
| `Meaning.SetDelayMeans` | src/autotype/AutoType.cpp:669-676 | `{DELAY=n}`, where n is what is left of the name without any `delay=`, sets the delay to n up to 500; 501..2147483647 is an error; a negative or larger number sets 0 |
| `Meaning.SetsOnce` | src/autotype/AutoType.cpp:671 | if `delay=` comes only once, n is what stands behind it |
| `Meaning.OtherDelayMeans` | src/autotype/AutoType.cpp:669-676 | a value that is no numeral sets 0 |
| `Meaning.ModeMeans` | src/autotype/AutoType.cpp:758-763 | `{MODE=..}` sets virtual mode iff its name ends in that word, and normal mode otherwise |
| `Meaning.ClearFieldMeans` | src/autotype/AutoType.cpp:685-687 | `{CLEARFIELD}` clears the field |
| `Meaning.IgnoredMeans` | src/autotype/AutoType.cpp:764-766 | `{BEEP..}`, `{VKEY..}`, `{APPACTIVATE..}` and `{C:..}` contribute nothing |
| `Meaning.TotpMeans` | src/autotype/AutoType.cpp:688-702 | `{TOTP}` and `{TIMEOTP}` type the digits of now plus the whole seconds passed by then, one key each |
| `Meaning.ConversionMeans` | src/autotype/AutoType.cpp:738-757 | the two text conversions type the answer of their own resolver, or stop with its message |
| `Meaning.FieldMeans` | src/autotype/AutoType.cpp:767-785 | a field is typed with enter for a line break and tab for a tab; one that is not resolved is an error |
| `Meaning.PickMeans` | src/autotype/AutoType.cpp:703-737 | `{PICKCHARS:a}` picks from the attribute behind its first colon, `{PICKCHARS}` from the password: what is picked is typed with a tab between any two characters if asked for |
| `Meaning.LowerIs` | docs/topics/AutoType.adoc:40 | names are not case sensitive: lower-casing takes each capital letter to its small one and leaves the rest alone |
| `Compiler.CompileMatches` | src/autotype/AutoType.cpp:619-790 | the loop returns what compiling match after match gives; on an error it returns no actions |
| `Compiler.ParseSequence` | src/autotype/AutoType.cpp:582-790 | actions and error are those of `Parse`: null entry, brace count, then the loop |
| `Compiler.VerifyAutoTypeSyntax` | src/autotype/AutoType.cpp:795-802 | true iff no error; the error is that of a syntax-only parse, none for an empty sequence |
| `Compilation.ParseReached` | src/autotype/AutoType.cpp:619-790 | a parse that gets past the brace count ends as the state after its last match says |
| `Compilation.AllOrNothing` | src/autotype/AutoType.cpp:583-790 | a parse names an error, or its list begins with Begin and the typing delay and every delay is within 0..500 (set) or 0..10000 (wait) |
| `Verdicts.StepFaults` | src/autotype/AutoType.cpp:646-786 | a match stops the parse iff it has a fault, with that error; what came before it, the clock of TOTP, the picks and the syntax-only mode make no difference |
| `Verdicts.ParseFaults` | src/autotype/AutoType.cpp:582-790 | the error of a parse is that of the missing entry, the brace count or the first faulty match, in this order, and there is none iff it succeeds |
| `Verdicts.AcceptedIff` | src/autotype/AutoType.cpp:582-790 | a sequence is accepted iff there is an entry, the braces count and no match is faulty |
| `Verdicts.RejectedByFirst` | src/autotype/AutoType.cpp:619-787 | the first faulty match rejects the sequence with its own error |
| `Verdicts.ErrorsAgree` | src/autotype/AutoType.cpp:582-790 | two parses of a sequence whose matches fare alike, with any entries, hosts and modes, end with the same error |
| `Verdicts.ParsedContributed` | src/autotype/AutoType.cpp:598-790 | a successful parse is the two initial actions and the contributions of the matches in order |
| `Verdicts.Simulation` | src/autotype/AutoType.cpp:620-787 | two compilations with any entries, configurations, clocks, picks, resolvers and modes: a match that both get past contributes the same to both, unless a resolver, TOTP or the user makes its actions; with the same entry and resolvers that answer alike, unless TOTP or the user does |
| `Verdicts.RepeatedKeyFate` | src/autotype/AutoType.cpp:638-668 | behind a key stands nothing or a number with leading zeros; a number in 101..2147483647 rejects the sequence unless something before it does; in an accepted sequence the match contributes its key as often as the number says, once for none, and not at all for a larger number |
| `Verdicts.WaitFate` | src/autotype/AutoType.cpp:677-684 | the same for `{DELAY n}` with limit 10000 and the one wait of n ms it contributes |
| `Verdicts.ModifiersReach` | src/autotype/AutoType.cpp:623-786 | in an accepted sequence characters and keys are typed with shift iff `+` stands before them, control iff `^`, alt iff `%` and meta iff `#`; what is resolved, generated or picked is typed with none |
| `SyntaxCheck.SyntaxForetells` | src/autotype/AutoType.cpp:795-802 | verifying the syntax with one clock, user and set of resolver answers foretells the parse with others iff (without an entry) the sequence is not empty, or (with one) it is rejected whatever resolvers answer, or they accept it both times or neither time |
| `SyntaxCheck.ReliableIff` | src/autotype/AutoType.cpp:738-786 | the check of a sequence foretells every later parse iff no resolver is asked about it or it is rejected whatever they answer |
| `SyntaxCheck.RegexAlone` | src/autotype/AutoType.cpp:748-754 | a regular-expression placeholder alone in a sequence: its resolver's message decides |
| `SyntaxCheck.ForetellingCanFail` | src/core/Entry.cpp:1334-1365 | `{T-REPLACE-RX:/a/[3-{DT_SECOND}]/b/}` passes the check and fails the parse when the resolver answers without and then with a message |
| `Bounds.ReachedPaced` | src/autotype/AutoType.cpp:593-600 | at every match: at most 33/2 actions per character read plus those supplied from outside, and the accumulated delay is the start delay plus all plain delays so far |
| `Bounds.ExpansionBound` | src/autotype/AutoType.cpp:591-668 | on success twice (actions minus 2) is at most 33 times the rewritten length plus twice the actions of resolvers, TOTP and picks |
| `Bounds.TotpIsScheduled` | src/autotype/AutoType.cpp:688-698 | every TOTP match types the digits of now plus the whole seconds of start delay, plain delays so far and typing delay times actions so far |
| `Bounds.ElapsedFitsInt` | src/autotype/AutoType.cpp:692-694 | that sum and its terms fit a signed 32-bit int for rewritten sequences up to 200,000 characters with up to 200,000 external actions |
| `RoundTrip.ExpansionIsTight` | src/autotype/AutoType.cpp:591-668 | `{+ 99}` meets the expansion bound exactly |
| `RoundTrip.ScanOfEscaped` | src/autotype/AutoType.cpp:602-621 | scanning an escaped and rewritten text gives one match per character, line breaks excepted |
| `RoundTrip.EscapedTextCompiles` | src/autotype/AutoType.cpp:602-668 | every escaped text compiles without error to the two initial actions and one unmodified key per character, line breaks excepted |
| `RoundTrip.EscapedTextIsTyped` | src/autotype/AutoType.cpp:602-668 | compiled and run on a platform that obliges, it types the text without its line breaks; it types the text itself iff there are none |
| `RoundTrip.EscapedTextIsTypedUndisturbed` | src/autotype/AutoType.cpp:292-396 | the same on the object: an execution that finds the run lock free types the text, whatever the event loop delivers during the run |
| `Actions.Executor.Exec` | src/autotype/AutoTypeAction.cpp:35-78 | key delay and mode are written by their own actions and by nothing else; only begin, key and clear-field ask the platform |
| `Execution.ExecutionIsPrefix` | src/autotype/AutoType.cpp:358-392 | the calls of a run are, action by action, the tries of a first part of the list: before each action the window is unchanged, its tries are at most five, all of that action and with the platform's answers, Retry but for the last, which is Ok; behind them come only the tries of the action that ended the run, none if its window had changed |
| `Execution.SuccessesArePrefix` | src/autotype/AutoType.cpp:358-392 | the successful calls are the completed part of the list, in order |
| `Execution.RunThreads` | src/autotype/AutoType.cpp:368 | every call finds the executor as the call before it left it |
| `Execution.EffortBound` | src/autotype/AutoType.cpp:365-386 | at most 5n calls and 400n ms of retry waits for n actions |
| `Execution.CompletesIff` | src/autotype/AutoType.cpp:358-392 | all actions complete iff before each the window is unchanged and each succeeds within its tries after nothing but retries |
| `Execution.RunsDoNotLeak` | src/autotype/AutoType.cpp:348-392 | for any two earlier executor states a list makes the same calls with the same results, and once its second action has succeeded it finds and leaves the same executor |
| `Execution.LastDelayWins` | src/autotype/AutoTypeAction.cpp:46-57 | after any calls that follow one another the key delay is that of the last call that set it |
| `Execution.LastModeWins` | src/autotype/AutoTypeAction.cpp:74-78 | and the mode is that of the last mode action |
| `Execution.DelayStays` | src/autotype/AutoTypeAction.cpp:35-78 | without such a call the key delay stays as it was |
| `Execution.ModeStays` | src/autotype/AutoTypeAction.cpp:35-78 | and so does the mode |
| `AutoTypeObject.AutoType.ResetAutoTypeState` | src/autotype/AutoType.cpp:570-576 | forgets window and title and frees the dialog lock whether or not it was held |
| `AutoTypeObject.AutoType.Handle` | src/autotype/AutoType.cpp:401-539 | each delivered event has the effect on the object that the session gives it; the rows of `Targets` say which |
| `AutoTypeObject.AutoType.DeliverActivation` | src/autotype/AutoType.cpp:525-534 | a queued choice is executed once it is delivered |
| `AutoTypeObject.AutoType.RejectDialog` | src/autotype/AutoTypeSelectDialog.cpp:427-436 | a dialog rejected while shown signals twice, from its hide event and as a dialog, and else once |
| `AutoTypeObject.AutoType.PerformGlobalAutoType` | src/autotype/AutoType.cpp:476-555 | the object after a global call is the session's; the next rows say what that is |
| `Targets.DialogOpensIff` | src/autotype/AutoType.cpp:507-549 | a call that finds the dialog lock free opens a dialog and begins no run iff there is a main window and asking is configured, the title is empty, or there is not exactly one match |
| `Targets.GlobalExecutesIff` | src/autotype/AutoType.cpp:548-550 | it begins a run, in the recorded window and normal mode, iff the title is not empty, something matches, and there is no main window or one match without asking |
| `Targets.GlobalSignalsIff` | src/autotype/AutoType.cpp:551-554 | otherwise it signals, frees the lock and forgets the window |
| `Targets.GlobalIsRefused` | src/autotype/AutoType.cpp:478-480 | a call that finds the lock held changes nothing |
| `Targets.StartIsRemembered` | src/autotype/AutoType.cpp:427-439 | a start while the application is in front is ignored; any other is remembered with window and title |
| `Targets.ChoiceTypesInto` | src/autotype/AutoType.cpp:526-533 | a delivered choice that finds the run lock free makes the calls of its list in the window of the last start since the last signal, in virtual mode iff that was chosen |
| `Targets.EntryTypesInto` | src/autotype/AutoType.cpp:415-425 | Auto-Type for an entry makes them in the window in front, in normal mode |
| `Targets.SingleMatchTypesInto` | src/autotype/AutoType.cpp:548-550 | a global call that need not ask makes them in the remembered window, in normal mode |
| `Targets.ChosenMatchIsTyped` | src/autotype/AutoType.cpp:427-539 | from the start of the program: shortcut, dialog and choice make exactly the calls of the chosen list in the window of the shortcut |
| `Targets.FailedParse` | src/autotype/AutoType.cpp:305-314 | a sequence that does not parse ends in a message box, the signal and the return, without the run lock |
| `Targets.WholeExecution` | src/autotype/AutoType.cpp:316-396 | a run that finds the lock free takes it, raises its window if it has one, writes the mode, lets the window settle, performs its actions there, and gives the lock back before it signals |
| `Targets.TriesAreWaitedFor` | src/autotype/AutoType.cpp:365-386 | at most five tries, with the event loop running behind each that fails |
| `Targets.ChoiceIsQueued` | src/autotype/AutoType.cpp:522-534 | a choice closes the dialog and waits, without a signal |
| `Targets.HidingSignals` | src/autotype/AutoTypeSelectDialog.cpp:427-436 | a dialog that is hidden signals and stays open |
| `Targets.RejectionSignals` | src/autotype/AutoType.cpp:535-538 | a rejected dialog is closed and signals, twice if it was shown |
| `Targets.DialogsAreConserved` | src/autotype/AutoType.cpp:476-539 | in any script every dialog that was opened is open, was rejected or was chosen from, and every choice waits or was delivered |
| `AutoTypeObject.AutoType.ExecuteAutoTypeActions` | src/autotype/AutoType.cpp:292-396 | the object after the call, with everything that came in during it, is the session's `Execute` |
| `AutoTypeObject.AutoType.Conclude` | src/autotype/AutoType.cpp:305-318 | an error signals without the run lock; a busy lock returns without a signal; else the run is locked, done and signalled |
| `AutoTypeObject.AutoType.EmitFinished` | src/autotype/AutoType.cpp:394-396 | signals, resets, and ends the call |
| `AutoTypeObject.AutoType.RunLocked` | src/autotype/AutoType.cpp:320-394 | raises, overwrites the mode, waits, settles the window, runs the list, releases |
| `AutoTypeObject.AutoType.PerformActions` | src/autotype/AutoType.cpp:358-392 | the loop over the actions with its window guard is the session's `ActionsFrom` |
| `AutoTypeObject.AutoType.PerformAction` | src/autotype/AutoType.cpp:364-386 | the retry loop is the session's `TriesFrom` and fails exactly when that does |
| `AutoTypeObject.AutoType.ExecOnce` | src/autotype/AutoType.cpp:368-370 | one call of exec, the events of its own loop, and the events processed behind it |
| `Reentrancy.EveryScriptIsSafe` | src/autotype/AutoType.cpp:292-396 | for every script: no run takes a held lock, only the holder calls actions or writes the mode, each run that took the lock released it once and signalled once, no run signals twice; at the end the run lock is free, and the dialog lock too unless a dialog is open or an activation queued |
| `Reentrancy.EveryYieldIsJustified` | src/autotype/AutoType.cpp:292-576 | at every point at which the event loop runs, the run lock is held exactly while some run has taken and not released it, and the dialog lock only while a dialog is open, an activation queued or an execution live |
| `Reentrancy.EventLoopRunsBetween` | src/autotype/AutoType.cpp:348-392 | in any script the event loop runs between the writing of the mode, any two calls of a run, and the release of the lock |
| `Reentrancy.OwnLoopOf` | src/autotype/AutoTypeAction.cpp:35-78 | beginning, keys, clearing and waiting run an event loop of their own, setting the delay or the mode does not |
| `Reentrancy.EveryYieldKeepsInv` | src/autotype/AutoType.cpp:292-576 | the state that meets the event loop at any yield of any script satisfies the invariant that the statements about nested calls and second dialogs ask for |
| `Reentrancy.YieldRestores` | src/autotype/AutoType.cpp:368-370 | the state restored from a recorded yield is the one that yielded |
| `Reentrancy.SecondDialogNeedsSignal` | src/autotype/AutoType.cpp:476-539 | in any script the dialog lock is taken while a dialog is open or queued only if some signal has freed it since it was last taken |
| `Reentrancy.SecondDialogIff` | src/autotype/AutoType.cpp:476-539 | while a dialog is open or an activation queued, a call that asks for a dialog opens another one iff some signal has come since the lock was last taken |
| `Reentrancy.TwoDialogs` | src/autotype/AutoType.cpp:305-314 | an execution that fails to parse is such a signal: two dialogs are open after opening, Auto-Type with the sequence `}`, and opening |
| `Reentrancy.NestedCallsAreHarmless` | src/autotype/AutoType.cpp:316-318 | while a run holds the lock, nothing that comes in calls an action, writes an executor field or takes the lock away |
| `Reentrancy.ExecutionIsUndisturbed` | src/autotype/AutoType.cpp:316-396 | an execution that finds the lock free makes exactly the calls of the plain run and leaves its executor, whatever comes in |
| `Reentrancy.BusyExecutionIsRefused` | src/autotype/AutoType.cpp:316-318 | an execution that finds the lock held calls nothing, writes nothing, takes nothing and does not signal |
| `TranslatorList.AppendName` | release-tool.py:1271-1273 | the last line grows by the name, and by a separator unless it is the last name |
| `TranslatorList.WrapNames` | release-tool.py:1268-1274 | the loop produces the lines that `Wrapped` lays out |
| `TranslatorList.WrappingConserves` | release-tool.py:1268-1276 | without breaks and indents the lines are header, names joined by `, `, and the closing tag: each name once and in order |
| `TranslatorList.GreedyIsLegalIff` | release-tool.py:1270 | the loop's own lines obey the rule it tests iff no name is longer than 111 characters |
| `TranslatorList.GreedyIsOptimal` | release-tool.py:1268-1274 | no in-order split whose lines obey the rule has fewer lines, despite the different first prefix |
| `TranslatorList.WrappingBounds` | release-tool.py:1268-1276 | with a header of at most 119 and names of at most 111 characters, lines are at most 121 long and the last at most 124 |
| `BranchCheckout.ReleaseTool.GitCheckout` | release-tool.py:253-262 | records the branch and directory before the first checkout if nothing is recorded, then checks out; raises iff a command fails |
| `BranchCheckout.ReleaseTool.CleanUp` | release-tool.py:281-290 | checks out what is recorded; 0 iff there was nothing to do or it succeeded |
| `BranchCheckout.RecordedOnce` | release-tool.py:256-258 | once recorded, the branch is never overwritten |
| `BranchCheckout.RecordsTheStart` | release-tool.py:256-260 | after any run the record names what was checked out at its start; with no record nothing has changed |
| `BranchCheckout.RecordedIff` | release-tool.py:253-262 | something is recorded iff some call of the run could name the branch, and it is the repository of the first such call |
| `BranchCheckout.CheckoutMoves` | release-tool.py:259-262 | after any run a checkout succeeds iff git performs it and the branch could be named, now or before; HEAD is then on the branch of that name, at the commit if there is none, or where it was for the name HEAD, and no other repository moves |
| `BranchCheckout.CleanupRestoresIff` | release-tool.py:281-290 | after any run and a clean-up a repository has its first HEAD iff it never left it, or it is the recorded one, started on a branch, and the clean-up's checkout succeeds |
| `BranchCheckout.CleanupRestores` | release-tool.py:1348-1373 | after any run in one repository from a named branch, a clean-up that returns 0 restores every repository |
| `BranchCheckout.SecondCleanupChangesNothing` | release-tool.py:1348-1373 | after a clean-up that returned 0, another one changes nothing, whether or not git lets it |
| `BranchCheckout.EitherCleanupRestores` | release-tool.py:1348-1373 | of two clean-ups either suffices: the exact condition for the recorded repository |
| `BranchCheckout.RestorationCanFail` | release-tool.py:281-290 | a failing clean-up checkout, and a detached start, each leave HEAD elsewhere |

## Left out

- macOS branches: among them the early return at `src/autotype/AutoType.cpp:324-330`, which keeps the run lock held without a signal; the lock properties are about the other builds.
- Platform unload: the platform stays loaded, so the `m_platform` tests at the entry points are not modelled.
- Platform back ends, windows, message boxes, timers, shortcuts and the last-match retype: only their yield points, the active window and the results of begin, key and clear-field are kept, as parameters. Tries that a script does not list answer Ok and deliver nothing.
- Listeners of `autotypeFinished` other than the reset, and the effect of `closeModalWindow` on other dialogs.
- TOTP generation (section 4.2 of RFC 6238) is a function of the time; the placeholder, conversion and regular-expression resolvers are arbitrary functions, one set for each match of each compilation. The two resolvers that report errors clear the message first, so an empty message is no error. That an entry is edited between a check and a parse is covered by the two entries of `Verdicts.ErrorsAgree` and `Verdicts.Simulation`.
- The error argument is empty on entry, as both callers of `parseSequence` make it.
- Surrogate pairs, Unicode case folding (lower-casing is ASCII), other line breaks than `\n`, and the resource limits of the regular-expression library.
- Signed overflow of the accumulated delay beyond the sizes of `Bounds.ElapsedFitsInt`.
- The rows `{` and `}` of the key table cannot be reached through the pattern; they are kept in the table, and no statement about sequences is about them.
- Selection of the sequence and of global matches: how many entries match a window title is a number the adversary picks.
- Message texts of errors and results.
- Names that are both a branch and a tag (for which git reports a longer name), branches deleted or created during a run, two directory names for one repository, and what other git commands do to HEAD.
- The combination of exit codes in the main block of `release-tool.py`, and the rest of that file: subprocesses, Docker, signing, Transifex, argument parsing, colours.
- The sorting of translator names: `WrapNames` takes them in the order in which the loop sees them.
