# Rascal editor parse coordinator, in Dafny

This project models the parse coordinator of the Rascal Eclipse editor,
`ParseController` and its inner `ParseJob`
(`src/org/rascalmpl/eclipse/editor/ParseController.java`), and proves
properties of the model.

A parse request hands the edited text to the job and runs it. The job first
forgets its previous tree. If there is no input, or the path is relative and
there is no project, it stops there. Otherwise it asks the project to reload
its other modules, sparing the modules in its *ignore set*, and then parses.
On success it keeps the tree and resets the ignore set to the parsed module's
name alone, so the module being edited is not reloaded from disk while it is
edited. On failure it turns the failure into at most one diagnostic for the
editor's message handler.

- A syntax error (`ParseError`) is reported with a message that shows the
  error, `" FOLLOWED BY: "` and up to 20 code units of the text from the error offset on.
  Unicode space characters other than blank, tab, CR and LF are shown as
  `\uXXXX` escapes. A note is added when anything was escaped.
- Static errors, runtime throws (`Throw`) and ambiguities are reported at
  their source location.
- Anything else is only logged.

The model is split into four modules:

- `JavaLang` (`java_lang.dfy`): the Java semantics the code relies on.
  This covers 32-bit `int` wrap-around, strings as UTF-16 code units,
  `codePointAt`, `appendCodePoint`/`Character.toChars`, `Character.charCount`
  and `String.format("%0Nx")`.
- `ErrorTranslation` (`error_translation.dfy`): the failure kinds as one
  datatype, `setParseError`, the offset clamp, the lookahead window, the
  escape loop (a method proved against a recursive function) and the
  translation of every failure kind into an optional `Diagnostic`.
- `Editor` (`parse_controller.dfy`): the job as a pure state machine
  (`RunSpec`), the `ParseJob` and `ParseController` classes whose methods
  update their fields as the Java code does, and lemmas about series of
  parses.
- `Wrappers` (`wrappers.dfy`): `Option`, standing for Java's `null`.

The parser's result comes in as an argument (`ParseOutcome`). So does the
module name that `Modules.getName` extracts from the tree. `Character.isSpaceChar`
is the argument `isSpaceChar`, left uninterpreted. Lemmas that need to know
that every Unicode space character is a BMP character and not a surrogate
take that as the premise `SpaceCharsAreBmp`. Each call of `reloadProject` is
recorded in the ghost field `ParseJob.reloads`, together with the ignore set
it received.

`parse` and `run` both set the tree to `null` first (lines 190 and 274),
so a failed parse does not keep an earlier tree. `TreeOnlyFromLatestRequest`
states this.

## Model

| member | source | states |
|---|---|---|
| `JavaLang.Wrap` | src/org/rascalmpl/eclipse/editor/ParseController.java:220 | Java `int` arithmetic: a result in range is unchanged, and any result is congruent to the exact one modulo 2^32 |
| `JavaLang.CodePointAt` | src/org/rascalmpl/eclipse/editor/ParseController.java:226 | `codePointAt(i)` gives a supplementary code point exactly when `i` starts a surrogate pair, and the code unit itself otherwise |
| `JavaLang.ToChars` | src/org/rascalmpl/eclipse/editor/ParseController.java:237 | `appendCodePoint` appends `charCount(c)` code units: the unit itself for a BMP code point, and a high then a low surrogate otherwise |
| `JavaLang.ToCharsOfCodePointAt` | src/org/rascalmpl/eclipse/editor/ParseController.java:226-237 | reading a code point at `i` and appending it again reproduces exactly the code units it was read from |
| `JavaLang.CodePointAtOfToChars` | src/org/rascalmpl/eclipse/editor/ParseController.java:226-237 | the other direction: encoding a supplementary code point and reading it back yields the same code point |
| `JavaLang.HexDigitsValue` | src/org/rascalmpl/eclipse/editor/ParseController.java:231 | the lowest `len` hex digits of a number below 16^len are lower-case digits that read back as that number |
| `JavaLang.FormatHexExact` | src/org/rascalmpl/eclipse/editor/ParseController.java:231 | `%04x` of a value below 16^4 is exactly 4 lower-case hex digits whose value is the number formatted |
| `ErrorTranslation.SetParseError` | src/org/rascalmpl/eclipse/editor/ParseController.java:288-294 | one handler call per use, carrying the message unchanged. A negative offset gives exactly the sentinel `(0,0,0,0,1,1)`. A non-negative offset passes the offset, lines and columns through, with an inclusive end offset of `offset + length - 1`, or `offset` itself for length 0 |
| `ErrorTranslation.ClampOffset` | src/org/rascalmpl/eclipse/editor/ParseController.java:216-219 | an offset one past the end of a non-empty input moves to the last character and any other offset is kept, so an offset within `0..|input|` ends up inside the input |
| `ErrorTranslation.Lookahead` | src/org/rascalmpl/eclipse/editor/ParseController.java:220-221 | the window is `input[offset .. min(offset+20, |input|)]`, at most 20 code units and a slice of the input. There is none where `substring` throws (negative offset, offset past the end) |
| `ErrorTranslation.AppendEscaped` | src/org/rascalmpl/eclipse/editor/ParseController.java:223-238 | the loop appends exactly the escaped window to the buffer and sets `hasUni` exactly when the recursive specification escapes something |
| `ErrorTranslation.BuildSyntaxMessage` | src/org/rascalmpl/eclipse/editor/ParseController.java:222-240 | the message built is the error text, `" FOLLOWED BY: "`, the escaped window and the note when `hasUni` is set |
| `ErrorTranslation.EscapeFrom` | src/org/rascalmpl/eclipse/editor/ParseController.java:225-238 | the escape loop with the corrected step of one code point. What it produces is stated by `EscapeWithoutUniIsVerbatim`, `EscapeIsUnitwise` and `EscapesIffOddSpace`, and `AppendEscaped` is proved against it |
| `ErrorTranslation.EscapeAsWrittenFrom` | src/org/rascalmpl/eclipse/editor/ParseController.java:225-237 | the escape loop as written, stepping `i++` while reading `codePointAt(i)`. `SurrogatePairCopiedTwice` shows it repeating a low surrogate, and `AsWrittenAgreesWithoutPairs` shows it agrees with `EscapeFrom` on windows without surrogate pairs |
| `ErrorTranslation.EscapeWithoutUniIsVerbatim` | src/org/rascalmpl/eclipse/editor/ParseController.java:225-238 | when nothing is escaped, the window is copied verbatim, surrogate pairs included |
| `ErrorTranslation.SurrogatePairCopiedTwice` | src/org/rascalmpl/eclipse/editor/ParseController.java:225-237 | the loop as written turns the window D83D DE00 (U+1F600) into D83D DE00 DE00 with no escape. The corrected loop copies it unchanged |
| `ErrorTranslation.AsWrittenAgreesWithoutPairs` | src/org/rascalmpl/eclipse/editor/ParseController.java:225-237 | on a window with no surrogate pair the loop as written (step `i++`) and the corrected loop give the same text and the same `hasUni` |
| `ErrorTranslation.OddSpaceEscape` | src/org/rascalmpl/eclipse/editor/ParseController.java:227-231 | an odd space becomes exactly 6 code units: `\u` and 4 lower-case hex digits whose value is the space's code |
| `ErrorTranslation.EscapeIsUnitwise` | src/org/rascalmpl/eclipse/editor/ParseController.java:225-238 | when all spaces are BMP characters, each odd space is replaced by its escape and every other code unit is copied, in order |
| `ErrorTranslation.EscapesIffOddSpace` | src/org/rascalmpl/eclipse/editor/ParseController.java:223-235 | when all spaces are BMP characters, `hasUni` is set if and only if the window holds an odd space |
| `ErrorTranslation.SyntaxMessageShape` | src/org/rascalmpl/eclipse/editor/ParseController.java:222-240 | the message is the error text, `" FOLLOWED BY: "`, the unit-wise escaped window, and the note if and only if the window holds an odd space |
| `ErrorTranslation.PlainWindowMessage` | src/org/rascalmpl/eclipse/editor/ParseController.java:224-240 | a window without odd spaces (only ASCII white space, say) appears verbatim, with no escape and no note |
| `ErrorTranslation.FromLocation` | src/org/rascalmpl/eclipse/editor/ParseController.java:254-256 | a location yields a diagnostic exactly when it has both offset/length and line/column information. The message is unchanged. A non-negative offset keeps the location's start offset, lines and columns, with end offset `offset + length - 1` when that does not overflow (or `offset` for length 0). A negative offset gives the sentinel position |
| `ErrorTranslation.Translate` | src/org/rascalmpl/eclipse/editor/ParseController.java:212-264 | `FactTypeUseException`, uncaught failures and static errors without offset/length give no diagnostic. A syntax error gives one exactly when its window exists, and never for an offset outside the input. Static errors, throws and ambiguities are read off their location |
| `ErrorTranslation.SyntaxDiagnostic` | src/org/rascalmpl/eclipse/editor/ParseController.java:215-241 | the `ParseError` clause as a function: clamp, window, escaped message, one `setParseError` call with lines shifted by +1. Its properties are stated by `Translate` and `SyntaxErrorDiagnostic`, and `ReportSyntaxError` is proved against it |
| `ErrorTranslation.SyntaxErrorDiagnostic` | src/org/rascalmpl/eclipse/editor/ParseController.java:215-241 | a syntax error in range is reported at the clamped offset, with the escaped-window message, lines shifted by +1 and columns unchanged |
| `ErrorTranslation.LocatedDiagnostic` | src/org/rascalmpl/eclipse/editor/ParseController.java:243-260 | static errors, throws and ambiguities keep their location's lines and columns. A negative offset gives the sentinel |
| `Editor.RunSpec` | src/org/rascalmpl/eclipse/editor/ParseController.java:186-264 | the guard leaves everything but the tree untouched, with no reload and no diagnostic. Otherwise a reload with the pre-parse ignore set happens when there is a project. Success gives a tree and an ignore set of exactly `{name}`. Failure gives no tree and leaves the ignore set and name unchanged. Diagnostics come only from failures |
| `Editor.Unresolvable` | src/org/rascalmpl/eclipse/editor/ParseController.java:191 | the guard of `run`: no input, no path, or a relative path without a project. `RunSpec` states that under it only the tree is cleared, with no reload and no diagnostic |
| `Editor.ParseSpec` | src/org/rascalmpl/eclipse/editor/ParseController.java:273-279 | `parse(String, ...)` as a state transition: the job takes the input and runs. `ParseController.Parse` is proved against it, and `IgnoreIsLastParsedModule` and `TreeOnlyFromLatestRequest` state what series of them do |
| `Editor.IgnoreIsLastParsedModule` | src/org/rascalmpl/eclipse/editor/ParseController.java:205-209 | after any series of parses, the ignore set is exactly `{m}` for the module `m` of the latest successful parse, and otherwise what it was before |
| `Editor.IgnoreHoldsAtMostOneModule` | src/org/rascalmpl/eclipse/editor/ParseController.java:159-209 | starting from a new job, the ignore set holds at most one name, and none before the first successful parse |
| `Editor.TreeOnlyFromLatestRequest` | src/org/rascalmpl/eclipse/editor/ParseController.java:190-203 | after a series of parses a tree is held exactly when the latest one succeeded. An earlier tree is never kept |
| `Editor.MessageHandler.HandleSimpleMessage` | src/org/rascalmpl/eclipse/editor/ParseController.java:290-292 | each handler call records exactly one diagnostic |
| `Editor.ParseJob.Initialize` | src/org/rascalmpl/eclipse/editor/ParseController.java:167-169 | only the job's input changes |
| `Editor.ParseJob.ClearMarkers` | src/org/rascalmpl/eclipse/editor/ParseController.java:171-183 | the set of marked files is `null` afterwards (idempotent) |
| `Editor.ParseJob.Run` | src/org/rascalmpl/eclipse/editor/ParseController.java:186-270 | the job's fields change as `RunSpec` says. Each reload is logged with the ignore set it received, and at most one `setParseError` diagnostic reaches the handler |
| `Editor.ParseJob.Report` | src/org/rascalmpl/eclipse/editor/ParseController.java:212-264 | the handler receives exactly the diagnostic `Translate` gives, or nothing |
| `Editor.ParseJob.ReportSyntaxError` | src/org/rascalmpl/eclipse/editor/ParseController.java:215-241 | the `ParseError` clause clamps the offset, takes the window with `substring`, runs the escape loop and makes one `setParseError` call with lines shifted by +1. The handler receives exactly what `Translate` gives for a syntax error, and nothing when `substring` would throw |
| `Editor.ParseJob.ReportAt` | src/org/rascalmpl/eclipse/editor/ParseController.java:244-260 | one `setParseError` call with the location's fields, or none when the location lacks them |
| `Editor.ParseController.Initialize` | src/org/rascalmpl/eclipse/editor/ParseController.java:118-138 | requires an absolute path exactly when there is no project, and binds path, project and handler to a new job with an empty ignore set |
| `Editor.ParseController.Parse` | src/org/rascalmpl/eclipse/editor/ParseController.java:273-286 | hands the input to the job and runs it. Returns and keeps the job's tree, which is present only when there was input and the parse succeeded. The job's markers are cleared. Reloads with the previous ignore set whenever there is input and a project |
| `Editor.ParseController.ParseDocument` | src/org/rascalmpl/eclipse/editor/ParseController.java:144-150 | without a document, returns nothing, changes nothing (markers included) and reloads nothing. Otherwise it records the document and parses its text, clearing the markers, with exactly one reload, with the previous ignore set, when there is a project |

## Findings

| source | as written | input that shows it | evidently intended | confidence | as-written member | corrected member |
|---|---|---|---|---|---|---|
| src/org/rascalmpl/eclipse/editor/ParseController.java:225-237 | the escape loop reads `follow.codePointAt(i)` but advances `i` by one code unit. For a surrogate pair it appends the whole code point, then reads the low surrogate again and appends it a second time | a lookahead window holding U+1F600, the code units D83D DE00, becomes D83D DE00 DE00 in the message | advance `i` by `Character.charCount(c)`, so that every character without an escape is copied once | high; not executed | `ErrorTranslation.EscapeAsWrittenFrom`, exhibited by `ErrorTranslation.SurrogatePairCopiedTwice` | `ErrorTranslation.EscapeFrom`, proved verbatim by `ErrorTranslation.EscapeWithoutUniIsVerbatim`; used by `SyntaxMessage` and the rest of the model |

## Left out

- Job scheduling, `join`, `synchronized (parser)` and the `InterruptedException` path of `parse`. `Parse` is a plain sequential call, and an interrupted parse is not modelled.
- `Evaluator.parseModule`, `ProjectEvaluatorFactory.reloadProject` and `Modules.getName`/`TreeAdapter` are foreign calls. Their results are arguments, and each reload is a ghost log entry. A failure inside name extraction, after the tree was assigned, is not modelled.
- `Editor.ParseJob.ClearMarkers`: deleting the markers is I/O and is not modelled. On a `CoreException` the source keeps `markedFiles` non-null, while the model always clears it.
- `Activator.log`, `RascalMonitor` progress reporting and `ReportView.listAmbiguities` are logging and UI. The `NullPointerException` that `project.getName()` throws for an ambiguity in a loose file comes after the diagnostic was sent, and it changes no modelled state.
- Exceptions that escape `run` (a `substring` out of range, a location without line information, an uncaught failure kind) are modelled only as "no diagnostic". The Eclipse job framework's handling of them is not modelled.
- `ErrorTranslation.AppendEscaped`, `ErrorTranslation.Translate` and `Editor.ParseJob.Run` use the corrected escape loop. On a window holding a supplementary character the model's message differs from the program's, which repeats the low surrogate (see Findings). On every other window the two agree (`AsWrittenAgreesWithoutPairs`).
- Warnings that `reloadProject` and the parser's `RascalMonitor` forward to the same message handler through `WarningsToMessageHandler` (lines 136, 187 and 201) are not modelled. The handler's `messages` log holds only the diagnostics of `setParseError`.
- This code never clears the handler's earlier messages. The model's `messages` log only grows, and any clearing is the editor host's job.
- The Unicode table behind `Character.isSpaceChar` is an uninterpreted argument.
- Locations whose `getLocation()` is `null` are not modelled.
- Pass-through accessors of the editor host are not modelled: `getCurrentAst`, `setCurrentAst`, `getLanguage`, `getTokenIterator`, `getSourcePositionLocator`, `getSyntaxProperties`, `getAnnotationTypeInfo`, `getPath`, `getProject`, `getDocument` and `getMessageHandler`.
- The other files of the repository are not part of this model. `RectangleShape.java` is draw2d rendering, `ConsoleURIResolver.java` builds URIs and has stream methods that only throw, and `SubgraphFigureManipulator.java` and `EditSentenceAction.java` are UI wiring.
