# NVDA Dev & Test Toolbox: log reader and object property explorer, in Dafny

This project models two parts of the NVDA add-on "Dev & Test Toolbox".

The log reader (`logReader.py`) works inside NVDA's log viewer and other windows that show an NVDA log:

- It recognises header lines of the shape `LEVEL - codePath (time)[ - threadName (thread)]:`.
- It rebuilds a logged message from its header line and the lines below it.
- It rewrites IO and ERROR messages before they are spoken.
- It moves the caret to the next or previous header of a given level.
- It keeps, per window, a switch that turns its one-letter commands on or off.
- It reads the `File "...", line N` references in tracebacks so that the source file can be opened.

The object property explorer (`objPropExplorer.py`) cycles an index over ten properties of the navigator object. It announces the selected one as `name: info`.

## Modules

- `wrappers.dfy`, module `Wrappers`: `Option` and `Result`.
- `strings.dfy`, module `Strings`, holds the string operations of Python that the source uses:
  - `strip`, `lstrip` and `rstrip` with Python's whitespace set;
  - `split` and `join`;
  - `upper` on the ASCII letters;
  - integer formatting;
  - prefix and run helpers that the matchers below are built from.
- `header.dfy`, module `LogHeader`, handles the header line:
  - `LogMessageHeader` and the header pattern `RES_MESSAGE_HEADER`;
  - a backtracking matcher for that pattern, proved sound and complete against an existential reading of it;
  - `makeFromLine`.
- `messages.dfy`, module `LogMessages`, handles a message:
  - `LogMessage`;
  - the IO message patterns;
  - the ERROR rearrangement;
  - `getSpeakMessage` and the sequence shaping of `speak`.
- `reader.dfy`, module `LogReading`, covers reading through the document:
  - it models the document as a sequence of lines, with a line-granular caret;
  - it holds `SEARCHERS` and `makeFromTextInfo`;
  - class `LogReader` with `moveToHeader`.
- `container.dfy`, module `LogContainers`, covers the container of a log:
  - the shared enable table;
  - class `LogContainer`, with `isLogReaderEnabled`, the toggle script, `initialize` and `getLogReaderCommandScript`;
  - the quick navigation table and `moveToHeaderFactory`.
- `sourcepath.dfy`, module `SourcePaths`:
  - the matchers `RE_NVDA_FILEPATH` and `RE_EXTERNAL_FILEPATH`;
  - the decision `script_openSourceFile` takes from them.
- `objprop.dfy`, module `ObjPropExplorer`:
  - the `_INFO_TYPES` selector, as class `Explorer`;
  - `getStateInfo`, `getLocationInfo` and the role entry;
  - the `name: info` announcement with its fallback.

Behaviours of the code that are easy to miss, and that the model follows:

- `makeFromTextInfo` collapses its cursor to the end of the header line and only then moves one line down before its first header test. So the line right after a header always belongs to the body, even if it is a header itself, and the search for the next header starts two lines below the header. So the body does not simply run up to the next header line: see `LogReading.BodyEnd` and `LogReading.BodyBounds`.
- The searchers test the right-stripped line, while `makeFromLine` reads the fully stripped line. A line a searcher finds never starts with whitespace, so both read the same header (`LogReading.FoundLineIsHeader`).
- In the `Input:` pattern the device is the shortest text up to a colon, and the key is the rest of the line.
- The code path group of the header pattern is greedy. On a line such as `LEVEL - x (t) - Thread (123):` it takes `x (t) - Thread`, the time is `123` and no thread is read (`LogHeader.MakeFromLineMergesThread`). The same holds on every line: wherever a code path followed by a thread group fits, the longer code path that runs up to the thread's name fits as well, with the thread's digits as the time, and the longest-first search takes it. So `makeFromLine` never returns a thread name or a thread (`LogHeader.MakeFromLineThreadAbsent`).

## Model

| member | source | states |
|---|---|---|
| LogHeader.ParseCorrect | addon/globalPlugins/ndtt/logReader.py:71-84 | The backtracking search finds a header exactly when some split of the line has the header's shape. Whatever reading it returns is one such split. |
| LogHeader.Parse | addon/globalPlugins/ndtt/logReader.py:84 | The regular-expression match as a backtracking search: the maximal level run, ` - `, then the longest code path, then the longest time. Its meaning is stated by `LogHeader.ParseCorrect`. |
| LogHeader.ParseSound | addon/globalPlugins/ndtt/logReader.py:71-84 | What the search returns is a reading of the start of the line with the header's shape. |
| LogHeader.ParseComplete | addon/globalPlugins/ndtt/logReader.py:71-84 | When some reading of the line is a header, the search finds one with the same level. |
| LogHeader.MatchLevel | addon/globalPlugins/ndtt/logReader.py:71-77 | Every reading of a header line has the same level: the maximal run of A-Z at the start. |
| LogHeader.FindCodePathSound | addon/globalPlugins/ndtt/logReader.py:72-78 | A code path the search picks is a non-empty CR/LF-free field followed by ` (`, a time and a tail. |
| LogHeader.FindCodePathComplete | addon/globalPlugins/ndtt/logReader.py:72-78 | Any code path that fits in the line lets the search succeed. |
| LogHeader.FindTimeSound | addon/globalPlugins/ndtt/logReader.py:73-79 | A time the search picks is a non-empty field followed by `)` and a valid tail. |
| LogHeader.FindTimeComplete | addon/globalPlugins/ndtt/logReader.py:73-79 | Any time field followed by `)` and a tail lets the search succeed. |
| LogHeader.FindThreadSound | addon/globalPlugins/ndtt/logReader.py:74-80 | A thread group the search picks is a name, ` (`, a digit run and `):`. |
| LogHeader.FindThreadComplete | addon/globalPlugins/ndtt/logReader.py:74-80 | Any thread group present in the line lets the search succeed. |
| LogHeader.FindTailSound | addon/globalPlugins/ndtt/logReader.py:80-81 | The tail is the optional ` - name (digits)` group and then `:`. Both thread fields are present or neither is. |
| LogHeader.FindTailComplete | addon/globalPlugins/ndtt/logReader.py:80-81 | Either form of the tail is found. |
| LogHeader.MakeFromLine | addon/globalPlugins/ndtt/logReader.py:132-138 | The result is `Ok` exactly when the line is a header line, and otherwise a `LookupError`. The header read is a valid reading of the line. The thread name is absent exactly when the thread is. |
| LogHeader.MakeFromLineOfHeaderText | addon/globalPlugins/ndtt/logReader.py:124-138 | Every well-formed header, written out, is read back with its level. The other fields need not come back. |
| LogHeader.MakeFromLineThreadAbsent | addon/globalPlugins/ndtt/logReader.py:71-84 | No line is read with a thread group: the thread name and the thread of every header `makeFromLine` returns are both absent. |
| LogHeader.MakeFromLineMergesThread | addon/globalPlugins/ndtt/logReader.py:71-84 | The code path group is greedy. A header written with a thread group is read back with ` (time) - name` appended to its code path, the thread identifier as its time, and no thread. |
| LogHeader.SearcherMatchMeaning | addon/globalPlugins/ndtt/logReader.py:246-257 | A searcher finds a line exactly when some reading of the line is a header whose level the searcher admits. |
| LogHeader.SearcherMatchParses | addon/globalPlugins/ndtt/logReader.py:246-257 | A line a searcher finds is read by `makeFromLine` with an admitted level, and it starts with a capital letter. |
| LogMessages.NewLogMessageStripsBody | addon/globalPlugins/ndtt/logReader.py:141-143 | The stored body is a slice of the given text with only whitespace cut on both sides, and it neither starts nor ends with whitespace. |
| LogMessages.NewLogMessage | addon/globalPlugins/ndtt/logReader.py:141-143 | The message keeps the header and the stripped body. Its meaning is stated by `LogMessages.NewLogMessageStripsBody`. |
| LogMessages.MatchSpeaking | addon/globalPlugins/ndtt/logReader.py:87 | `Speaking [` matches exactly when some `]` follows on the line. The sequence text runs to the last such `]`. |
| LogMessages.LiteralThenRun | addon/globalPlugins/ndtt/logReader.py:88 | A literal and then a maximal non-empty run of a character class: the input is the literal, the run and the rest. |
| LogMessages.MatchBeepOfBeepText | addon/globalPlugins/ndtt/logReader.py:88 | A logged beep is read back as its frequency text and the decimal texts of its three numbers. |
| LogMessages.MatchBeepSound | addon/globalPlugins/ndtt/logReader.py:88 | Whatever the beep pattern accepts is its four literals with the returned groups between them. Each group is a maximal non-empty run of its class, and the rest does not go on with a digit. |
| LogMessages.MatchBeep | addon/globalPlugins/ndtt/logReader.py:88 | The beep pattern as a sequence of literals and maximal runs. Its meaning is stated in both directions by `LogMessages.MatchBeepOfBeepText` and `LogMessages.MatchBeepSound`. |
| LogMessages.MatchInput | addon/globalPlugins/ndtt/logReader.py:89 | `Input: ` matches exactly when a non-empty device is followed by a colon and a non-empty key. The device ends at the first colon that allows that. |
| LogMessages.MatchInputOfGesture | addon/globalPlugins/ndtt/logReader.py:89 | `Input: D:K` with a colon-free D is read as device D and key K. |
| LogMessages.MatchBrailleRegionMeaning | addon/globalPlugins/ndtt/logReader.py:91 | The braille region pattern matches exactly when a `]` follows its prefix on the same line. |
| LogMessages.MatchTimeSinceInputMeaning | addon/globalPlugins/ndtt/logReader.py:93 | The pattern matches exactly when the text is digits, one non-newline character, optional digits and ` sec since input`. |
| LogMessages.DropIgnoredCommands | addon/globalPlugins/ndtt/logReader.py:157-159 | The kept commands are exactly the input's commands that are neither callbacks nor profile triggers. |
| LogMessages.DropIgnoredCommandsConcat | addon/globalPlugins/ndtt/logReader.py:157-159 | Filtering a concatenation filters each part. |
| LogMessages.GetSpeakMessageDropsCallbacks | addon/globalPlugins/ndtt/logReader.py:147-160 | A `Speaking` IO message gives a command sequence with no callback or profile trigger in it. |
| LogMessages.ClassifyIo | addon/globalPlugins/ndtt/logReader.py:146-195 | The IO patterns tried in the source's order: speech, beep, input, typed word, braille region, braille dots, time since input, unknown. The Beep and Input kinds are stated by `LogMessages.ClassifyIoOfBeep` and `LogMessages.ClassifyIoOfInputGesture`. The other six kinds rest on the order of the body's tests alone. |
| LogMessages.GetSpeakMessage | addon/globalPlugins/ndtt/logReader.py:145-210 | `getSpeakMessage` by level and IO kind. Its meaning is stated by the `GetSpeakMessage` lemmas, `LogMessages.ErrorSpeechOfTraceback` and `LogMessages.ErrorSpeechWithoutTraceback`. |
| LogMessages.ClassifyIoOfBeep | addon/globalPlugins/ndtt/logReader.py:162-169 | A logged beep is classified as that beep, with its numbers. |
| LogMessages.GetSpeakMessageOfBeep | addon/globalPlugins/ndtt/logReader.py:162-169 | An IO beep message is spoken as the one beep command it logs. |
| LogMessages.ClassifyIoOfInputGesture | addon/globalPlugins/ndtt/logReader.py:171-174 | `Input: D:K` is classified as an input gesture and matches neither earlier pattern. |
| LogMessages.GetSpeakMessageOfInput | addon/globalPlugins/ndtt/logReader.py:171-174 | An IO message `Input: D:K` is spoken as `Input: K, D`. |
| LogMessages.GetSpeakMessagePassesThrough | addon/globalPlugins/ndtt/logReader.py:176-210 | Messages of other levels, and IO messages of the other recognised kinds or of no known kind, are returned unchanged. |
| LogMessages.ErrorSpeechWithoutTraceback | addon/globalPlugins/ndtt/logReader.py:199-204 | An ERROR body with no line equal to the traceback marker is returned unchanged. |
| LogMessages.ErrorSpeech | addon/globalPlugins/ndtt/logReader.py:199-208 | The ERROR branch: split at CR, find the first marker line, and rearrange. Stated by the two `ErrorSpeech` lemmas. |
| LogMessages.ErrorSpeechOfTraceback | addon/globalPlugins/ndtt/logReader.py:199-208 | With a marker, the result is the last line, a newline, and the lines before the first marker joined with CR. When the marker is the last line, the marker itself comes first. |
| LogMessages.SpeakModes | addon/globalPlugins/ndtt/logReader.py:212-218 | In mode `Message` the spoken sequence is the level and `, ` followed by the other modes' sequence. All other modes speak the same. |
| LogMessages.SpeakPlainMessage | addon/globalPlugins/ndtt/logReader.py:212-218 | A message of another level is spoken as its body, as one text item, after the level prefix in mode `Message`. |
| LogMessages.SpeakOfText | addon/globalPlugins/ndtt/logReader.py:212-218 | Every text result of `getSpeakMessage`, of every level, is spoken as one text item after the mode's lead. |
| LogMessages.SpeakOfTraceback | addon/globalPlugins/ndtt/logReader.py:199-218 | An ERROR message with a traceback is spoken as one text: its last line, a newline, and what precedes the first marker. |
| LogMessages.SpeakOfInput | addon/globalPlugins/ndtt/logReader.py:171-218 | An IO message `Input: D:K` is spoken as the one text `Input: K, D`. |
| LogMessages.SpeakOfBeep | addon/globalPlugins/ndtt/logReader.py:162-218 | An IO beep message is spoken as the one beep command it logs. |
| LogMessages.Speak | addon/globalPlugins/ndtt/logReader.py:212-218 | What `speak` hands to the synthesiser: a text result wrapped as one item, after the level and `, ` in mode `Message`. Its meaning is stated by `LogMessages.SpeakModes` and `LogMessages.SpeakOfText`. |
| LogMessages.Lead | addon/globalPlugins/ndtt/logReader.py:216-217 | What mode `Message` says before the message: the level and a comma. Every other mode says nothing first. |
| LogReading.NextHeaderLineIsFirst | addon/globalPlugins/ndtt/logReader.py:230-236 | The search for the next header returns the first header line at or after its start, or the end of the document. |
| LogReading.MessageAtMeaning | addon/globalPlugins/ndtt/logReader.py:221-241 | The message exists exactly when the stripped line is a header. Its body is the stripped text of the lines after the header up to the first header from the second line on, or up to the end of the document. |
| LogReading.MessageAt | addon/globalPlugins/ndtt/logReader.py:221-241 | The message whose header is at line `i`, built from the lines. Its meaning is stated by `LogReading.MessageAtMeaning`. |
| LogReading.MakeFromTextInfo | addon/globalPlugins/ndtt/logReader.py:221-241 | The loop moving down line by line builds exactly the message `MessageAt` describes. |
| LogReading.ScanBody | addon/globalPlugins/ndtt/logReader.py:231-239 | The downward loop stops where the message ends. That is the first header line from the second line after the header on, or the end of the document. |
| LogReading.NextHeaderLineFirst | addon/globalPlugins/ndtt/logReader.py:231-236 | A line with no header between the start and it, and that is a header or the end of the document, is where the search stops. |
| LogReading.SearchersLevels | addon/globalPlugins/ndtt/logReader.py:246-257 | There are eight search types. `Message` admits every level, `Io` and `Output` admit `IO`, and each other type admits its upper-cased name. |
| LogReading.FoundLineIsHeader | addon/globalPlugins/ndtt/logReader.py:268-276 | A line a searcher finds starts a message whose level the searcher admits. |
| LogReading.NearestHeaderIsNearest | addon/globalPlugins/ndtt/logReader.py:264-270 | The line found is the nearest one strictly beyond the start, in the direction, that the searcher finds. `None` means no such line exists. |
| LogReading.NearestHeader | addon/globalPlugins/ndtt/logReader.py:264-270 | The line the search loop stops at, if any, is a line of the document. That it is the nearest found line is stated by `LogReading.NearestHeaderIsNearest`. |
| LogReading.LogReader.MoveToHeader | addon/globalPlugins/ndtt/logReader.py:264-276 | When a header is found, the cursor and caret move to the nearest found line and its message is announced in the search type's mode. Otherwise "No more item" is the outcome and the caret stays. |
| LogReading.LogReader.constructor | addon/globalPlugins/ndtt/logReader.py:259-262 | The reader's cursor starts collapsed at the caret. |
| LogContainers.EntryOrAfterSet | addon/globalPlugins/ndtt/logReader.py:336-341 | Writing one handle's entry sets what that handle reads, and every other handle reads what it read before. |
| LogContainers.EnableTable.constructor | addon/globalPlugins/ndtt/logReader.py:282 | The shared enable table starts empty, as the class attribute does and as the reset `LogContainer.enableTable = {}` at line 440 makes it again. |
| LogContainers.LogContainer.IsLogReaderEnabled | addon/globalPlugins/ndtt/logReader.py:335-337 | The getter reads this window's entry, with the container's log-viewer flag as the default. Stated by `LogContainers.EntryOrAfterSet`. |
| LogContainers.LogContainer.SetLogReaderEnabled | addon/globalPlugins/ndtt/logReader.py:339-341 | The setter writes this window's entry of the shared table and no other. |
| LogContainers.LogContainer.ToggleReaderCommands | addon/globalPlugins/ndtt/logReader.py:353-365 | The toggle flips this window's setting, leaves other windows' entries alone, and reports the new setting. |
| LogContainers.QuickNavWellFormed | addon/globalPlugins/ndtt/logReader.py:302-310 | The quick navigation keys are distinct and differ from `c`. Each has a search type that has a searcher. |
| LogContainers.GesturesDistinct | addon/globalPlugins/ndtt/logReader.py:319-324 | Gestures of different keys, or with and without shift, are different, and only `kb:c` is the open-source gesture. |
| LogContainers.BindStep | addon/globalPlugins/ndtt/logReader.py:319-323 | One turn of the loop binds the key and its shifted form, keeps every earlier binding and adds no other gesture. |
| LogContainers.BuildScriptTable | addon/globalPlugins/ndtt/logReader.py:318-324 | The table built maps each key to moving to the next message of its type, shift and the key to the previous one, and `kb:c` to opening the source file, and nothing else. |
| LogContainers.QuickNavTableUnique | addon/globalPlugins/ndtt/logReader.py:316-324 | That description fixes the table: two tables meeting it are equal. |
| LogContainers.LogContainer.Initialize | addon/globalPlugins/ndtt/logReader.py:316-324 | An existing script table is kept as it is, and a missing one is built as described. |
| LogContainers.LogContainer.GetLogReaderCommandScript | addon/globalPlugins/ndtt/logReader.py:326-333 | When disabled, there is no script. When enabled, the result is the script of the first gesture identifier that has one, or none when no identifier has one. |
| LogContainers.MoveToHeaderFactory | addon/globalPlugins/ndtt/logReader.py:284-300 | A script is made exactly for directions 1 and -1, keeping the direction and type. Any other direction is a `ValueError`. |
| LogContainers.MoveToHeaderFactoryDescription | addon/globalPlugins/ndtt/logReader.py:285-290 | The description says next for 1 and previous for -1, and names the type. |
| LogContainers.QuickNavScriptsBuild | addon/globalPlugins/ndtt/logReader.py:312-314 | Every quick navigation script, in both directions, is built and has a searcher. |
| LogContainers.LogContainer.RunMoveScript | addon/globalPlugins/ndtt/logReader.py:297-299 | Running a navigation script makes a reader at the caret. The caret moves to the nearest found header, whose message is announced, or stays when none is found. |
| SourcePaths.MatchLineRef | addon/globalPlugins/ndtt/logReader.py:106-107 | What follows the path gives a non-empty digit run. |
| SourcePaths.MatchNvdaPathOf | addon/globalPlugins/ndtt/logReader.py:106 | Every NVDA reference is read back as its path, without a `c` or `o` after `.py`, and its line. |
| SourcePaths.MatchNvdaPathSound | addon/globalPlugins/ndtt/logReader.py:106 | Whatever is accepted is an NVDA reference to the path and line returned. |
| SourcePaths.MatchNvdaPath | addon/globalPlugins/ndtt/logReader.py:106 | Whatever is accepted has an NVDA path and a digit line number. Stated in full by `SourcePaths.MatchNvdaPathOf` and `SourcePaths.MatchNvdaPathSound`. |
| SourcePaths.MatchExternalPathOf | addon/globalPlugins/ndtt/logReader.py:107 | Every absolute `X:\...py` reference is read back as its path and line. |
| SourcePaths.MatchExternalPathSound | addon/globalPlugins/ndtt/logReader.py:107 | Whatever is accepted is an absolute reference to the path and line returned. |
| SourcePaths.MatchExternalPath | addon/globalPlugins/ndtt/logReader.py:107 | Whatever is accepted has an absolute path and a digit line number. Stated in full by `SourcePaths.MatchExternalPathOf` and `SourcePaths.MatchExternalPathSound`. |
| SourcePaths.NvdaAndExternalExclusive | addon/globalPlugins/ndtt/logReader.py:106-107 | No line matches both patterns. |
| SourcePaths.OpenSourceAction | addon/globalPlugins/ndtt/logReader.py:374-395 | The script reports "No file path found on this line." exactly when neither pattern matches. It is silent exactly when an NVDA reference meets an unknown source directory. Whatever it opens is a well-formed path with a line number. |
| SourcePaths.OpenSourceOfNvdaRef | addon/globalPlugins/ndtt/logReader.py:376-385 | An NVDA reference, indented and padded with any whitespace, opens that relative file under the source directory at that line. |
| SourcePaths.OpenSourceOfExternalRef | addon/globalPlugins/ndtt/logReader.py:376-395 | An absolute reference, indented and padded with any whitespace, opens as it is, whatever the source directory. |
| Strings.StripPadded | addon/globalPlugins/ndtt/logReader.py:378 | `strip()` of text padded with whitespace on both sides gives the text back when the text neither starts nor ends with whitespace. |
| ObjPropExplorer.Explorer.constructor | addon/globalPlugins/ndtt/objPropExplorer.py:51-53 | The selection starts at the first entry. |
| ObjPropExplorer.Explorer.NextObjectInfo | addon/globalPlugins/ndtt/objPropExplorer.py:61-63 | The index steps forward modulo ten, stays in range, and the new entry is announced. |
| ObjPropExplorer.Explorer.PriorObjectInfo | addon/globalPlugins/ndtt/objPropExplorer.py:68-70 | The index steps back modulo ten (0 goes to 9), stays in range, and the new entry is announced. |
| ObjPropExplorer.NextIndex | addon/globalPlugins/ndtt/objPropExplorer.py:62 | A next step always lands in [0, 10). |
| ObjPropExplorer.PriorIndex | addon/globalPlugins/ndtt/objPropExplorer.py:69 | A prior step always lands in [0, 10). |
| ObjPropExplorer.PriorUndoesNext | addon/globalPlugins/ndtt/objPropExplorer.py:62-69 | A next step then a prior step, or the reverse, returns the index to where it was. |
| ObjPropExplorer.NextIndexStep | addon/globalPlugins/ndtt/objPropExplorer.py:62 | A next step goes one place on, and from the last entry back to the first. |
| ObjPropExplorer.NextStepsAdvance | addon/globalPlugins/ndtt/objPropExplorer.py:62 | Up to ten next steps move the index that many places round the list, wrapping past the last entry at most once. |
| ObjPropExplorer.NextStepsCycle | addon/globalPlugins/ndtt/objPropExplorer.py:62 | Ten next steps return to the start, and no smaller positive number of steps does. |
| ObjPropExplorer.InfoTypeNamesWellFormed | addon/globalPlugins/ndtt/objPropExplorer.py:40-49 | The ten entry names are distinct and none has a colon. |
| ObjPropExplorer.AnnouncementNamesEntry | addon/globalPlugins/ndtt/objPropExplorer.py:75-86 | The message is the entry's name up to its first colon, then `: ` and the info, or `Unavailable information` when computing the info fails. |
| ObjPropExplorer.Explorer.AnnounceCurrentInfo | addon/globalPlugins/ndtt/objPropExplorer.py:75-86 | The method's message is the announcement of the selected entry. |
| ObjPropExplorer.Explorer.AnnounceObjectInfo | addon/globalPlugins/ndtt/objPropExplorer.py:55-56 | The command announces the selected entry and leaves the selection alone. |
| ObjPropExplorer.Announcement | addon/globalPlugins/ndtt/objPropExplorer.py:75-86 | The message `name: info`. Its meaning is stated by `ObjPropExplorer.AnnouncementNamesEntry`. |
| ObjPropExplorer.Info | addon/globalPlugins/ndtt/objPropExplorer.py:76-85 | The info of each entry: its own function for role, states and location, the given class texts for `pythonClass` and `pythonClassMRO`, and the attribute of its name for the other five. Stated by `ObjPropExplorer.PlainEntriesReadAttributes`, `ObjPropExplorer.StateInfo` and `ObjPropExplorer.RoleInfo`. |
| ObjPropExplorer.LocationInfo | addon/globalPlugins/ndtt/objPropExplorer.py:31-33 | The four location fields, left, top, width and height, each as `field: value`, joined with `, `. Its meaning is stated by `ObjPropExplorer.LocationInfoItems`. |
| ObjPropExplorer.LocationInfoItems | addon/globalPlugins/ndtt/objPropExplorer.py:32 | The location text reads back as its four items. Split at its commas, it gives, in the order left, top, width, height, each field's name, `: ` and the decimal text of its coordinate, with every item after the first preceded by the separator's space. |
| ObjPropExplorer.PlainEntriesReadAttributes | addon/globalPlugins/ndtt/objPropExplorer.py:78-81 | Entries without a function of their own read the attribute of their name, and fail when it is missing. |
| ObjPropExplorer.Insert | addon/globalPlugins/ndtt/objPropExplorer.py:26 | Inserting into an ascending list keeps it ascending and adds exactly that element. |
| ObjPropExplorer.Sorted | addon/globalPlugins/ndtt/objPropExplorer.py:26 | `sorted` gives an ascending list with the same elements, each as often. |
| ObjPropExplorer.AscendingUnique | addon/globalPlugins/ndtt/objPropExplorer.py:26 | Two ascending lists with the same elements are equal. |
| ObjPropExplorer.SortedIgnoresOrder | addon/globalPlugins/ndtt/objPropExplorer.py:26 | The listed order does not depend on the set's iteration order. |
| ObjPropExplorer.StateInfo | addon/globalPlugins/ndtt/objPropExplorer.py:25-29 | The state text exists exactly when every state has a name. Otherwise it is a `KeyError`. |
| ObjPropExplorer.RoleInfo | addon/globalPlugins/ndtt/objPropExplorer.py:41 | The role text exists exactly when the role has a name. |

## Left out

- SourcePaths.OpenSourceOfNvdaRef and SourcePaths.OpenSourceOfExternalRef: the tail must not end with whitespace. A function name with trailing whitespace that is not empty after stripping is still covered: take the name without that whitespace and put the whitespace into `post`. A name made only of whitespace is not covered. The source rejects it, because after `strip()` the text ends in `, in` and neither pattern matches.
- The `eval` of the `Speaking [...]` text is not modelled. The speech command classes are not modelled either. The two regular-expression substitutions before the `eval` are not modelled as text operations. Together they are one parameter, `evaluate`, which gives the command sequence. The model keeps only the filtering of callback and profile-trigger commands.
- The pre-refactor branch (`preSpeechRefactor`) is left out. The model always filters, which is what current NVDA versions do.
- The Beep branch's `float(freq)` is left out because it is floating point. The frequency is kept as its text. The pattern's `[0-9.]+` also accepts texts such as `1.2.3` that `float` rejects with `ValueError`, and the model does not raise that error.
- `\d` is modelled as the ASCII digits. Python's `str` patterns also accept other Unicode decimal digits for `\d`. The frequency group's `[0-9.]` is ASCII in Python too and is modelled exactly (`LogMessages.IsFreqChar`).
- The host text cursor is replaced by a sequence of lines and a line index. The calls it stood for are `makeTextInfo`, `expand`, `collapse`, `move`, `setEndPoint` and `updateSelection`. Positions inside a line are not modelled.
- `makeFromTextInfo` with `atStart=False` raises `NotImplementedError`. That path is not modelled, because every caller passes `atStart=True`.
- `speech.speak`, `ui.message`, `log.*` and the `gv.dbg` debugging assignment are output. The model returns what would be said instead.
- `normalizeGestureIdentifier` is taken as the identity on the identifiers `initialize` builds. The identifiers are given already normalised to `getLogReaderCommandScript`.
- `getLogReaderCommandScript` returns the script's name rather than the bound method that `getattr` looks up.
- `LogContainers.LogContainer.GetLogReaderCommandScript` requires the script table to exist. Both container kinds call `initialize` when they are created (logReader.py lines 399 and 418), so the table exists at every call. Before `initialize`, the source still returns `None` when reading is disabled (lines 327 and 333) or when the gesture has no identifier. Only an enabled call with at least one identifier reaches the table lookup at line 330 and raises `AttributeError`. That path is not modelled.
- `getWindowHandle` and its fallback to the root object's handle are left out. The handle is a field of the container.
- The monkey-patching of `scriptHandler._getObjScript`, the overlay-class selection and `terminate` are NVDA plumbing and are not modelled.
- The class-body `locals()` script generation is modelled only as the factory's results (`LogContainers.QuickNavScriptsBuild`).
- `openSourceFile`, `getNvdaCodePath` and `os.path.join` touch the file system and an external editor. The source directory is a parameter, and the target keeps the directory and the relative path apart.
- `objPropExplorer`'s reflection over `controlTypes` (`_DIC_ROLES`, `_DIC_STATES`) is a parameter of names. So is `api.getNavigatorObject`: the navigator object is a value.
- The formatting of the Python class and of its method resolution order is taken as given text.
- The `except:` of `announceCurrentInfo` catches any exception. The model stands for a failure by a missing attribute, a missing role or state name, or a missing location.
- `ndttGui.py` (settings dialog) is not part of this model, and neither is `debugTool.py` (runtime patching of speech and stack capture).
