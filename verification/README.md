# A verified model of ABase's remote control, title formats, MPD client and message bus

The project models four parts of the program and proves what they are for.

* **Remote control** (`KeySequence`, `Entries`, `ModeMachine`, `LircConfiguration`, `ModeLaws`, `ExecutionLaws`,
  `SpellingLaws`, `Startup`, `Revision7`).
  Key presses move a cursor through the code list of every configuration entry; completed entries change modes,
  set latches and hand out their command texts in turn. `KeySequence` has the matcher and what its cursor means,
  `ModeMachine` one press as a fold over all entries, `LircConfiguration` the object that hands out one text per call,
  `ModeLaws` and `ExecutionLaws` the laws of visits and of whole runs, `SpellingLaws` what names and repeats match, and
  `Revision7` the later revision of the same code.
* **Configuration files** (`Escapes`, `EscapeLaws`, `ConfigFile`, `ConfigParsing`, `ConfigLaws`, `ConfigLineLaws`,
  `ConfigIncludes`, `IncludeLaws`, `ConfigLoading`, `RevisionFiles`, `CodeFraming`). The block-structured reader with its tail pointers, escape sequences decoded in place, file
  includes, the way from the lines of a file to the running object, and the cutting of the daemon's bytes into codes.
* **Title formats** (`SongFormat`, `SongFormatter`, `FormatLaws`, `LabelLaws`). A small language with groups, alternatives,
  conjunctions and labels. The interpreter evaluates while it parses and skips dead branches with another scanner;
  here it is proved equal to a compositional meaning of syntax trees.
* **MPD client** (`ByteStream`, `MpdStream`, `MpdReader`, `MpdProtocol`, `MpdConnection`, `MpdEntities`, `MpdArguments`,
  `MpdLaws`, `ElementLaws`, `ReplyLaws`). A bounded buffer with lazy compaction, the OK / list_OK / ACK protocol with its counters, a pull parser
  that looks one element ahead, and the quoting of command arguments.
* **Message bus** (`ModuleBus`). A linked queue that handlers extend while it is emptied, and queries that nest.

What the source changes in place is a class here (`Entry`, `LircConfig`, `Parser`, `Reader`, `Connection`, `CodeReader`,
`Bus`), with methods proved against functions on values; the laws are lemmas about those functions. Linked lists that are
only walked are sequences, and a pointer into one is an index whose value at the length of the list is NULL; the queues
of the bus are linked nodes. Strings are sequences of characters, and `strcasecmp` compares texts after
folding ASCII letters. Sockets are lists of what `select`, `recv` and `read` come back with, cut in any way.

## Findings

* The answer of a query asked inside another query is dropped from the outer answer list as soon as the same list
  gets another message; a query returns everything its handlers did exactly when no query was asked before the last
  action (`ModuleBus.AnswersNotedIff`); asking a and then sending b is answered with b alone
  (`ModuleBus.NestedAnswerLost`). For handlers that only send messages the answer is complete.
* A command list of n commands that breaks off with an `ACK` after m of them leaves a count of n - m. A plain command
  sent next then ends with an error exactly when n and m differ; another command list clears the count first
  (`MpdLaws.AbortedListBites`).
* The repeat rules of the two revisions agree on every repeat count exactly when the entry has no repeat or its
  delay is the default one (`Revision7.RepeatRulesAgree`). An entry without codes answers every press in the older
  revision but follows the repeat rule in the later one (`Revision7.MatchersAgreeIff`).
* In the later revision files that include themselves or each other are never read to their end: reading terminates,
  with an error (`ConfigIncludes.CircularIncludesFail`).
* In the older revision an executed `quit` entry hides the press from the entries behind it, so that a sequence that
  begins with the same button falls behind (`ModeLaws.QuitHidesPress`); an entry follows a press exactly when no entry
  before it quits at it, and its cursor is right for the presses it was shown (`ModeLaws.PassCursorExact`,
  `ModeLaws.CursorOfShown`). In the later revision every entry follows every press (`Revision7.CursorsNeverLost`).
* The condition at src/libmpdclient.c:469 is there to wait again after an interrupted `select`, but line 443 stores the
  result of the comparison, so an interruption is a timeout. The reader as written agrees with one that waits again,
  whatever arrives later, exactly when the buffer and the bytes before the interruption already decide the line
  (`MpdStream.InterruptedTimesOut`, `MpdStream.InterruptionIff`).
* `lirc_nextcode` keeps what lies behind a code only up to the first NUL. It keeps every byte exactly when no NUL lies
  behind the line end in its buffer, for example not of `a`, newline, `b`, NUL, `c`; and every way of cutting a stream
  into reads gives the codes of the stream exactly when no line end lies behind its first NUL
  (`CodeFraming.NextConservesIff`, `CodeFraming.NulLosesBytes`, `CodeFraming.FramingExactIff`).

## Model

| member | source | states |
|---|---|---|
| KeySequence.MatcherExact | src/lirc_client.c:1011-1099 | Over any run of presses the cursor is the longest proper prefix of the list that matches the fresh presses since the last completion; the next press is reported exactly when it is fresh and the last presses match the whole list; repeats move nothing. |
| KeySequence.StepExact | src/lirc_client.c:1018-1098 | One fresh press keeps "longest matching prefix" and reports exactly the completions, after which the search starts afresh. |
| KeySequence.RealignedIsLongest | src/lirc_client.c:1048-1098 | Trying the shifts of the list on itself finds the longest prefix that matches the presses, although the presses are no longer known. |
| KeySequence.BorderIsTail | src/lirc_client.c:1056-1078 | Below a matched prefix, comparing the list with itself and comparing it with the presses give the same verdict. |
| KeySequence.SingleCodeExact | src/lirc_client.c:1024-1045 | A one-code list stays at its head and answers each matching press by the repeat rule. |
| Text.SameTextIff | src/lirc_client.c:1018-1022 | Two names compare equal if and only if they are as long and at every place hold the same character or a capital letter and the same letter 32 above it. |
| SpellingLaws.HitsIff | src/lirc_client.c:1018-1022 | A press hits a code if and only if each field is a wildcard or is spelt like the press, in any letters. |
| SpellingLaws.StepIgnoresCase | src/lirc_client.c:1011-1099 | From every cursor a press gets the same answer and leaves the same cursor in whatever letters it is spelt. |
| SpellingLaws.PlayingAnswers | src/lirc_client.c:1018-1045 | Playing a sequence from the start, in capital or lower-case letters, moves the cursor press by press and is reported at the last one. |
| SpellingLaws.SingleAnswers | src/lirc_client.c:1018-1040 | An entry with one button answers that button, in any letters, by its repeat rule. |
| SpellingLaws.CodelessAnswers | src/lirc_client.c:1015-1016 | An entry without buttons answers every press. |
| SpellingLaws.RepeatRuleIff | src/lirc_client.c:1031-1032 | The fresh press is answered, and then every `repeat`-th repeat. |
| SpellingLaws.DelayedRuleIff | src/lirc_client.c_v7:1309-1311 | In the later revision the repeats of the delay are skipped before that. |
| Entries.Entry.Aligns | src/lirc_client.c:1056-1078 | The inner loop decides whether the shifted list covers its own matched prefix. |
| Entries.Entry.Realign | src/lirc_client.c:1048-1097 | The fallback loop sets the cursor to the first shift that fits and accepts the press, or to the head. |
| Entries.Entry.IsCode | src/lirc_client.c:1011-1099 | One call is one step of the matcher; nothing but the cursor changes. |
| Entries.Entry.Respond | src/lirc_client.c:979-1008 | Latching, muting and taking the next config text in turn. |
| ConfigLaws.CodesRead | src/lirc_client.c:654-717 | Printed `remote` and `button` lines, in any number, link exactly their codes behind those already there, in order, and leave the last remote in force. |
| ConfigLaws.ConfigsRead | src/lirc_client.c:736-765 | Printed `config` lines link exactly their unescaped texts behind those already there, in order. |
| Entries.Entry.Finish | src/lirc_client.c_v7:473-520 | The cursors return to the list heads; the later revision fills in a missing delay. |
| ModeMachine.OffersInOrder | src/lirc_client.c:1140-1167 | A press is offered to each entry at most once, left to right without a gap, and stops early only behind an executed `quit` entry. |
| ModeMachine.PassResumes | src/lirc_client.c:1140-1171 | A pass interrupted after any entry and taken up where it goes on is the uninterrupted pass. |
| ModeMachine.VisitEvents | src/lirc_client.c:1143-1158 | An entry is offered the press once and says at most one text, as the last thing it does. |
| ModeMachine.VisitKeepsSettings | src/lirc_client.c:962-1009 | Executing entries changes cursors, latches and the current mode but no setting read from the file. |
| LircConfiguration.LircConfig.ClearMode | src/lirc_client.c:939-960 | The latches of the mode that is left are released, no others, and there is no mode afterwards. |
| LircConfiguration.LircConfig.Execute | src/lirc_client.c:962-1009 | Leaving, entering, latching and the next text, with the resume point behind the entry or, after `quit`, at NULL. |
| ExecutionLaws.VisitWithExactly | src/lirc_client.c:962-1009 | A visit in full, for either matcher: whether the entry is executed, the mode in force afterwards, every latch, the text said and its place in the round, the events in order, and that all else stays. |
| ExecutionLaws.VisitChangesMode | src/lirc_client.c:975-982 | After a visit the mode is the executed entry's change, none if it only leaves, and otherwise the mode before. |
| ExecutionLaws.VisitSays | src/lirc_client.c:995-1008 | The text of a visit: the entry's current one if it is executed, of the program and not muted by a latch still set. |
| ExecutionLaws.ModeInForce | src/lirc_client.c:939-1009 | Over any run the mode in force is that of the last executed entry that changes or leaves one, or the mode at the start. |
| ExecutionLaws.LatchesOverRun | src/lirc_client.c:939-998 | Over any run a latch is set exactly by the executions: by the entry's own, until one leaves the mode it changes to. |
| ExecutionLaws.EnteringMakesSpeak | src/lirc_client.c:979-1008 | Once an entry has been executed, an entry of the mode it changes to speaks at its completing press. |
| LircConfiguration.LircConfig.Code2Char | src/lirc_client.c:1116-1172 | One call goes on with the pass up to the next text; the rest of the pass is still to come, or it is over and the next press starts at the first entry. |
| LircConfiguration.LircConfig.Drain | src/mod_lirc.c:64-68 | Asking until there is no text is exactly one pass over the entries: same texts, same final state, resume point at the first entry; and it terminates. |
| ModeLaws.OncePerModeVisit | src/lirc_client.c:979-998 | Between two texts of a `once` entry its mode has been left; an entry latched at the start is silent before that. |
| ModeLaws.RunKeepsLatchesSound | src/lirc_client.c:939-1009 | Over every run `ecno` implies `once` and a mode to change to. |
| ModeLaws.TextsRoundRobin | src/lirc_client.c:995-1006 | Over any run, whatever the other entries and modes do, the k-th text of an entry is its k-th config text, counted cyclically. |
| ModeLaws.RunFollowsMatcher | src/lirc_client.c:1140-1167 | Without `quit` every entry's cursor follows every press, also in modes where the entry is inactive. |
| ModeLaws.PassCursorExact | src/lirc_client.c:1140-1167 | In one pass an entry follows the press, unless a `quit` entry before it is executed: then its cursor stays. |
| ModeLaws.CursorOfShown | src/lirc_client.c:1011-1172 | Over any run, `quit` or not, the cursor of a sequence entry is the longest prefix of its list that matches the fresh ones of the presses it was shown since the last completion. |
| ModeLaws.QuitHidesPress | src/lirc_client.c:1140-1167 | A `quit` entry for a button hides it from a sequence that begins with that button, whose cursor then falls behind. |
| ModeLaws.SequenceEntryIff | src/lirc_client.c:1011-1172 | Without `quit` a sequence entry says something at a press if and only if the press is fresh, completes its sequence since the last completion, and finds the entry in its mode, with a text of its own program to say and not muted. |
| Startup.TakeDeclared | src/lirc_client.c:843-861 | The first entry that declares a startup mode names it and loses its mode change. |
| Startup.FindNamed | src/lirc_client.c:864-875 | Whether some entry belongs to a mode named like the program. |
| Startup.StartsIn | src/lirc_client.c:843-889 | The mode at startup is that of the first entry that declares one, else the one spelt like the program if an entry belongs to it, else none; only the declaring entry loses its change. |
| Startup.LatchAll | src/lirc_client.c:877-888 | Exactly the `once` entries of the startup mode are latched. |
| Startup.Configure | src/lirc_client.c:819-889 | The object starts at the first entry, in the startup mode, with its latches. |
| Startup.StartupLatches | src/lirc_client.c:838-889 | After startup a latch is set exactly on the `once` entries that change to the startup mode. |
| Startup.LatchesSoundFromStartup | src/lirc_client.c:838-1009 | From startup on and over every run `ecno` implies `once` and a mode to change to. |
| Startup.OnceFromStartup | src/lirc_client.c:838-1009 | A `once` entry of the startup mode is silent until that mode has been left. |
| Revision7.IsCode7 | src/lirc_client.c_v7:1283-1368 | One call is one step of the same matcher with the delayed repeat rule. |
| Revision7.Execute7 | src/lirc_client.c_v7:1244-1281 | The same effect as before, except that the resume point is left alone. |
| Revision7.Code2Char7 | src/lirc_client.c_v7:1385-1448 | One call goes on with the revised pass, in which entries behind an executed `quit` follow the press but are not executed. |
| Revision7.Drain7 | src/mod_lirc.c:64-68 | Over the later revision, too, asking until there is no text is exactly one pass, and it terminates. |
| Revision7.Pass7Cursor | src/lirc_client.c_v7:1411-1438 | In one pass every entry follows the press, whatever is executed and whoever quits before it. |
| Revision7.Run7FollowsMatcher | src/lirc_client.c_v7:1411-1438 | Over any run, `quit` or not, every cursor is the matcher run on all the presses. |
| Revision7.CursorsNeverLost | src/lirc_client.c_v7:1283-1438 | Over any run, `quit` or not, the cursor of a sequence entry is the longest prefix of its list that matches the fresh presses since the last completion. |
| ExecutionLaws.QuietBehindQuit | src/lirc_client.c_v7:1415-1430 | In the later revision, once an entry has quit, the others change and say nothing at this press; only their cursors move. |
| ExecutionLaws.QuitEndsExecution | src/lirc_client.c_v7:1424-1430 | Executing a `quit` entry ends what the press executes. |
| Revision7.RepeatRulesAgree | src/lirc_client.c_v7:1309-1311 | The delayed rule agrees with the plain one on every repeat count if and only if there is no repeat or the delay is the default. |
| Revision7.MatchersAgreeIff | src/lirc_client.c_v7:1283-1368 | Both matchers give the same answer and cursor for every press if and only if the entry has several codes, or one code and no repeat or the default delay, or none and a repeat of one without delay. |
| Revision7.PassesAgree | src/lirc_client.c_v7:1411-1438 | Without `quit`, with entries whose matchers agree, both revisions make the same pass. |
| Revision7.RevisionsAgree | src/lirc_client.c_v7:1385-1448 | Without `quit`, with entries whose matchers agree (for example at least one code and the default delay), over any stream of presses both revisions go through the same states and hand out the same texts. |
| SongFormatter.SkipFormatting | src/util.c:52-73 | The bracket-counting scanner stops at the delimiter where evaluating the segment would stop. |
| SongFormatter.Specifier | src/util.c:149-225 | A `%` specifier, complete or not, has the meaning of the tree's atom and its extent, whatever the song. |
| SongFormatter.Format | src/util.c:76-230 | For every text, song and start the result is the meaning of the tree read there, and `last` is the end of that tree. |
| SongFormatter.ConnectiveStep | src/util.c:88-111 | Skipping a dead segment leaves what the tree's meaning leaves. |
| LabelLaws.SegmentMeans | src/util.c:113-226 | A segment prints its atoms in order: characters and escaped characters as they are, labels by their values, unknown labels and stray specifiers as they stand, groups by their worth; and something is found exactly when a label or group of it has a value. |
| LabelLaws.BracketedLabel | src/util.c:113-131 | `[%name%]` prints the value of the label, and nothing without one. |
| LabelLaws.LabelOrLabel | src/util.c:88-100 | Of two labels joined as alternatives the first one with a value is printed. |
| LabelLaws.UnclosedLabel | src/util.c:151-165 | A label ends with the first character that is no lower-case letter; unless that is a percent sign it is text. |
| LabelLaws.ClosedLabel | src/util.c:151-165 | Lower-case letters between percent signs are a label, whatever follows. |
| FormatLaws.PrintedFormMeansTree | src/util.c:76-230 | Interpreting the printed form of any tree is evaluating the tree, and reads all of it. |
| FormatLaws.ChainReadsBack | src/util.c:76-230 | Reading the printed form of a tree gives that tree and its extent. |
| FormatLaws.ChainPrintsBack | src/util.c:76-230 | The tree read from any text prints as the text that was read. |
| FormatLaws.GroupHasValueIffFound | src/util.c:113-131 | A closed group has a value exactly when something was found in it at its bracket. |
| FormatLaws.SegmentAdds | src/util.c:133-226 | A live segment adds its own text and find, whatever came before it. |
| FormatLaws.AlternativesPickFirst | src/util.c:88-100 | A group of alternatives is the first one in which something is found, alone, or nothing. |
| FormatLaws.ConjunctionNeedsAll | src/util.c:102-111 | A group joined by `&` is all the texts in order if something is found in each, else nothing. |
| FormatLaws.MixedChainCombines | src/util.c:86-131 | A group with any mixture of the two connectives is its segments' values combined from left to right, both connectives binding equally, although dead segments are skipped. |
| Escapes.ParseHex | src/lirc_client.c:251-288 | Any number of hex digits, read in 32-bit arithmetic, gives the unbounded value modulo 256, consumes exactly the digits, and is warned about exactly when the value exceeds a byte. |
| Escapes.ParseOctal | src/lirc_client.c:219-250 | At most three octal digits, their value modulo 256. |
| Escapes.ParseEscape | src/lirc_client.c:184-293 | Every escape sequence gives its byte and its end. |
| Escapes.ParseString | src/lirc_client.c:295-316 | Decoding in place gives the pure decoding; writing never overtakes reading. |
| Escapes.EscapeRoundTrip | src/lirc_client.c:184-316 | Decoding the canonical escaping of any NUL-free text returns the text. |
| EscapeLaws.LetterEscapes | src/lirc_client.c:195-213 | The escapes of a, b, e, f, n, r, t and v stand for these control characters. |
| EscapeLaws.ControlEscapes | src/lirc_client.c:289-290 | The characters from `@` to `Z` stand for the control characters 64 below. |
| EscapeLaws.OtherEscapes | src/lirc_client.c:214-215 | Any other character stands for itself, a line end for a terminator. |
| EscapeLaws.PlainCharacters | src/lirc_client.c:216-218 | A last backslash gives a terminator; characters without one stand for themselves. |
| EscapeLaws.HexEscapeIs | src/lirc_client.c:251-288 | A number of any size written in hexadecimal digits, in any letters, gives its lowest byte and ends with its digits. |
| EscapeLaws.OctalEscapeIs | src/lirc_client.c:219-250 | One to three octal digits give the lowest byte of their value; a fourth is a character of its own. |
| CodeFraming.CodeReader.NextCode | src/lirc_client.c:1194-1250 | One call: at most one read, the first line of the buffer if there is one, and of the rest what lies before a NUL. |
| CodeFraming.NextConservesIff | src/lirc_client.c:1239-1249 | A code is the first line of the buffer; the call keeps every other byte if and only if no NUL lies behind that line in the buffer. |
| CodeFraming.NulLosesBytes | src/lirc_client.c:1241-1247 | A stream of which a call loses a byte. |
| CodeFraming.AllCodesExact | src/lirc_client.c:1194-1250 | From any state, all calls together hand out the codes of the bytes to come if no line end lies behind their first NUL. |
| CodeFraming.FramingExactIff | src/lirc_client.c:1194-1250 | Every way of cutting a stream gives the codes of the stream if and only if no line end lies behind its first NUL. |
| CodeFraming.CodeReader.PollAll | src/mod_lirc.c:58-85 | Polling until the connection ends terminates and yields the codes of all the bytes, under the same condition. |
| CodeFraming.CodesConserve | src/lirc_client.c:1239-1249 | The codes of a stream and the bytes behind its last line end are the stream; each code has exactly one line end, at its end. |
| ConfigFile.TrimmedIsBare | src/lirc_client.c:167-180 | Trimming takes off all the blanks at both ends and nothing else. |
| ConfigFile.Trim | src/lirc_client.c:167-180 | The two loops leave the part between the blanks at both ends. |
| ConfigParsing.Parser.ModeToken | src/lirc_client.c:318-496 | `begin` and `end` lines open and close entries and modes; an error changes nothing. |
| ConfigParsing.Parser.KeyValue | src/lirc_client.c:625-785 | What each `key = value` line does to the open entry or to the remote in force. |
| ConfigParsing.ReadConfig | src/lirc_client.c:572-836 | The entries of a file, distinct objects in order, or an error exactly when some line has one. |
| ConfigLineLaws.NeutralLinesIgnored | src/lirc_client.c:574-596 | Blank lines, comments with or without an equals sign, and lines of more than two words may stand anywhere: the entries read are the same. |
| ConfigLineLaws.AcceptedIff | src/lirc_client.c:572-806 | A file is refused if and only if a line comes where it may not: a key outside of an entry, `begin` within one, `begin m` within an entry or mode, an `end` or `end m` that closes nothing. |
| ConfigLineLaws.LineWords | src/lirc_client.c:577-590 | The words of a line are the same however they are spaced. |
| ConfigLineLaws.KeyLineSpaced | src/lirc_client.c:627-629 | Blanks around a key and its value do not matter. |
| ConfigLineLaws.KeysIgnoreCase | src/lirc_client.c:649-783 | Keys may be written in capital or lower-case letters. |
| ConfigLineLaws.BlocksIgnoreCase | src/lirc_client.c:328-383 | So may `begin` and `end`. |
| ConfigLineLaws.LastSettingWins | src/lirc_client.c:649-776 | Of several lines with the same key the last one counts. |
| ConfigLineLaws.UnknownKey | src/lirc_client.c:777-783 | An unknown key changes nothing within an entry. |
| ConfigLineLaws.UnknownWords | src/lirc_client.c:490-495 | A line of one or two unknown words only ends the force of a `remote` line. |
| ConfigLineLaws.LastEndMayBeMissing | src/lirc_client.c:792-800 | A last `end` may be missing: the entries read are the same. |
| ConfigLaws.ConfigRoundTrip | src/lirc_client.c:318-836 | Any printed configuration is a text file that reads as the same entries in the same order, with their modes, sticky remotes and unescaped texts, and cursors at the list heads. |
| ConfigLaws.EntryRead | src/lirc_client.c:572-789 | A printed entry is read as that entry wherever it stands and leaves no remote in force. |
| ConfigLaws.EncodedIsTidy | src/lirc_client.c:736-765 | An escaped text survives trimming and reading as a line, and decodes to the text. |
| ConfigLoading.FileIsReady | src/lirc_client.c:406-407 | Every file that can be read gives entries with both cursors at the list heads and no latch, although the cursors were tail pointers meanwhile. |
| ConfigLoading.LoadConfig | src/lirc_client.c:532-836 | From the lines to the object in its startup mode, or an error exactly when reading has one; presses can be matched if wildcards lead in its code lists. |
| ConfigLoading.LatchesFromFile | src/lirc_client.c:532-1009 | Whatever a file with matchable code lists says and whatever is pressed, latches are sound and a `once` entry of the startup mode is silent until that mode is left. |
| RevisionFiles.FileDefaultsDelays | src/lirc_client.c_v7:516-520 | The later reader gives every entry of a file without `delay` lines its default delay. |
| RevisionFiles.ReadersAgree | src/lirc_client.c_v7:796-1064 | Without `delay` lines both readers accept the same texts and read the same entries, but for the delays the later one fills in. |
| RevisionFiles.RunPlain | src/lirc_client.c:1011-1172 | The older scan makes the same of every press whatever delays are noted in the entries. |
| RevisionFiles.RevisionsAgreeFromFile | src/lirc_client.c_v7:757-1448 | The older reader reads a file and the later one its splice, both start up, and then the older scan and the later scan hand out the same texts and go through the same states but for delays, whatever is pressed; for files with a button in every entry and without includes, `quit` and `delay`. |
| ConfigIncludes.OpenIncluded | src/lirc_client.c_v7:800-845 | An include line puts the named file on the stack unless ten are open or it cannot be opened; what is still to be read stays the same. |
| ConfigIncludes.ReadConfig7 | src/lirc_client.c_v7:757-1118 | The parser gets the depth-first splice of the included files; at most ten files are open; reading terminates for files that include themselves. |
| ConfigIncludes.CircularIncludesFail | src/lirc_client.c_v7:800-845 | Files each of which includes one of them are an error, from whatever line they are read and at whatever depth they are met. |
| ConfigIncludes.SelfIncludeFails | src/lirc_client.c_v7:800-845 | In particular a file that includes itself. |
| ConfigIncludes.NoIncludes | src/lirc_client.c_v7:775-785 | A file without includes is handed to the parser as it is. |
| IncludeLaws.IncludeLineNames | src/lirc_client.c_v7:808-825 | `include` in any letters, with blanks and a name in quotes, in angle brackets or bare, is an include line for that name. |
| IncludeLaws.NoIncludeLine | src/lirc_client.c_v7:796-808 | Blank lines, comments, lines with an equals sign and lines that begin with another word include nothing. |
| IncludeLaws.IncludedInPlace | src/lirc_client.c_v7:785-846 | The lines of an included file are read in place of the include line. |
| IncludeLaws.TenDeep | src/lirc_client.c_v7:810-818 | Files that include one another in a row are read if and only if there are at most ten. |
| IncludeLaws.UnopenedFails | src/lirc_client.c_v7:833-844 | An include line for a file that cannot be opened is an error. |
| IncludeLaws.CommentsIgnored | src/lirc_client.c_v7:796-807 | Blank lines and comments may stand anywhere in a file with includes, too. |
| MpdArguments.SanitizeArg | src/libmpdclient.c:72-102 | The sanitised copy with its terminator fits the allocated length. |
| MpdArguments.ArgumentRoundTrip | src/libmpdclient.c:93-99 | Between double quotes any argument ends at its own closing quote and is read back unchanged. |
| MpdArguments.SanitizedInjective | src/libmpdclient.c:93-99 | Two arguments are never sent as the same text. |
| MpdReader.Reader.FindNewline | src/libmpdclient.c:419-421 | Searching only from where the last search ended misses no line end. |
| MpdReader.Reader.Compact | src/libmpdclient.c:422-430 | Moving the unread bytes to the front keeps them. |
| MpdReader.Reader.Refill | src/libmpdclient.c:422-476 | A round makes room, receives, and loses no byte; it fails only by overrun, close or timeout. |
| MpdReader.Reader.ReadLine | src/libmpdclient.c:419-481 | The line delivered, or the error, depends on the bytes and on how they end, not on how they arrive; nothing is lost; the overrun error means an unfinished line of at least 50000 bytes; the indices stay in bounds. |
| MpdStream.InterruptedTimesOut | src/libmpdclient.c:443-475 | An interruption before the line is decided is reported as a timeout, whatever would have come later. |
| MpdStream.InterruptionIff | src/libmpdclient.c:443-475 | The reader agrees with one that waits again, whatever arrives later, if and only if the bytes before the interruption decide the line. |
| MpdLaws.LinesConserve | src/libmpdclient.c:419-481 | The lines with their line ends and the undelivered bytes are the stream. |
| MpdLaws.LinesRoundTrip | src/libmpdclient.c:419-481 | The lines sent are the lines read. |
| MpdLaws.GetWithin | src/libmpdclient.c:483-545 | A read within a reply sees its next element, or takes its `list_OK` off the count. |
| MpdConnection.Connection.GetNextReturnElement | src/libmpdclient.c:396-546 | One read of the protocol on the stream. |
| ElementLaws.ReadsSpelling | src/libmpdclient.c:530-545 | Reading the line `name: value` leaves the element of that name and value and changes nothing else; reading a line without such a spelling leaves an error and no element. |
| ElementLaws.SpeltElement | src/libmpdclient.c:530-532 | The name is what stands before the first colon behind leading ones, the value what stands behind the blank. |
| ReplyLaws.BrokenReply | src/libmpdclient.c:422-476 | A reply that breaks off ends the command with the error of the connection or an overrun; the unfinished part is not consumed and the count stays. |
| ReplyLaws.UnexpectedListOk | src/libmpdclient.c:494-505 | A `list_OK` in the reply to a plain command is an error, and does not end the reply. |
| ReplyLaws.EndClearsSegment | src/libmpdclient.c:431-517 | Whatever ends a reply, no segment is noted as read any more. |
| ReplyLaws.NoNextAfterAck | src/libmpdclient.c:507-567 | When the reply to a list breaks off with an `ACK`, going to the next command says that there is none, though some are outstanding. |
| ReplyLaws.NothingDue | src/libmpdclient.c:408-417 | Reading when nothing is due is an error and consumes nothing. |
| MpdConnection.Connection.FinishCommand | src/libmpdclient.c:548-553 | Reads to the end of the reply, and terminates. |
| MpdConnection.Connection.FinishListOkCommand | src/libmpdclient.c:555-561 | Reads to the end of the current segment. |
| MpdConnection.Connection.NextListOkCommand | src/libmpdclient.c:563-568 | Goes to the next segment, or says that there is none. |
| MpdLaws.SendingCounts | src/libmpdclient.c:337-394 | Sending n commands between the begin and the end of a list counts n, clears old errors and makes the reply due. |
| MpdConnection.Connection.SendCommandListOkBegin | src/libmpdclient.c:1397-1406 | A list begins with no command counted. |
| MpdConnection.Connection.SendCommandListEnd | src/libmpdclient.c:1408-1416 | A list ends with its reply due. |
| MpdConnection.Connection.SendCommandListBegin | src/libmpdclient.c:1387-1395 | A list without `list_OK`s begins. |
| ReplyLaws.SecondCommandRefused | src/libmpdclient.c:344-348 | A second plain command before the reply to the first is finished is refused. |
| ReplyLaws.FailedSending | src/libmpdclient.c:350-388 | A command that could not be sent leaves nothing to be read, and the next one can be sent. |
| ReplyLaws.FailedInList | src/libmpdclient.c:366-393 | A command of a list that could not be sent is not counted. |
| ReplyLaws.PlainListCountsNothing | src/libmpdclient.c:390-393 | Commands of a list without `list_OK`s are not counted. |
| ReplyLaws.ListsDoNotNest | src/libmpdclient.c:1387-1416 | Lists do not nest, and only a list that has begun can end. |
| MpdConnection.Connection.GetNextInfoEntity | src/libmpdclient.c:939-1037 | One pull of the entity parser. |
| MpdLaws.CommandListAccounting | src/libmpdclient.c:337-568 | A list of n commands with a conforming reply: whatever part of each segment is read, round j sees only segment j, `mpd_nextListOkCommand` says 0 n-1 times and then -1, no error is raised, the count ends at zero and no byte behind the reply is read. |
| MpdLaws.RoundsAccount | src/libmpdclient.c:548-568 | The same from any segment on. |
| MpdLaws.FinalOk | src/libmpdclient.c:483-492 | The final `OK` leaves no count and no error. |
| MpdLaws.AckEnds | src/libmpdclient.c:507-528 | A reply that breaks off with an `ACK` ends there with an error and with the count it had. |
| MpdLaws.AbortedListBites | src/libmpdclient.c:337-568 | The run of an aborted list: m of n commands answered, whatever is read of them, then the `ACK`; the count left is n - m, and the next plain command ends without an error if and only if that is zero; a new list clears it. |
| MpdLaws.LeftoverCountBites | src/libmpdclient.c:483-492 | A plain reply is consumed whole, clears the count, and ends without an error if and only if there was none. |
| MpdLaws.NextEntitySplits | src/libmpdclient.c:939-1037 | One call yields the entity of the first group and keeps the header of the next one. |
| MpdLaws.EntitiesAreGroups | src/libmpdclient.c:939-1037 | Repeated calls yield exactly the entities of the groups of the response, in order, and end where it ends. |
| MpdLaws.UpcomingOnWire | src/libmpdclient.c:396-546 | What reads see of a plain reply are its lines, up to its `OK`. |
| MpdLaws.ListingEntities | src/libmpdclient.c:939-1037 | Over a plain reply on the wire the calls yield the entities of the groups of its lines, without an error and without a byte of what follows. |
| ElementLaws.ListingSent | src/libmpdclient.c:939-1037 | The same for a listing sent as names and values: the entities are those of its groups. |
| ElementLaws.ElementsSent | src/libmpdclient.c:396-546 | Reads of a plain reply sent as names and values see exactly these, in order. |
| ElementLaws.KindOfGroup | src/libmpdclient.c:951-972 | A group is a song, a directory or a playlist by the name of its header, with the header's value; what follows changes no directory and no playlist. |
| ElementLaws.HeaderNames | src/libmpdclient.c:985-987 | Exactly elements named `file`, `directory` and `playlist` head a group. |
| ElementLaws.NoMoreEntities | src/libmpdclient.c:942-946 | Behind the end of a response asking for entities changes nothing. |
| MpdLaws.GroupsConserve | src/libmpdclient.c:981-987 | The groups are the elements of the response, cut before every header: none lost, none used twice. |
| MpdLaws.FirstTagWins | src/libmpdclient.c:989-1026 | In a song the first non-empty value of each text tag wins. |
| ElementLaws.FirstNumberWins | src/libmpdclient.c:1011-1022 | In a song the first number under `Time`, `Pos` and `Id` wins; -1, the mark for none, may be overwritten. |
| ElementLaws.NumberRead | src/libmpdclient.c:1013-1021 | A decimal number of either sign, behind white space and before what is no digit, is read as that number. |
| ModuleBus.Bus.ModQuery | src/ABasemod.c:251-296 | The answers of the handlers as a list of their own, at any nesting; the queue active before is active again with the same nodes, and the message queue is untouched. |
| ModuleBus.Bus.constructor | src/ABasemod.c:35-40 | A fresh bus has nothing queued, and everything is accounted for. |
| ModuleBus.Bus.ModSendMsg | src/ABasemod.c:63-105 | Inside a query: handled at once and noted as an answer. Outside: appended to the queue, and everything stays accounted for. |
| ModuleBus.AnswersNotedIff | src/ABasemod.c:251-296 | A query returns everything its handlers did if and only if no query was asked before their last action. |
| ModuleBus.NestedAnswerLost | src/ABasemod.c:257-290 | A handler that asks a and then sends b: the answer holds b alone. |
| ModuleBus.SentOfSends | src/ABasemod.c:67-87 | For handlers that only send, the answer is all they sent, in order; otherwise something is missing. |
| ModuleBus.EveryHandlerActs | src/ABasemod.c:280-289 | A message reaches the handler of every module, in the order of the modules. |
| ModuleBus.ProvokesWhatIsSent | src/ABasemod.c:194-204 | What a message of the queue provokes is what its handlers send, in order. |
| ModuleBus.ReloadIff | src/ABasemod.c:187-189 | Exactly the input messages spelt `reload` are kept from the modules; `Accounted` counts a signal for each. |
| ModuleBus.Bus.Disperse | src/ABasemod.c:191-204 | Every module with a handler gets the message once; what the handlers send is queued in their order. |
| ModuleBus.Bus.DeliverFirst | src/ABasemod.c:184-209 | One round delivers the first message and drops it; `reload` raises the signal instead. |
| ModuleBus.Bus.ModUpdate | src/ABasemod.c:177-210 | The queue is emptied in FIFO order, also of what is sent meanwhile; every module with a handler has received exactly the messages that left the queue, once each and in order, without `reload`; and it terminates. |
| ModuleBus.DeliveryByGenerations | src/ABasemod.c:184-210 | Everything queued is delivered before anything it provokes, and that in the order of its causes. |

## Left out

- KeySequence.MatcherExact: requires that in each field, among all codes but the last, the wildcards come first; otherwise the source compares a name with the wildcard's marker, which is no string (src/lirc_client.c:1060-1064).
- LircConfiguration.LircConfig.Code2Char: takes the received line already split by `sscanf` and `strtok`; the repeat counter is a natural number.
- ConfigParsing.ReadConfig: numbers and flag words are read by given functions in place of `strtoul` and `lirc_flags`; the `check` callback, the choice of the file name and read errors are not modelled.
- ConfigLoading.LatchesFromFile: requires code lists in which wildcards lead, as for KeySequence.MatcherExact, and that no flag word sets the latch, which holds of the words in `lirc_flags`.
- ConfigIncludes.ReadConfig7: an `include` line without a name is excluded (the source works on a null pointer), file names are resolved by a given function, and a read error is the end of the file.
- SongFormatter.Format: label values come from a given function of the label's name; `fromUtf8` and `snprintf` are not modelled.
- MpdReader.Reader.ReadLine: which line is delivered, and the errors, are stated for streams without NUL; with NULs only that the line, its line end and the bytes still to come are the bytes there were, and the bounds.
- MpdConnection.Connection.HandleLine: the error texts and the numbers inside an `ACK` are not modelled.
- MpdConnection.Connection.ExecuteCommand: sending ends in one of three ways; the bytes of the command are not modelled.
- CodeFraming.CodeReader.NextCode: the byte counts of `realloc` are not modelled; the room grows by the same steps. What `PollAll` repeats is the part of a poll that fetches a code.
- RevisionFiles.RevisionsAgreeFromFile: excludes files that the two revisions read differently by design (includes, `delay`) or scan differently (`quit`, entries without a button).
- ModuleBus.Bus.ModUpdate: the update functions called once the queue is empty, and the copies of a message given to handlers, are not modelled.
- ModuleBus.Bus.ModSendMsg: line 104 is read as the append that the comment before it announces. Handlers are finite trees of reactions that do not change the list of modules.
- The linked lists of codes, config texts and entries are sequences; what is not captured is sharing of their nodes.
- `infoToFormatedString` is the formatter with three more labels; `lirc_nextir` and `lirc_ir2char` wrap the calls modelled here.
- Memory allocation and its failures, `select` timeouts as times, opening of connections and files, and logging.
- `mpd_getStatus`, `mpd_getStats`, the other `mpd_send` commands, outputs and the copying of songs would only add easy members.
- `charConv.c`, `ABaselog.c`, `ABaseconf.c`, `ABaseconfig.c`, the display and browser modules.
