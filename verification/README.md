# SP34KN0W live transcriber — a Dafny model of its core

SP34KN0W is a command-line client that streams microphone audio to a speech
recogniser, shows interim and final transcripts in the terminal, and saves
each session as a Markdown record. This project models the deterministic
core of three versions of it:

- the v2.6 transcriber (`windows-v2.6-beta/src/transcriber.py`): the
  transcript-event reducer with its microsecond heuristic, latency samples
  and translations; the `pause`/`resume`/`stop` state machine and the audio
  cursor; microphone discovery and selection; and the Markdown record written
  in `'w'` mode (final save) or `'a'` mode (snapshot on pause);
- the root transcriber (`src/transcriber.py`): the word-timing variant of the
  reducer and its simpler record;
- the two terminal interfaces: the v3.0 printing UI
  (`windows-v3.0-beta/src/ui/terminal_ui.py`), with inline, side-by-side and
  bilingual layouts and the map of interim texts per timestamp, and the root
  curses UI (`src/ui/terminal_ui.py`), with its 1000-line buffer, footer,
  key dispatch, drawn window and confirmation prompt;
- the two entry points (`windows-v2.6-beta/main.py`, `main.py`): language
  resolution, model lookup, session name, `--mic` parsing, console key
  bytes and session listing, against the configuration tables of
  `windows-v3.0-beta/config.py`.

Everything is a pure function over immutable datatypes. Times are `real`.
Python dicts are association lists in insertion order (`OrderedDict`), and
Python slicing with negative bounds is written out (`Text.PrefixSlice`,
`Text.SuffixSlice`). A `print` call is the `Printed` pair of its text and its
`end` string. A file write is the text written, or `None` when nothing is
written, and `SessionRecord.ApplySave` says what that does to the file. The
wall clock (`now`), the `:.3f` float formatting (`fmt`), the terminal size and
the UI's timestamp setting are parameters.

Modules, one file each: `Wrappers`, `Text`, `StringOrder`, `OrderedDict`
(Python building blocks); `Config`; `Timestamp`; `Microphone`; `Latency`;
`SessionRecord`; `TranscriberV26`; `TranscriberRoot`; `TerminalUiV3`;
`TerminalUiRoot`; `Cli`.

The root transcriber's `_on_transcript`, `_format_timestamp` and
`_save_transcript` are indented inside the module-level function
`_stream_microphone_alternative` (src/transcriber.py:130). They are nested
functions there, not methods of `DeepgramTranscriber`. The model covers the
logic they spell out and claims nothing about the class.

Neither `main.py` nor `windows-v2.6-beta/main.py` has a `config.py` of its
own in the sources modelled here. Both import `Config`, and the model uses the
tables of `windows-v3.0-beta/config.py` for both. Likewise,
`windows-v2.6-beta/main.py` imports a `TerminalUI` whose v2.6 file is not part
of this model. `Cli.SetupUi` drives the v3.0 UI, which has every method that
entry point calls.

## Model

| member | source | states |
|---|---|---|
| Config.TablesAgree | windows-v3.0-beta/config.py:6-39 | `LANGUAGE_MODELS` and `SUPPORTED_LANGUAGES` list the same eight codes, in the same order, each once |
| Config.DefaultLanguageSupported | windows-v3.0-beta/config.py:21-31 | the default language `it` is a supported code, named Italian |
| Config.ModelAssignment | windows-v3.0-beta/config.py:6-18 | `en` and `de` map to nova-3; every other listed code maps to nova-2, which is `DEFAULT_MODEL` |
| Timestamp.TruncToInt | windows-v2.6-beta/src/transcriber.py:131 | Python `int()` on a float truncates toward zero, on both signs |
| Timestamp.FloatMod60 | windows-v2.6-beta/src/transcriber.py:132 | on exact reals, `% 60` lies in [0, 60) and differs from its operand by a whole number of minutes |
| Timestamp.FormatTimestamp | windows-v2.6-beta/src/transcriber.py:129-133 | for a non-negative time, the `MM:SS` clock of the whole seconds elapsed; for any time, the text ends in `:` and two digits worth less than 60 |
| Timestamp.WholeSeconds | windows-v2.6-beta/src/transcriber.py:131-132 | for a non-negative time, the truncated float minutes and seconds equal the integer `//60` and `%60` of its whole seconds |
| Timestamp.ClockRoundTrip | windows-v2.6-beta/src/transcriber.py:133 | below 6000 s the clock text has five characters and parses back to the same seconds |
| Timestamp.ParseClockSound | windows-v2.6-beta/src/transcriber.py:133 | every well-formed `MM:SS` text is the clock text of the seconds it parses to (the converse of the round trip) |
| Timestamp.ClockMonotonic | windows-v2.6-beta/src/transcriber.py:133 | below 100 minutes, a later time never sorts before an earlier one as text |
| Timestamp.Examples | src/transcriber.py:223-227 | the root copy agrees: 65 s formats as `01:05` and 0 s as `00:00` |
| Microphone.InputDevicesFrom | windows-v2.6-beta/src/transcriber.py:35-46 | the listed devices are exactly those that could be queried and have an input channel, each with its index, name, channel count and default flag, in index order; a device whose query raised is skipped |
| Microphone.InputDevices | windows-v2.6-beta/src/transcriber.py:24-53 | when asking for the default input device raises, nothing is listed; otherwise every queryable input device is listed with its default flag, in index order |
| Microphone.FirstMatch | windows-v2.6-beta/src/transcriber.py:110-125 | finds the first device with that exact index, or whose lower-cased name contains the lower-cased query; `None` exactly when no device matches |
| Microphone.SetupMicrophone | windows-v2.6-beta/src/transcriber.py:105-127 | the first matching device sets both index and name; with no match the choice stays `None` / "Default Microphone"; an index selector only yields that index |
| Microphone.MicSelector | windows-v2.6-beta/main.py:139-146 | an empty or missing `--mic` selects nothing; a decimal numeral becomes an index of its value; anything else is a name |
| Microphone.ConfigureMicrophone | windows-v2.6-beta/src/transcriber.py:75-80 | with no selector, or no match, the default microphone is kept; any chosen index and name belong to one listed device |
| Latency.Min | windows-v2.6-beta/src/transcriber.py:291 | `min` is a sample that no sample is below |
| Latency.Max | windows-v2.6-beta/src/transcriber.py:292 | `max` is a sample that no sample exceeds |
| Latency.MeanBetween | windows-v2.6-beta/src/transcriber.py:290-292 | the average of the samples lies between their minimum and maximum |
| Latency.StatsOf | windows-v2.6-beta/src/transcriber.py:289-292 | statistics exist exactly when samples exist; minimum and maximum are samples bounding all of them, and the average lies between them |
| Latency.Report | windows-v2.6-beta/src/transcriber.py:399-405 | a report happens exactly when the count is a positive multiple of ten; it carries the last sample and the mean of the last ten, which lies between their minimum and maximum |
| Latency.Example | windows-v2.6-beta/src/transcriber.py:289-292 | samples 0.3, 0.1, 0.5 give average 0.3, minimum 0.1, maximum 0.5 |
| OrderedDict.Set | windows-v3.0-beta/src/ui/terminal_ui.py:174-177 | `d[k] = v`: `k` maps to `v`, other keys are untouched, and a new key goes last in iteration order |
| OrderedDict.Pop | windows-v3.0-beta/src/ui/terminal_ui.py:188 | `d.pop(k, None)` removes exactly `k`, leaves all other keys, and is a no-op on a missing key |
| OrderedDict.PopKeepsOrder | windows-v3.0-beta/src/ui/terminal_ui.py:188 | popping a present key cuts out exactly its entry; the other entries keep their iteration order |
| OrderedDict.SetExisting | windows-v3.0-beta/src/ui/terminal_ui.py:169-174 | assigning a key the value it already holds leaves the dict unchanged |
| OrderedDict.PopSetNew | windows-v3.0-beta/src/ui/terminal_ui.py:177-188 | adding a new key and then popping it gives back the original dict |
| SessionRecord.RenderEntriesIsLoop | windows-v2.6-beta/src/transcriber.py:640-645 | the line-based rendering equals, character for character, the writes the entry loop makes for each entry in list order |
| SessionRecord.LatencyBlock | windows-v2.6-beta/src/transcriber.py:624-632 | the latency block is empty exactly when there are no samples |
| SessionRecord.HeaderRoot | src/transcriber.py:238-241 | the root record's header starts with the session title line |
| SessionRecord.HeaderV26 | windows-v2.6-beta/src/transcriber.py:615-635 | the `'w'`-mode header starts with the session title line and ends with the `## Transcript` heading |
| SessionRecord.SaveV26 | windows-v2.6-beta/src/transcriber.py:597-645 | nothing is written exactly when there are no entries; `'w'` mode writes header then entries, `'a'` mode the `--- Saved at` marker then entries |
| SessionRecord.SaveRoot | src/transcriber.py:229-245 | nothing is written exactly when there are no entries; otherwise the three-line header then every entry |
| SessionRecord.RootMatchesV26 | src/transcriber.py:243-245 | on entries without translations, the root entry loop writes what the v2.6 loop writes with timestamps shown |
| SessionRecord.ApplySave | windows-v2.6-beta/src/transcriber.py:610-614 | no write leaves the file alone; `'w'` replaces it; `'a'` appends, creating a missing file |
| SessionRecord.FinalSaveOverwrites | windows-v2.6-beta/src/transcriber.py:610-635 | the final `'w'` save gives the same file whatever was in it before: header and full transcript |
| SessionRecord.SnapshotKeepsFile | windows-v2.6-beta/src/transcriber.py:610-645 | an `'a'` snapshot keeps the file's earlier text as a prefix and ends with the full transcript so far |
| SessionRecord.HeadRoundTrip | windows-v2.6-beta/src/transcriber.py:642-643 | an entry's head line reads back as its timestamp (when shown) and text, and is never mistaken for a translation line |
| SessionRecord.ParseTranscriptLines | windows-v2.6-beta/src/transcriber.py:640-645 | the transcript lines read back as one row per entry, in order, with its translation when present |
| SessionRecord.RenderEntriesRoundTrip | windows-v2.6-beta/src/transcriber.py:640-645 | the rendered transcript text, split into lines, reads back as one row per entry |
| SessionRecord.SaveV26RoundTrip | windows-v2.6-beta/src/transcriber.py:614-645 | a `'w'` record is its header followed by text that reads back as the entries' rows in list order |
| SessionRecord.SaveRootRoundTrip | src/transcriber.py:236-245 | a root record is its header followed by text that reads back as one timestamped row per entry |
| TranscriberV26.AudioSettingsAgree | windows-v2.6-beta/src/transcriber.py:63-65 | the class's `RATE` and `CHANNELS` equal the configured sample rate and channel count |
| TranscriberV26.Initial | windows-v2.6-beta/src/transcriber.py:88-103 | a new transcriber is stopped, unpaused, with no entries, no samples, and cursor and timestamp at zero |
| TranscriberV26.Seconds | windows-v2.6-beta/src/transcriber.py:379-380 | values up to 1000 are kept; larger ones are divided by 1,000,000, giving a positive value below the input |
| TranscriberV26.SecondsPastThreshold | windows-v2.6-beta/src/transcriber.py:379-384 | a start of 1200 s is read as 0.0012 s and stamped `00:00`, while 1000 s is stamped `16:40` |
| TranscriberV26.EndNotBeforeStart | windows-v2.6-beta/src/transcriber.py:379-381 | with a non-negative duration, an accepted event's end is never before its start |
| TranscriberV26.Hear | windows-v2.6-beta/src/transcriber.py:360-393 | an event is accepted exactly when it has a result with alternatives whose first transcript is not blank; then text, times in seconds and finality come from it, and the translation only when translating |
| TranscriberV26.EntryOf | windows-v2.6-beta/src/transcriber.py:412-422 | the stored entry carries the text, times and start timestamp, and a translation exactly when a non-empty one was heard |
| TranscriberV26.OnTranscript | windows-v2.6-beta/src/transcriber.py:356-376 | an event `Hear` discards leaves the state unchanged, is not shown and reports no latency; every other event is taken as `Take` states |
| TranscriberV26.Take | windows-v2.6-beta/src/transcriber.py:395-430 | an accepted event, interim or final, adds exactly one latency sample, the cursor minus its end, and is shown; only a final one adds an entry, at the end, and moves the current timestamp to its end; flags, cursor and clock stay; every tenth sample is reported |
| TranscriberV26.RunEntries | windows-v2.6-beta/src/transcriber.py:407-424 | over any event sequence, the entries are the earlier ones followed by one per accepted final event, in arrival order |
| TranscriberV26.RunLatencies | windows-v2.6-beta/src/transcriber.py:395-397 | over any event sequence, earlier samples are kept and one is added per accepted event, interim ones included |
| TranscriberV26.RunWellFormed | windows-v2.6-beta/src/transcriber.py:371-424 | event processing keeps every stored entry non-blank, stamped with its start, and with a translation only if non-empty |
| TranscriberV26.Start | windows-v2.6-beta/src/transcriber.py:213-216 | `start` marks the session running and records the clock reading, changing nothing else |
| TranscriberV26.Pause | windows-v2.6-beta/src/transcriber.py:303-315 | a snapshot is requested exactly when the session is running and unpaused, and then only the paused flag changes; otherwise nothing changes |
| TranscriberV26.Resume | windows-v2.6-beta/src/transcriber.py:317-325 | only a running, paused session resumes, and only the paused flag changes |
| TranscriberV26.Stop | windows-v2.6-beta/src/transcriber.py:268-301 | `stop` clears `running` only and reports the statistics of all samples |
| TranscriberV26.PauseResumeIdempotent | windows-v2.6-beta/src/transcriber.py:303-325 | pausing twice is pausing once, with no second snapshot; resuming twice is resuming once |
| TranscriberV26.PauseResumeInverse | windows-v2.6-beta/src/transcriber.py:303-325 | resume undoes a pause that took effect, and pause undoes a resume that took effect |
| TranscriberV26.StoppedIgnoresControl | windows-v2.6-beta/src/transcriber.py:272-325 | after `stop`, pause and resume change nothing |
| TranscriberV26.StreamFor | windows-v2.6-beta/src/transcriber.py:255-259 | the custom audio loop runs exactly when a device index was selected |
| TranscriberV26.ChunkSeconds | windows-v2.6-beta/src/transcriber.py:508-583 | each loop iteration accounts for a positive time: 1024 frames at `RATE` in the custom loop |
| TranscriberV26.Tick | windows-v2.6-beta/src/transcriber.py:463-583 | an iteration advances only the audio cursor, and only while running unpaused |
| TranscriberV26.TicksAdvance | windows-v2.6-beta/src/transcriber.py:500-510 | `n` unpaused iterations advance the cursor by `n` chunks and touch nothing else |
| TranscriberV26.PausedTicksIdle | windows-v2.6-beta/src/transcriber.py:463-487 | paused or stopped iterations leave the state unchanged |
| TranscriberV26.Step | windows-v2.6-beta/src/transcriber.py:268-325 | stop writes the full record when there are entries; an effective pause keeps the file's text and appends the transcript; other commands leave the file alone |
| TranscriberV26.FinalRecord | windows-v2.6-beta/src/transcriber.py:297-298 | whatever commands came before, ending a session with entries leaves exactly one header and the full transcript |
| TranscriberV26.NoEntriesNoFile | windows-v2.6-beta/src/transcriber.py:603-605 | a session that never receives a transcript never creates its file |
| TranscriberRoot.Timing | src/transcriber.py:184-194 | with words, start and end are the first word's start and the last word's end; without, both are the current timestamp |
| TranscriberRoot.OnTranscript | src/transcriber.py:171-209 | a falsy, alternative-less, blank or interim message changes nothing; an accepted final one appends one entry stamped at its start and moves the timestamp only when it has words |
| TranscriberRoot.RunCounts | src/transcriber.py:199-206 | over any message sequence, earlier entries are kept and one is added per accepted final message |
| TranscriberRoot.InterimIsInert | src/transcriber.py:189-209 | interim messages leave both entries and current timestamp unchanged |
| TranscriberRoot.RunWellFormed | src/transcriber.py:181-206 | whatever the messages hold, entries stay non-blank, stamped with their start and without translation |
| TranscriberRoot.RunOrdered | src/transcriber.py:190-206 | when every message's first word starts no later than its last word ends, every entry ends no earlier than it starts |
| TranscriberRoot.RootRecordIsV26Record | src/transcriber.py:243-245 | well-formed root entries, which `TranscriberRoot.RunWellFormed` shows every run keeps whatever the messages hold, render as the v2.6 renderer does with timestamps shown |
| TerminalUiV3.Route | windows-v3.0-beta/src/ui/terminal_ui.py:151-160 | bilingual exactly when side-by-side and bilingual; side-by-side exactly when only side-by-side; inline exactly when not side-by-side |
| TerminalUiV3.DisplayTranscript | windows-v3.0-beta/src/ui/terminal_ui.py:151-160 | each result goes to the layout `Route` selects, and the interim map stays a valid dict |
| TerminalUiV3.InlineDisplay | windows-v3.0-beta/src/ui/terminal_ui.py:162-188 | a repeated interim prints nothing and changes nothing; a new interim is recorded and drawn over the row; a final is printed on its own line, with its translation below, and its timestamp leaves the map |
| TerminalUiV3.InlineInterimThenFinal | windows-v3.0-beta/src/ui/terminal_ui.py:168-188 | after an interim for a new timestamp, repeating it is a no-op and the final result restores the map as it was |
| TerminalUiV3.Columns | windows-v3.0-beta/src/ui/terminal_ui.py:195-197 | left is `w // 2 - 2` and left + 3 + right = w; from ten columns both are at least 3 and left ≤ right |
| TerminalUiV3.Cut | windows-v3.0-beta/src/ui/terminal_ui.py:216-217 | a text that fits is kept; a longer one becomes its first `width - 3` characters and `...`, never longer than the width |
| TerminalUiV3.Fit | windows-v3.0-beta/src/ui/terminal_ui.py:204-208 | a text is cut with `...` or left-justified, and for a width of at least 3 is exactly that wide |
| TerminalUiV3.LeftSide | windows-v3.0-beta/src/ui/terminal_ui.py:220-230 | the left column of a final row shows the first recorded interim, cut and padded, or blanks; it is exactly the column width |
| TerminalUiV3.SideBySideDisplay | windows-v3.0-beta/src/ui/terminal_ui.py:190-243 | a new interim is fitted to the left column and recorded; a final row pairs the left side with the cut final text, its translation below, and its timestamp leaves the map |
| TerminalUiV3.SideBySideFits | windows-v3.0-beta/src/ui/terminal_ui.py:194-240 | from ten columns on, every side-by-side line, after its leading carriage return, is no longer than `columns` code points, and an interim line is exactly the left column plus the separator |
| TerminalUiV3.BilingualLine | windows-v3.0-beta/src/ui/terminal_ui.py:255-268 | the translation line is indented past half the terminal; it is kept whole when it fits, and otherwise is its first `max_right - 3` characters followed by a one-character ellipsis |
| TerminalUiV3.BilingualDisplay | windows-v3.0-beta/src/ui/terminal_ui.py:245-268 | the inline layout without the translation, plus the indented translation line exactly for a final result with a translation |
| TerminalUiV3.LanguageName | windows-v3.0-beta/src/ui/terminal_ui.py:117-127 | a code missing from the table is shown as itself; a listed code is shown with its configured name |
| TerminalUiV3.LanguageNamesAreConfigured | windows-v3.0-beta/src/ui/terminal_ui.py:117-126 | the welcome screen's language table equals `SUPPORTED_LANGUAGES` |
| TerminalUiV3.DisplayMessage | windows-v3.0-beta/src/ui/terminal_ui.py:271-275 | a message is printed, with its info prefix, exactly when it does not start with a newline |
| TerminalUiV3.RequestConfirmation | windows-v3.0-beta/src/ui/terminal_ui.py:304-307 | confirms exactly on the replies `y` and `Y` |
| TerminalUiV3.SetShowTimestamps | windows-v3.0-beta/src/ui/terminal_ui.py:300-302 | only the timestamp setting changes |
| TerminalUiV3.SetDisplayMode | windows-v3.0-beta/src/ui/terminal_ui.py:147-149 | turning side-by-side off routes everything inline; turning it on routes by the bilingual flag |
| TerminalUiV3.Welcome | windows-v3.0-beta/src/ui/terminal_ui.py:109-112 | the translation flag becomes bilingual mode, so a side-by-side UI routes bilingually exactly when translating |
| TerminalUiRoot.Initial | src/ui/terminal_ui.py:21-33 | a new UI has an empty buffer, no debug lines, no message, timestamps on and not paused |
| TerminalUiRoot.LastN | src/ui/terminal_ui.py:83-84 | keeps the last `n` lines, or all of them when there are fewer |
| TerminalUiRoot.LastNAppend | src/ui/terminal_ui.py:83-84 | trimming, appending, then trimming again equals trimming the whole history once |
| TerminalUiRoot.NewLines | src/ui/terminal_ui.py:79-82 | `[ts] text` or the bare text, then `  > translation` exactly when a translation is present |
| TerminalUiRoot.DisplayTranscript | src/ui/terminal_ui.py:77-86 | the buffer holds at most 1000 lines, the last of old plus new; a debug line is added only in debug mode |
| TerminalUiRoot.BufferIsHistoryTail | src/ui/terminal_ui.py:77-86 | after any sequence of transcripts, the buffer is the last 1000 lines of the whole history, in order |
| TerminalUiRoot.DebugOnlyInDebugMode | src/ui/terminal_ui.py:85-86 | outside debug mode, no sequence of transcripts adds a debug line |
| TerminalUiRoot.DisplayMessage | src/ui/terminal_ui.py:88-90 | the status message becomes the message; nothing else changes |
| TerminalUiRoot.DisplayError | src/ui/terminal_ui.py:92-94 | the status message is `ERROR: ` followed by exactly the message; nothing else changes |
| TerminalUiRoot.ClearTranscript | src/ui/terminal_ui.py:107-109 | the buffer is emptied; nothing else changes |
| TerminalUiRoot.SetPaused | src/ui/terminal_ui.py:100-102 | only the paused flag changes |
| TerminalUiRoot.SetShowTimestamps | src/ui/terminal_ui.py:104-105 | only the timestamp setting changes |
| TerminalUiRoot.Footer | src/ui/terminal_ui.py:61-71 | the footer is the message, or the key hint when there is none, padded and cut to exactly `max(0, width - 1)` characters; a short message is shown whole |
| TerminalUiRoot.OnKey | src/ui/terminal_ui.py:134-146 | key 3 quits; 19 requests a pause exactly when a transcriber is attached and the UI is not paused; 18 a resume exactly when attached and paused; other keys do nothing |
| TerminalUiRoot.PausedKeys | src/ui/terminal_ui.py:100-102 | once `set_paused(True)` has run, Ctrl+S does nothing and Ctrl+R asks to resume; after `set_paused(False)` it is the other way round |
| TerminalUiRoot.ClearedDrawsNothing | src/ui/terminal_ui.py:107-109 | after `clear_transcript` no transcript row is drawn, at any window size |
| TerminalUiRoot.MessageInFooter | src/ui/terminal_ui.py:88-94 | a status message that fits is shown at the start of the footer, an error behind its `ERROR: ` tag, and neither changes the transcript rows |
| TerminalUiRoot.DrawTranscript | src/ui/terminal_ui.py:148-157 | at most `height - 2` rows are drawn, the tail of the buffer in order, each cut to the width; none when the height is at most 2 |
| TerminalUiRoot.DrawnRows | src/ui/terminal_ui.py:150-153 | the enumeration loop with its `break` keeps the first `height - 2` lines of the window |
| TerminalUiRoot.Decider | src/ui/terminal_ui.py:113-118 | finds the first answer that is `y` or `n`, or reports that none is |
| TerminalUiRoot.Confirm | src/ui/terminal_ui.py:111-118 | replies are read until one is `y` or `n` once stripped and lower-cased; the result is true exactly for `y`; no result when no reply decides |
| Cli.FindLanguage | windows-v2.6-beta/main.py:126-129 | finds the first table entry whose lower-cased name or code equals the argument; `None` exactly when none does |
| Cli.ResolveLanguage | windows-v2.6-beta/main.py:123-133 | the lower-cased argument resolves to the first matching code, otherwise to `it` with the "not recognized" error naming it; the code is always a supported one |
| Cli.TableDistinct | windows-v3.0-beta/config.py:30-39 | every code is two lower-case letters, every name is longer, and no two codes or name initials coincide |
| Cli.ResolveCode | main.py:57-63 | every listed code resolves to itself |
| Cli.ResolveName | main.py:57-63 | every listed name, as written in the table, resolves to its code |
| Cli.ResolveDefault | windows-v2.6-beta/main.py:124-129 | the default argument `italian` resolves to `it` without error |
| Cli.ResolveUpperCase | main.py:58-63 | `ENGLISH` resolves to `en`: the argument's case does not matter |
| Cli.ResolveUnknown | main.py:65-67 | an unknown code falls back to `it` with an error message naming it |
| Cli.ModelFor | windows-v2.6-beta/main.py:136 | the model is the table's entry for a listed code, otherwise `DEFAULT_MODEL` |
| Cli.ModelOfResolved | windows-v2.6-beta/main.py:135-136 | whatever the argument, the model is nova-3 exactly for English and German and nova-2 otherwise |
| Cli.SessionName | main.py:48-52 | a non-empty `--session` is used verbatim; otherwise the formatted start time |
| Cli.SessionTitled | main.py:48-52 | the root record is titled with the `--session` argument when it is non-empty, and with the start time otherwise |
| Cli.MicIndexRoundTrip | windows-v2.6-beta/main.py:141-146 | any index typed in decimal comes back as an index selector of that value |
| Cli.KeyOf | windows-v2.6-beta/main.py:50-55 | byte 0x13 means pause, byte 0x12 means resume, and every other byte nothing |
| Cli.OnKey | windows-v2.6-beta/main.py:44-56 | a key press calls `pause` or `resume` on the transcriber, or does nothing; a snapshot is requested only by 0x13 on a running, unpaused session |
| Cli.PauseThenResumeKeys | windows-v2.6-beta/main.py:52-55 | Ctrl+S then Ctrl+R on a running session gives it back unchanged, after one snapshot request |
| Cli.SetupUi | windows-v2.6-beta/main.py:119-149 | timestamps are shown unless `--no-timestamp`; the layout is inline exactly with `--inline`, and bilingual exactly without it when translating |
| Cli.MarkdownNames | windows-v2.6-beta/main.py:93 | keeps exactly the names ending in `.md`, and no more names than the listing has |
| Cli.ListSessions | windows-v2.6-beta/main.py:86-101 | a missing directory, or one without `.md` files, gives "No sessions found."; otherwise a heading and every `.md` name, sorted |
| Cli.ListedIsMarkdown | main.py:38-45 | every listed session is a `.md` name from the directory |
| Cli.MarkdownIsListed | main.py:38-45 | every `.md` name in the directory is listed |

## Left out

- Audio capture: the PyAudio streams, `check_microphone` with its amplitude percentages, and the recogniser's microphone helper are device I/O. Only their effect on the audio cursor is kept (`TranscriberV26.Tick`).
- The recogniser SDK: `LiveOptions`, connection start and finish, event registration and `send` are foreign calls. `_on_open`, `_on_close`, `_on_error` and `_on_utterance_end` only log or display messages.
- Concurrency: asyncio events and tasks, the keyboard and status-updater threads, signal handlers and the curses redraw loop. The snapshot task that `pause` schedules is modelled as running right when the pause takes effect (`TranscriberV26.Step`); the next line says why the source as written does not get that far.
- The filesystem: `open`, `ensure_dir_exists` and `os.listdir`. A save is the text it writes plus `SessionRecord.ApplySave`; a directory listing is a parameter. `utils.py` is not part of this model.
- The wall clock (`datetime.now()`, `time.time()`) is an opaque parameter: the `now` string and the `Start` clock reading.
- Float formatting and rounding: `:.3f` figures are the parameter `fmt`, and times are exact reals. Python float rounding in `start + duration` or `end - start` is not modelled.
- Visual output: ANSI colours, the banner, `display_welcome`'s prints, `display_status_banner`, `set_paused`'s printed hint, `display_error` and `display_latency` of the v3.0 UI (prints only), `_draw_header` and `_draw_split_debug` of the curses UI, and the `--list-languages` and `--list-mics` listings. Emoji prefixes are fixed strings whose length counts code points.
- Logging and exception handlers: every `try`/`except` that only logs is left out, except in `get_available_microphones`, whose two handlers decide which devices are listed (`Microphone.InputDevices`). So is the `AttributeError` a v2.6 save would raise when `ui` is `None`; the model takes the timestamp setting as a parameter.
- TranscriberV26.Step and Cli.PauseThenResumeKeys: the model lets a pause schedule its snapshot and keeps reading keys, which is what the code evidently intends. As written, `pause` is only called from the keyboard listener thread (windows-v2.6-beta/main.py:46-58). There `asyncio.get_event_loop()` (windows-v2.6-beta/src/transcriber.py:314) has no loop to return and raises `RuntimeError` after `paused` is already set. The `except` at windows-v2.6-beta/main.py:57 sits outside the `while`, so the listener ends: no snapshot is written and Ctrl+R is never read. This comes from reading the code; it was not executed.
- Timestamp.FloatMod60: works on exact reals. On floats, a tiny negative time rounds the remainder up to 60 (`-1e-20 % 60.0` is `60.0`), so `_format_timestamp(-1e-20)` gives `00:60`; the model's `[0, 60)` bound does not hold there.
- The module-level `_stream_microphone_alternative` at src/transcriber.py:130 and :248 is duplicated dead code. The root transcriber's `_stream_microphone` is audio I/O.
- The root UI's key dispatch asks an attached transcriber to pause or resume. The root transcriber has no such methods, so that call would fail and be swallowed by the `except`. `TerminalUiRoot.OnKey` returns the requested action and does not model the call.
- `TerminalUiRoot.DrawTranscript` models `self.transcript[-(height-2):]` with Python's negative-index slicing, including heights of 2 or less, where no row is drawn.
- Microphone.MicSelector: Python `int()` also accepts a sign, surrounding whitespace and underscores; only plain decimal numerals are read as an index, because the rest are argument-parsing quirks outside the selection logic.
- Text.Lower: folds only A–Z, while Python's `str.lower` folds all of Unicode; the language table and the inputs the proofs use are ASCII.
- TranscriberV26.Seconds: the 1000 threshold also rescales a genuine start time past 1000 s (about 16 minutes); `TranscriberV26.SecondsPastThreshold` states that consequence as written rather than correcting it, since the intended unit of the recogniser's fields is not visible in the code.
- Timestamp.ClockRoundTrip and Timestamp.ClockMonotonic: stated only below 100 minutes, where the minute field has two digits; from 100 minutes on, `{:02d}` widens the field and text order no longer follows time order.
