/** The Markdown session record written by `_save_transcript` in
    windows-v2.6-beta/src/transcriber.py and src/transcriber.py, seen as the
    text the call writes (or `None` when it writes nothing), together with
    the effect of that write on the session file and a reader that recovers
    the transcript rows from the text. */
module SessionRecord {
  import opened Wrappers
  import opened Text
  import Latency

  /** One element of `transcript_data`; `translation` is present only when
      the entry carries a non-empty `"translation"` key. */
  datatype Entry = Entry(text: string, start: real, end: real, timestamp: string, translation: Option<string>)

  /** The transcriber fields the v2.6 header prints. */
  datatype Metadata = Metadata(sessionName: string, language: string, model: string, microphone: string, translate: bool)

  /** What a reader of the record can recover of an entry. */
  datatype Row = Row(timestamp: Option<string>, text: string, translation: Option<string>)

  const TranslationPrefix := "*Translation: "

  /** The head line of an entry: `**[ts]** text`, or the bare text. */
  function HeadLine(e: Entry, showTimestamps: bool): string {
    (if showTimestamps then "**[" + e.timestamp + "]** " else "") + e.text
  }

  /** The lines one entry occupies: its head line and a blank line, then
      `*Translation: ...*` and a blank line when it has a translation. */
  function EntryLines(e: Entry, showTimestamps: bool): seq<string> {
    [HeadLine(e, showTimestamps), ""]
      + (if Truthy(e.translation) then [TranslationPrefix + e.translation.value + "*", ""] else [])
  }

  function TranscriptLines(es: seq<Entry>, showTimestamps: bool): seq<string>
    decreases |es|
  {
    if es == [] then [] else EntryLines(es[0], showTimestamps) + TranscriptLines(es[1..], showTimestamps)
  }

  /** The entry loop of the v2.6 `_save_transcript`: every entry, in order. */
  function RenderEntries(es: seq<Entry>, showTimestamps: bool): string {
    Unlines(TranscriptLines(es, showTimestamps))
  }

  /** The text the v2.6 loop writes for one entry, write by write. */
  function EntryWrites(e: Entry, showTimestamps: bool): string {
    (if showTimestamps then "**[" + e.timestamp + "]** " else "") + e.text + "\n\n"
      + (if Truthy(e.translation) then "*Translation: " + e.translation.value + "*\n\n" else "")
  }

  lemma EntryLinesUnlines(e: Entry, showTimestamps: bool)
    ensures Unlines(EntryLines(e, showTimestamps)) == EntryWrites(e, showTimestamps)
  {
    var head := HeadLine(e, showTimestamps);
    var tr := if Truthy(e.translation) then [TranslationPrefix + e.translation.value + "*", ""] else [];
    UnlinesAppend([head, ""], tr);
    assert Unlines([head, ""]) == head + "\n" + "\n";
    if Truthy(e.translation) {
      var t := TranslationPrefix + e.translation.value + "*";
      assert Unlines(tr) == t + "\n" + "\n";
    }
  }

  /** The line-based rendering is exactly the concatenation of what the
      loop writes for each entry, in list order. */
  lemma {:induction false} RenderEntriesIsLoop(es: seq<Entry>, showTimestamps: bool)
    ensures RenderEntries(es, showTimestamps) == LoopWrites(es, showTimestamps)
    decreases |es|
  {
    if es != [] {
      UnlinesAppend(EntryLines(es[0], showTimestamps), TranscriptLines(es[1..], showTimestamps));
      EntryLinesUnlines(es[0], showTimestamps);
      RenderEntriesIsLoop(es[1..], showTimestamps);
    }
  }

  function LoopWrites(es: seq<Entry>, showTimestamps: bool): string
    decreases |es|
  {
    if es == [] then "" else EntryWrites(es[0], showTimestamps) + LoopWrites(es[1..], showTimestamps)
  }

  /** The `## Latency Statistics` block, present only when samples exist;
      `fmt` stands for Python's `f"{x:.3f}"`. */
  function LatencyBlock(latencies: seq<real>, fmt: real -> string): (r: string)
    ensures r == "" <==> latencies == []
  {
    match Latency.StatsOf(latencies)
    case None => ""
    case Some(st) =>
      "## Latency Statistics\n\n"
        + "- **Average:** " + fmt(st.average) + " seconds\n"
        + "- **Minimum:** " + fmt(st.minimum) + " seconds\n"
        + "- **Maximum:** " + fmt(st.maximum) + " seconds\n\n"
  }

  /** The session details listed under the title of a `'w'`-mode record. */
  function Details(meta: Metadata, now: string): string {
    "- **Date:** " + now + "\n"
      + "- **Language:** " + meta.language + "\n"
      + "- **Model:** " + meta.model + "\n"
      + "- **Microphone:** " + meta.microphone + "\n"
      + "- **Translation:** " + (if meta.translate then "Enabled" else "Disabled") + "\n\n"
  }

  /** The header of a record written in `'w'` mode; `now` is the formatted
      wall-clock date. */
  function HeaderV26(meta: Metadata, now: string, latencies: seq<real>, fmt: real -> string): (h: string)
    ensures EndsWith(h, "## Transcript\n\n")
    ensures StartsWith(h, "# Transcription Session: " + meta.sessionName + "\n\n")
  {
    var title := "# Transcription Session: " + meta.sessionName + "\n\n";
    var body := Details(meta, now) + LatencyBlock(latencies, fmt);
    Concat3Ends(title, body, "## Transcript\n\n");
    title + (body + "## Transcript\n\n")
  }

  /** The marker an `'a'`-mode snapshot starts with. */
  function SnapshotMarker(now: string): string {
    "\n--- Saved at " + now + " ---\n\n"
  }

  /** v2.6 `_save_transcript(append_mode)`: nothing when there are no
      entries; otherwise the header (write mode) or the snapshot marker
      (append mode), then every entry in order. */
  function SaveV26(meta: Metadata, now: string, entries: seq<Entry>, latencies: seq<real>,
                   appendMode: bool, showTimestamps: bool, fmt: real -> string): (r: Option<string>)
    ensures r.None? <==> entries == []
    ensures r.Some? && !appendMode ==>
      r.value == HeaderV26(meta, now, latencies, fmt) + RenderEntries(entries, showTimestamps)
    ensures r.Some? && appendMode ==> r.value == SnapshotMarker(now) + RenderEntries(entries, showTimestamps)
  {
    if entries == [] then None
    else
      var lead := if appendMode then SnapshotMarker(now) else HeaderV26(meta, now, latencies, fmt);
      Some(lead + RenderEntries(entries, showTimestamps))
  }

  /** The header of the root version's record. */
  function HeaderRoot(sessionName: string, now: string, language: string): (h: string)
    ensures StartsWith(h, "# Transcription Session: " + sessionName + "\n\n")
  {
    var title := "# Transcription Session: " + sessionName + "\n\n";
    var rest := "- **Date:** " + now + "\n"
      + "- **Language:** " + language + "\n\n"
      + "## Transcript\n\n";
    ConcatEnds(title, rest);
    title + rest
  }

  /** The root version's entry loop: always `**[ts]** text`, no translations. */
  function RenderRootEntries(es: seq<Entry>): string
    decreases |es|
  {
    if es == [] then "" else "**[" + es[0].timestamp + "]** " + es[0].text + "\n\n" + RenderRootEntries(es[1..])
  }

  /** Root `_save_transcript()`: nothing without entries, else header and
      every entry with its timestamp. */
  function SaveRoot(sessionName: string, now: string, language: string, entries: seq<Entry>): (r: Option<string>)
    ensures r.None? <==> entries == []
    ensures r.Some? ==> r.value == HeaderRoot(sessionName, now, language) + RenderRootEntries(entries)
  {
    if entries == [] then None else Some(HeaderRoot(sessionName, now, language) + RenderRootEntries(entries))
  }

  /** On entries without translations the root rendering is the v2.6 one
      with timestamps shown. */
  lemma {:induction false} RootMatchesV26(es: seq<Entry>)
    requires forall i | 0 <= i < |es| :: !Truthy(es[i].translation)
    ensures RenderRootEntries(es) == RenderEntries(es, true)
    decreases |es|
  {
    RenderEntriesIsLoop(es, true);
    RootIsLoop(es);
  }

  lemma {:induction false} RootIsLoop(es: seq<Entry>)
    requires forall i | 0 <= i < |es| :: !Truthy(es[i].translation)
    ensures RenderRootEntries(es) == LoopWrites(es, true)
    decreases |es|
  {
    if es != [] {
      RootIsLoop(es[1..]);
    }
  }

  /** The session file after a save: untouched when nothing is written,
      replaced in `'w'` mode, extended in `'a'` mode (which creates a
      missing file). */
  function ApplySave(file: Option<string>, written: Option<string>, appendMode: bool): (f: Option<string>)
    ensures written.None? ==> f == file
    ensures written.Some? && !appendMode ==> f == written
    ensures written.Some? && appendMode ==> f == Some(file.GetOr("") + written.value)
  {
    match written
    case None => file
    case Some(t) => if appendMode then Some(file.GetOr("") + t) else Some(t)
  }

  /** A final `'w'` save leaves the same file whatever snapshots came
      before it: header and the full transcript. */
  lemma FinalSaveOverwrites(file: Option<string>, meta: Metadata, now: string, entries: seq<Entry>,
                            latencies: seq<real>, showTimestamps: bool, fmt: real -> string)
    requires entries != []
    ensures ApplySave(file, SaveV26(meta, now, entries, latencies, false, showTimestamps, fmt), false)
      == Some(HeaderV26(meta, now, latencies, fmt) + RenderEntries(entries, showTimestamps))
  {
  }

  /** A snapshot keeps everything already in the file and adds a marker
      followed by the full transcript so far. */
  lemma SnapshotKeepsFile(file: Option<string>, meta: Metadata, now: string, entries: seq<Entry>,
                          latencies: seq<real>, showTimestamps: bool, fmt: real -> string)
    requires entries != []
    ensures var f := ApplySave(file, SaveV26(meta, now, entries, latencies, true, showTimestamps, fmt), true);
      && f.Some?
      && StartsWith(f.value, file.GetOr(""))
      && EndsWith(f.value, RenderEntries(entries, showTimestamps))
  {
    var f := ApplySave(file, SaveV26(meta, now, entries, latencies, true, showTimestamps, fmt), true);
    var body := RenderEntries(entries, showTimestamps);
    assert f.value == file.GetOr("") + SnapshotMarker(now) + body;
    assert f.value[|f.value| - |body|..] == body;
  }

  // ---------------------------------------------------------------------
  // Reading a record back

  /** What the reader recovers of an entry. */
  function RowOf(e: Entry, showTimestamps: bool): Row {
    Row(if showTimestamps then Some(e.timestamp) else None, e.text,
        if Truthy(e.translation) then e.translation else None)
  }

  function Rows(es: seq<Entry>, showTimestamps: bool): (rs: seq<Row>)
    ensures |rs| == |es|
    ensures forall i | 0 <= i < |es| :: rs[i] == RowOf(es[i], showTimestamps)
  {
    seq(|es|, i requires 0 <= i < |es| => RowOf(es[i], showTimestamps))
  }

  predicate IsTranslationLine(line: string) {
    |line| > |TranslationPrefix| && StartsWith(line, TranslationPrefix) && line[|line| - 1] == '*'
  }

  /** Recovers timestamp and text from a head line. */
  function ParseHead(line: string, showTimestamps: bool): Option<(Option<string>, string)> {
    if !showTimestamps then Some((None, line))
    else if !StartsWith(line, "**[") then None
    else
      var k := 3 + IndexOf(line[3..], ']');
      if k + 4 <= |line| && line[k..k + 4] == "]** " then Some((Some(line[3..k]), line[k + 4..]))
      else None
  }

  /** Reads the lines of a transcript section back into rows. */
  function ParseTranscript(lines: seq<string>, showTimestamps: bool): Option<seq<Row>>
    decreases |lines|
  {
    if lines == [] then Some([])
    else if |lines| < 2 || lines[1] != "" then None
    else
      match ParseHead(lines[0], showTimestamps)
      case None => None
      case Some(head) =>
        if |lines| >= 4 && IsTranslationLine(lines[2]) && lines[3] == "" then
          var t := lines[2][|TranslationPrefix|..|lines[2]| - 1];
          match ParseTranscript(lines[4..], showTimestamps)
          case None => None
          case Some(rest) => Some([Row(head.0, head.1, Some(t))] + rest)
        else
          match ParseTranscript(lines[2..], showTimestamps)
          case None => None
          case Some(rest) => Some([Row(head.0, head.1, None)] + rest)
  }

  /** Entries whose record can be read back unambiguously: no field spans
      lines, a shown timestamp has no `]`, and with timestamps hidden no
      text looks like a translation line. */
  predicate Readable(e: Entry, showTimestamps: bool) {
    && NoNewline(e.text)
    && NoNewline(e.timestamp)
    && (e.translation.Some? ==> NoNewline(e.translation.value))
    && (showTimestamps ==> ']' !in e.timestamp)
    && (!showTimestamps ==> !IsTranslationLine(e.text))
  }

  lemma HeadRoundTrip(e: Entry, showTimestamps: bool)
    requires Readable(e, showTimestamps)
    ensures ParseHead(HeadLine(e, showTimestamps), showTimestamps)
      == Some((if showTimestamps then Some(e.timestamp) else None, e.text))
    ensures !IsTranslationLine(HeadLine(e, showTimestamps))
  {
    if showTimestamps {
      assert HeadLine(e, true) == "**[" + e.timestamp + "]** " + e.text;
      TimestampHead(e.timestamp, e.text);
    } else {
      assert HeadLine(e, false) == e.text;
    }
  }

  lemma TimestampHead(ts: string, text: string)
    requires ']' !in ts
    ensures ParseHead("**[" + ts + "]** " + text, true) == Some((Some(ts), text))
    ensures !IsTranslationLine("**[" + ts + "]** " + text)
  {
    var line := "**[" + ts + "]** " + text;
    var tail := line[3..];
    assert line[..3] == "**[";
    assert tail == ts + "]** " + text;
    forall i | 0 <= i < |ts|
      ensures tail[i] != ']'
    {
      assert tail[i] == ts[i];
      assert ts[i] in ts;
    }
    IndexOfFirst(tail, ']', |ts|);
    var k := 3 + |ts|;
    assert line[k..k + 4] == "]** ";
    assert line[3..k] == ts;
    assert line[k + 4..] == text;
    assert line[1] == '*';
  }

  lemma IndexOfFirst(s: string, c: char, j: nat)
    requires j < |s| && s[j] == c
    requires forall i | 0 <= i < j :: s[i] != c
    ensures IndexOf(s, c) == j
  {
  }

  lemma EntryLinesNoNewline(e: Entry, showTimestamps: bool)
    requires Readable(e, showTimestamps)
    ensures forall i | 0 <= i < |EntryLines(e, showTimestamps)| :: NoNewline(EntryLines(e, showTimestamps)[i])
  {
    var ls := EntryLines(e, showTimestamps);
    var head := HeadLine(e, showTimestamps);
    assert showTimestamps ==> head == "**[" + e.timestamp + "]** " + e.text;
    assert !showTimestamps ==> head == e.text;
    if Truthy(e.translation) {
      var t := TranslationPrefix + e.translation.value + "*";
      assert ls == [head, "", t, ""];
    }
  }

  lemma {:induction false} TranscriptLinesNoNewline(es: seq<Entry>, showTimestamps: bool)
    requires forall i | 0 <= i < |es| :: Readable(es[i], showTimestamps)
    ensures forall i | 0 <= i < |TranscriptLines(es, showTimestamps)| :: NoNewline(TranscriptLines(es, showTimestamps)[i])
    decreases |es|
  {
    if es != [] {
      EntryLinesNoNewline(es[0], showTimestamps);
      TranscriptLinesNoNewline(es[1..], showTimestamps);
    }
  }

  /** A translation line is recognised as one and gives back its text. */
  lemma TranslationLineRoundTrip(t: string)
    ensures var tl := TranslationPrefix + t + "*";
      IsTranslationLine(tl) && tl[|TranslationPrefix|..|tl| - 1] == t
  {
    var tl := TranslationPrefix + t + "*";
    assert tl[..|TranslationPrefix|] == TranslationPrefix;
    assert tl[|TranslationPrefix|..|tl| - 1] == t;
  }

  /** One entry's lines in front of lines that read back as `rows` read
      back as that entry's row followed by `rows`. */
  lemma ParseEntryLines(e: Entry, showTimestamps: bool, rest: seq<string>, rows: seq<Row>)
    requires Readable(e, showTimestamps)
    requires ParseTranscript(rest, showTimestamps) == Some(rows)
    requires rest != [] ==> !IsTranslationLine(rest[0])
    ensures ParseTranscript(EntryLines(e, showTimestamps) + rest, showTimestamps) == Some([RowOf(e, showTimestamps)] + rows)
  {
    HeadRoundTrip(e, showTimestamps);
    if Truthy(e.translation) {
      ParseTranslatedEntry(e, showTimestamps, rest, rows);
    } else {
      var lines := EntryLines(e, showTimestamps) + rest;
      assert lines == [HeadLine(e, showTimestamps), ""] + rest;
      assert lines[2..] == rest;
    }
  }

  /** The case of `ParseEntryLines` for an entry with a translation. */
  lemma ParseTranslatedEntry(e: Entry, showTimestamps: bool, rest: seq<string>, rows: seq<Row>)
    requires Readable(e, showTimestamps) && Truthy(e.translation)
    requires ParseTranscript(rest, showTimestamps) == Some(rows)
    ensures ParseTranscript(EntryLines(e, showTimestamps) + rest, showTimestamps) == Some([RowOf(e, showTimestamps)] + rows)
  {
    var lines := EntryLines(e, showTimestamps) + rest;
    HeadRoundTrip(e, showTimestamps);
    var tl := TranslationPrefix + e.translation.value + "*";
    assert lines == [HeadLine(e, showTimestamps), "", tl, ""] + rest;
    assert lines[4..] == rest;
    TranslationLineRoundTrip(e.translation.value);
  }

  /** Reading the transcript lines back yields one row per entry, in order. */
  lemma {:induction false} ParseTranscriptLines(es: seq<Entry>, showTimestamps: bool)
    requires forall i | 0 <= i < |es| :: Readable(es[i], showTimestamps)
    ensures ParseTranscript(TranscriptLines(es, showTimestamps), showTimestamps) == Some(Rows(es, showTimestamps))
    decreases |es|
  {
    if es != [] {
      var rest := TranscriptLines(es[1..], showTimestamps);
      ParseTranscriptLines(es[1..], showTimestamps);
      TailStartsPlain(es, showTimestamps);
      ParseEntryLines(es[0], showTimestamps, rest, Rows(es[1..], showTimestamps));
      RowsCons(es, showTimestamps);
    }
  }

  /** The lines after the first entry's start with a line that is not a
      translation. */
  lemma TailStartsPlain(es: seq<Entry>, showTimestamps: bool)
    requires es != []
    requires forall i | 0 <= i < |es| :: Readable(es[i], showTimestamps)
    ensures var rest := TranscriptLines(es[1..], showTimestamps);
      rest != [] ==> !IsTranslationLine(rest[0])
  {
    if es[1..] != [] {
      HeadRoundTrip(es[1], showTimestamps);
      assert TranscriptLines(es[1..], showTimestamps)[0] == HeadLine(es[1], showTimestamps);
    }
  }

  lemma RowsCons(es: seq<Entry>, showTimestamps: bool)
    requires es != []
    ensures Rows(es, showTimestamps) == [RowOf(es[0], showTimestamps)] + Rows(es[1..], showTimestamps)
  {
  }

  /** The transcript text of a record reads back as its rows. */
  lemma RenderEntriesRoundTrip(es: seq<Entry>, showTimestamps: bool)
    requires forall i | 0 <= i < |es| :: Readable(es[i], showTimestamps)
    ensures ParseTranscript(SplitLines(RenderEntries(es, showTimestamps)), showTimestamps) == Some(Rows(es, showTimestamps))
  {
    TranscriptLinesNoNewline(es, showTimestamps);
    SplitUnlines(TranscriptLines(es, showTimestamps));
    ParseTranscriptLines(es, showTimestamps);
  }

  /** A v2.6 record written in `'w'` mode is its header, ending with the
      `## Transcript` heading, followed by text that reads back as one row
      per entry in list order. */
  lemma SaveV26RoundTrip(meta: Metadata, now: string, entries: seq<Entry>, latencies: seq<real>,
                         showTimestamps: bool, fmt: real -> string)
    requires entries != []
    requires forall i | 0 <= i < |entries| :: Readable(entries[i], showTimestamps)
    ensures var record := SaveV26(meta, now, entries, latencies, false, showTimestamps, fmt).value;
      var h := HeaderV26(meta, now, latencies, fmt);
      && StartsWith(record, h)
      && ParseTranscript(SplitLines(record[|h|..]), showTimestamps) == Some(Rows(entries, showTimestamps))
  {
    var record := SaveV26(meta, now, entries, latencies, false, showTimestamps, fmt).value;
    var h := HeaderV26(meta, now, latencies, fmt);
    assert record[|h|..] == RenderEntries(entries, showTimestamps);
    RenderEntriesRoundTrip(entries, showTimestamps);
  }

  /** A root record is its header followed by text that reads back as one
      timestamped row per entry, without translations. */
  lemma SaveRootRoundTrip(sessionName: string, now: string, language: string, entries: seq<Entry>)
    requires entries != []
    requires forall i | 0 <= i < |entries| :: Readable(entries[i], true) && entries[i].translation.None?
    ensures var record := SaveRoot(sessionName, now, language, entries).value;
      var h := HeaderRoot(sessionName, now, language);
      && StartsWith(record, h)
      && ParseTranscript(SplitLines(record[|h|..]), true) == Some(Rows(entries, true))
  {
    var record := SaveRoot(sessionName, now, language, entries).value;
    var h := HeaderRoot(sessionName, now, language);
    RootMatchesV26(entries);
    assert record[|h|..] == RenderEntries(entries, true);
    RenderEntriesRoundTrip(entries, true);
  }
}
