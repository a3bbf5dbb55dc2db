/** The transcript handling of the root version, src/transcriber.py. Its
    event handler and `_save_transcript` are written as functions nested
    inside the module-level `_stream_microphone_alternative`, so they are
    not methods of `DeepgramTranscriber`; what is modelled here is the logic
    those functions spell out. Times come from word timings, with the
    end of the last final utterance as the fallback start. */
module TranscriberRoot {
  import opened Wrappers
  import opened Text
  import Timestamp
  import SessionRecord

  /** One element of an alternative's `words` list. */
  datatype Word = Word(start: real, end: real)

  /** `alternatives[0]`: a missing `transcript` reads as `''`, missing
      `words` as the empty list. */
  datatype Alternative = Alternative(transcript: string, words: seq<Word>)

  /** A transcript message; a missing `channel` or `alternatives` key reads
      as the empty list and a missing `is_final` as false. */
  datatype Message = Message(alternatives: seq<Alternative>, isFinal: bool)

  /** `current_timestamp` and `transcript_data`. */
  datatype State = State(currentTimestamp: real, entries: seq<SessionRecord.Entry>)

  const Initial := State(0.0, [])

  /** Whether the handler goes past its early returns: the message is
      truthy, has alternatives, and the first transcript is not blank.
      (`None` stands for a falsy message.) */
  predicate Accepted(ev: Option<Message>) {
    ev.Some? && |ev.value.alternatives| > 0 && !IsBlank(ev.value.alternatives[0].transcript)
  }

  /** Start and end of an utterance: the first word's start and the last
      word's end, or the current timestamp for both when there are no
      words. */
  function Timing(alt: Alternative, current: real): (r: (real, real))
    ensures |alt.words| > 0 ==> r == (alt.words[0].start, alt.words[|alt.words| - 1].end)
    ensures alt.words == [] ==> r == (current, current)
  {
    if |alt.words| > 0 then (alt.words[0].start, alt.words[|alt.words| - 1].end) else (current, current)
  }

  /** The nested `_on_transcript`: an accepted final message is stored with
      the timestamp of its start and shown; a final message with words moves
      the current timestamp to its end. Anything else changes nothing. */
  function OnTranscript(s: State, ev: Option<Message>): (r: (State, Option<(string, string)>))
    ensures !Accepted(ev) || !ev.value.isFinal ==> r == (s, None)
    ensures Accepted(ev) && ev.value.isFinal ==>
      var alt := ev.value.alternatives[0];
      var (start, end) := Timing(alt, s.currentTimestamp);
      var ts := Timestamp.FormatTimestamp(start);
      && r.0.entries == s.entries + [SessionRecord.Entry(alt.transcript, start, end, ts, None)]
      && r.0.currentTimestamp == (if |alt.words| > 0 then end else s.currentTimestamp)
      && r.1 == Some((ts, alt.transcript))
  {
    if !Accepted(ev) then (s, None)
    else
      var alt := ev.value.alternatives[0];
      var (start, end) := Timing(alt, s.currentTimestamp);
      var current := if |alt.words| > 0 && ev.value.isFinal then end else s.currentTimestamp;
      var ts := Timestamp.FormatTimestamp(start);
      if ev.value.isFinal then
        (State(current, s.entries + [SessionRecord.Entry(alt.transcript, start, end, ts, None)]), Some((ts, alt.transcript)))
      else (State(current, s.entries), None)
  }

  function Run(s: State, evs: seq<Option<Message>>): State
    decreases |evs|
  {
    if evs == [] then s else Run(OnTranscript(s, evs[0]).0, evs[1..])
  }

  /** The number of accepted final messages, counted on the messages alone. */
  function Finals(evs: seq<Option<Message>>): nat
    decreases |evs|
  {
    if evs == [] then 0 else (if Accepted(evs[0]) && evs[0].value.isFinal then 1 else 0) + Finals(evs[1..])
  }

  /** Processing messages keeps the earlier entries and adds one per
      accepted final message. */
  lemma {:induction false} RunCounts(s: State, evs: seq<Option<Message>>)
    ensures |Run(s, evs).entries| == |s.entries| + Finals(evs)
    ensures Run(s, evs).entries[..|s.entries|] == s.entries
    decreases |evs|
  {
    if evs != [] {
      var s1 := OnTranscript(s, evs[0]).0;
      RunCounts(s1, evs[1..]);
      assert s1.entries[..|s.entries|] == s.entries;
      assert Run(s, evs).entries[..|s1.entries|][..|s.entries|] == Run(s, evs).entries[..|s.entries|];
    }
  }

  /** Interim results leave the whole state untouched. */
  lemma {:induction false} InterimIsInert(s: State, evs: seq<Option<Message>>)
    requires forall i | 0 <= i < |evs| :: evs[i].Some? ==> !evs[i].value.isFinal
    ensures Run(s, evs) == s
    decreases |evs|
  {
    if evs != [] {
      InterimIsInert(s, evs[1..]);
    }
  }

  /** What every stored entry satisfies: non-blank text, the timestamp of
      its start, and no translation. */
  predicate WellFormed(e: SessionRecord.Entry) {
    && !IsBlank(e.text)
    && e.timestamp == Timestamp.FormatTimestamp(e.start)
    && e.translation.None?
  }

  /** The first alternative's first word starts no later than its last
      word ends. */
  predicate Ordered(ev: Option<Message>) {
    ev.Some? && |ev.value.alternatives| > 0 ==>
      var ws := ev.value.alternatives[0].words;
      |ws| > 0 ==> ws[0].start <= ws[|ws| - 1].end
  }

  /** Message processing keeps every entry well formed, whatever the
      messages hold. */
  lemma {:induction false} RunWellFormed(s: State, evs: seq<Option<Message>>)
    requires forall i | 0 <= i < |s.entries| :: WellFormed(s.entries[i])
    ensures forall i | 0 <= i < |Run(s, evs).entries| :: WellFormed(Run(s, evs).entries[i])
    decreases |evs|
  {
    if evs != [] {
      var s1 := OnTranscript(s, evs[0]).0;
      if Accepted(evs[0]) && evs[0].value.isFinal {
        var e := s1.entries[|s1.entries| - 1];
        assert s1.entries == s.entries + [e];
        assert WellFormed(e);
      }
      RunWellFormed(s1, evs[1..]);
    }
  }

  /** With ordered word timings every entry ends no earlier than it starts. */
  lemma {:induction false} RunOrdered(s: State, evs: seq<Option<Message>>)
    requires forall i | 0 <= i < |s.entries| :: s.entries[i].start <= s.entries[i].end
    requires forall i | 0 <= i < |evs| :: Ordered(evs[i])
    ensures forall i | 0 <= i < |Run(s, evs).entries| :: Run(s, evs).entries[i].start <= Run(s, evs).entries[i].end
    decreases |evs|
  {
    if evs != [] {
      var s1 := OnTranscript(s, evs[0]).0;
      if Accepted(evs[0]) && evs[0].value.isFinal {
        var e := s1.entries[|s1.entries| - 1];
        assert s1.entries == s.entries + [e];
        assert Ordered(evs[0]);
        assert e.start <= e.end;
      }
      RunOrdered(s1, evs[1..]);
    }
  }

  /** The stored entries of the root version always render with their
      timestamps, exactly as the v2.6 renderer does with timestamps shown. */
  lemma RootRecordIsV26Record(s: State)
    requires forall i | 0 <= i < |s.entries| :: WellFormed(s.entries[i])
    ensures SessionRecord.RenderRootEntries(s.entries) == SessionRecord.RenderEntries(s.entries, true)
  {
    SessionRecord.RootMatchesV26(s.entries);
  }
}
