/** The session state machine of `DeepgramTranscriber` in
    windows-v2.6-beta/src/transcriber.py: transcript events from the
    recogniser, the audio cursor the streaming loops advance, pause and
    resume with their snapshot save, and stop with its final save. The
    network connection, audio capture and the event loop are outside the
    model; their effect on the state is what is kept. */
module TranscriberV26 {
  import opened Wrappers
  import opened Text
  import Timestamp
  import Latency
  import Config
  import SessionRecord

  /** The class constants `RATE` and `CHANNELS`. */
  const Rate := 16000
  const ChannelCount := 1

  /** The audio settings sent to the recogniser are the configured ones. */
  lemma AudioSettingsAgree()
    ensures Rate == Config.SampleRate && ChannelCount == Config.Channels
  {
  }

  /** `alternatives[0]`: its transcript (a missing one reads as empty) and
      the text of its translation when that attribute exists and is truthy. */
  datatype Alternative = Alternative(transcript: string, translation: Option<string>)

  /** The `result` keyword argument; `alternatives` is `None` when the
      result has no `channel.alternatives` attribute. */
  datatype Result = Result(alternatives: Option<seq<Alternative>>, isFinal: bool, start: real, duration: real)

  /** What `_on_transcript` extracts from an event it does not discard. */
  datatype Heard = Heard(text: string, start: real, end: real, isFinal: bool, translation: Option<string>)

  /** What is passed to the UI's `display_transcript`. */
  datatype Display = Display(timestamp: string, text: string, isFinal: bool, translation: Option<string>)

  datatype Transcriber = Transcriber(
    translate: bool,
    running: bool,
    paused: bool,
    startTime: real,
    audioCursor: real,
    currentTimestamp: real,
    latencies: seq<real>,
    entries: seq<SessionRecord.Entry>)

  /** The state right after `__init__`. */
  function Initial(translate: bool): (t: Transcriber)
    ensures !t.running && !t.paused && t.entries == [] && t.latencies == []
    ensures t.audioCursor == 0.0 && t.currentTimestamp == 0.0
  {
    Transcriber(translate, false, false, 0.0, 0.0, 0.0, [], [])
  }

  /** The unit heuristic for `result.start` and `result.duration`: values
      above 1000 are taken as microseconds, others as seconds. */
  function Seconds(v: real): (r: real)
    ensures v <= 1000.0 ==> r == v
    ensures v > 1000.0 ==> r * 1000000.0 == v && 0.0 < r < v
  {
    if v > 1000.0 then v / 1000000.0 else v
  }

  /** A reading in seconds past the 1000 threshold is scaled down as if it
      were microseconds: an utterance starting 1200 s into a session is
      stamped `00:00`. */
  lemma SecondsPastThreshold()
    ensures Seconds(1200.0) == 0.0012
    ensures Timestamp.FormatTimestamp(Seconds(1200.0)) == "00:00"
    ensures Timestamp.FormatTimestamp(Seconds(1000.0)) == "16:40"
  {
    assert (0.0012).Floor == 0;
    assert (1000.0).Floor == 1000;
  }

  /** An accepted event with a non-negative duration never ends before it
      starts, whichever unit the heuristic picks for each field. */
  lemma EndNotBeforeStart(ev: Option<Result>, translate: bool)
    requires Hear(ev, translate).Some? && ev.value.duration >= 0.0
    ensures Hear(ev, translate).value.end >= Hear(ev, translate).value.start
  {
    assert Seconds(ev.value.duration) >= 0.0;
  }

  /** The discarding part of `_on_transcript`: an event without a result,
      without alternatives, or whose first transcript is blank is ignored;
      otherwise its text, times in seconds and (when translation was
      requested) its translation are taken. */
  function Hear(ev: Option<Result>, translate: bool): (h: Option<Heard>)
    ensures h.Some? <==>
      && ev.Some? && ev.value.alternatives.Some? && |ev.value.alternatives.value| > 0
      && !IsBlank(ev.value.alternatives.value[0].transcript)
    ensures h.Some? ==>
      var alt := ev.value.alternatives.value[0];
      && h.value.text == alt.transcript
      && h.value.start == Seconds(ev.value.start)
      && h.value.end == h.value.start + Seconds(ev.value.duration)
      && h.value.isFinal == ev.value.isFinal
      && h.value.translation == (if translate then alt.translation else None)
  {
    match ev
    case None => None
    case Some(res) =>
      match res.alternatives
      case None => None
      case Some(alts) =>
        if |alts| == 0 || IsBlank(alts[0].transcript) then None
        else
          var start := Seconds(res.start);
          Some(Heard(alts[0].transcript, start, start + Seconds(res.duration), res.isFinal,
                     if translate then alts[0].translation else None))
  }

  /** The entry stored for a final transcript: the translation key is
      present only for a non-empty translation. */
  function EntryOf(h: Heard): (e: SessionRecord.Entry)
    ensures e.text == h.text && e.start == h.start && e.end == h.end
    ensures e.timestamp == Timestamp.FormatTimestamp(h.start)
    ensures e.translation.Some? <==> Truthy(h.translation)
    ensures e.translation.Some? ==> e.translation == h.translation
  {
    SessionRecord.Entry(h.text, h.start, h.end, Timestamp.FormatTimestamp(h.start),
                        if Truthy(h.translation) then h.translation else None)
  }

  datatype Outcome = Outcome(t: Transcriber, shown: Option<Display>, latencyReport: Option<(real, real)>)

  /** `_on_transcript`: an event without a result, without alternatives or
      with a blank first transcript changes nothing, is not shown and
      reports nothing; any other event is taken as `Take` describes. */
  function OnTranscript(t: Transcriber, ev: Option<Result>): (o: Outcome)
    ensures Hear(ev, t.translate).None? ==> o == Outcome(t, None, None)
    ensures Hear(ev, t.translate).Some? ==> o == Take(t, Hear(ev, t.translate).value)
  {
    match Hear(ev, t.translate)
    case None => Outcome(t, None, None)
    case Some(h) => Take(t, h)
  }

  /** The accepting part of `_on_transcript`: an accepted event, interim or
      final, adds one latency sample (the audio cursor minus the utterance
      end) and is shown; only a final one is stored, as a new last entry,
      and moves the current timestamp to its end. Every tenth sample the
      last sample and the average of the last ten are reported. */
  function Take(t: Transcriber, h: Heard): (o: Outcome)
    ensures o.t.latencies == t.latencies + [t.audioCursor - h.end]
    ensures o.latencyReport == Latency.Report(o.t.latencies)
    ensures o.shown == Some(Display(Timestamp.FormatTimestamp(h.start), h.text, h.isFinal, h.translation))
    ensures o.t.entries == t.entries + (if h.isFinal then [EntryOf(h)] else [])
    ensures o.t.currentTimestamp == (if h.isFinal then h.end else t.currentTimestamp)
    ensures o.t.translate == t.translate && o.t.running == t.running && o.t.paused == t.paused
    ensures o.t.audioCursor == t.audioCursor && o.t.startTime == t.startTime
  {
    var latencies := t.latencies + [t.audioCursor - h.end];
    var shown := Display(Timestamp.FormatTimestamp(h.start), h.text, h.isFinal, h.translation);
    var t' := if h.isFinal
      then t.(latencies := latencies, currentTimestamp := h.end, entries := t.entries + [EntryOf(h)])
      else t.(latencies := latencies);
    Outcome(t', Some(shown), Latency.Report(latencies))
  }

  /** The transcriber's state after a sequence of events. */
  function Run(t: Transcriber, evs: seq<Option<Result>>): Transcriber
    decreases |evs|
  {
    if evs == [] then t else Run(OnTranscript(t, evs[0]).t, evs[1..])
  }

  /** The entries a sequence of events yields, defined on the events
      alone: one per accepted final event, in arrival order. */
  function FinalEntries(evs: seq<Option<Result>>, translate: bool): seq<SessionRecord.Entry>
    decreases |evs|
  {
    if evs == [] then [] else NewEntries(evs[0], translate) + FinalEntries(evs[1..], translate)
  }

  /** The entry one event contributes, if any. */
  function NewEntries(ev: Option<Result>, translate: bool): seq<SessionRecord.Entry> {
    var h := Hear(ev, translate);
    if h.Some? && h.value.isFinal then [EntryOf(h.value)] else []
  }

  lemma StepEntries(t: Transcriber, ev: Option<Result>)
    ensures OnTranscript(t, ev).t.entries == t.entries + NewEntries(ev, t.translate)
    ensures OnTranscript(t, ev).t.translate == t.translate
  {
  }

  /** The number of events that are not ignored. */
  function Accepted(evs: seq<Option<Result>>, translate: bool): nat
    decreases |evs|
  {
    if evs == [] then 0 else (if Hear(evs[0], translate).Some? then 1 else 0) + Accepted(evs[1..], translate)
  }

  /** Processing events appends exactly the final entries, in order;
      interim results are never stored. */
  lemma {:induction false} RunEntries(t: Transcriber, evs: seq<Option<Result>>)
    ensures Run(t, evs).entries == t.entries + FinalEntries(evs, t.translate)
    ensures Run(t, evs).translate == t.translate
    decreases |evs|
  {
    if evs != [] {
      var t1 := OnTranscript(t, evs[0]).t;
      var x := NewEntries(evs[0], t.translate);
      StepEntries(t, evs[0]);
      assert Run(t, evs) == Run(t1, evs[1..]);
      RunEntries(t1, evs[1..]);
      Associative(t.entries, x, FinalEntries(evs[1..], t.translate));
    }
  }

  lemma Associative<T>(a: seq<T>, b: seq<T>, c: seq<T>)
    ensures (a + b) + c == a + (b + c)
  {
  }

  /** Processing events keeps the earlier latency samples and adds one per
      accepted event. */
  lemma {:induction false} RunLatencies(t: Transcriber, evs: seq<Option<Result>>)
    ensures |Run(t, evs).latencies| == |t.latencies| + Accepted(evs, t.translate)
    ensures Run(t, evs).latencies[..|t.latencies|] == t.latencies
    decreases |evs|
  {
    if evs != [] {
      var t1 := OnTranscript(t, evs[0]).t;
      StepLatencies(t, evs[0]);
      RunLatencies(t1, evs[1..]);
      assert Run(t, evs).latencies[..|t1.latencies|][..|t.latencies|] == Run(t, evs).latencies[..|t.latencies|];
    }
  }

  /** One event adds a latency sample exactly when it is accepted. */
  lemma StepLatencies(t: Transcriber, ev: Option<Result>)
    ensures |OnTranscript(t, ev).t.latencies| == |t.latencies| + (if Hear(ev, t.translate).Some? then 1 else 0)
    ensures OnTranscript(t, ev).t.latencies[..|t.latencies|] == t.latencies
  {
  }

  /** What every stored entry satisfies: non-blank text, the timestamp of
      its start, and a translation only when it is non-empty. */
  predicate WellFormed(e: SessionRecord.Entry) {
    && !IsBlank(e.text)
    && e.timestamp == Timestamp.FormatTimestamp(e.start)
    && (e.translation.Some? ==> e.translation.value != "")
  }

  predicate AllWellFormed(es: seq<SessionRecord.Entry>) {
    forall i | 0 <= i < |es| :: WellFormed(es[i])
  }

  /** Event processing keeps every stored entry well formed. */
  lemma {:induction false} RunWellFormed(t: Transcriber, evs: seq<Option<Result>>)
    requires AllWellFormed(t.entries)
    ensures AllWellFormed(Run(t, evs).entries)
    decreases |evs|
  {
    if evs != [] {
      var t1 := OnTranscript(t, evs[0]).t;
      var h := Hear(evs[0], t.translate);
      if h.Some? && h.value.isFinal {
        assert t1.entries == t.entries + [EntryOf(h.value)];
        assert WellFormed(EntryOf(h.value));
      }
      assert AllWellFormed(t1.entries);
      RunWellFormed(t1, evs[1..]);
    }
  }

  // ---------------------------------------------------------------------
  // Control

  /** `start()`: marks the session running and records the clock reading. */
  function Start(t: Transcriber, now: real): (t': Transcriber)
    ensures t'.running && t'.startTime == now
    ensures t' == t.(running := true, startTime := now)
  {
    t.(running := true, startTime := now)
  }

  /** `pause()`: only a running, unpaused session pauses, and then a
      snapshot save is requested. */
  function Pause(t: Transcriber): (r: (Transcriber, bool))
    ensures r.1 <==> t.running && !t.paused
    ensures r.1 ==> r.0 == t.(paused := true)
    ensures !r.1 ==> r.0 == t
  {
    if !t.paused && t.running then (t.(paused := true), true) else (t, false)
  }

  /** `resume()`: only a running, paused session resumes. */
  function Resume(t: Transcriber): (t': Transcriber)
    ensures t.running && t.paused ==> t' == t.(paused := false)
    ensures !(t.running && t.paused) ==> t' == t
  {
    if t.paused && t.running then t.(paused := false) else t
  }

  /** `stop()`: the session stops, its latency statistics are reported,
      and the final save follows. The pause flag is left as it was. */
  function Stop(t: Transcriber): (r: (Transcriber, Option<Latency.Stats>))
    ensures !r.0.running
    ensures r.0 == t.(running := false)
    ensures r.1 == Latency.StatsOf(t.latencies)
  {
    (t.(running := false), Latency.StatsOf(t.latencies))
  }

  /** Pausing twice is pausing once; resuming twice is resuming once. */
  lemma PauseResumeIdempotent(t: Transcriber)
    ensures Pause(Pause(t).0) == (Pause(t).0, false)
    ensures Resume(Resume(t)) == Resume(t)
  {
  }

  /** Resuming undoes a pause that took effect, and pausing undoes a
      resume that took effect. */
  lemma PauseResumeInverse(t: Transcriber)
    ensures t.running && !t.paused ==> Resume(Pause(t).0) == t
    ensures t.running && t.paused ==> Pause(Resume(t)).0 == t
  {
  }

  /** After stop, pause and resume do nothing. */
  lemma StoppedIgnoresControl(t: Transcriber)
    ensures Pause(Stop(t).0) == (Stop(t).0, false)
    ensures Resume(Stop(t).0) == Stop(t).0
  {
  }

  /** The two audio loops: the custom PyAudio loop used when a device index
      was selected, and the recogniser's own microphone helper otherwise. */
  datatype Stream = Custom | Builtin

  function StreamFor(micIndex: Option<int>): (s: Stream)
    ensures s == Custom <==> micIndex.Some?
  {
    if micIndex.Some? then Custom else Builtin
  }

  /** Seconds of audio one loop iteration accounts for: a 1024-frame chunk
      at `RATE`, or the builtin loop's fixed 0.1 s. */
  function ChunkSeconds(s: Stream): (d: real)
    ensures d > 0.0
    ensures s == Custom ==> d * (Rate as real) == 1024.0
  {
    match s
    case Custom => 1024.0 / (Rate as real)
    case Builtin => 0.1
  }

  /** One iteration of a streaming loop: the audio cursor advances only
      while the session runs unpaused. */
  function Tick(t: Transcriber, s: Stream): (t': Transcriber)
    ensures t.running && !t.paused ==> t'.audioCursor == t.audioCursor + ChunkSeconds(s)
    ensures !(t.running && !t.paused) ==> t' == t
    ensures t' == t.(audioCursor := t'.audioCursor)
  {
    if t.running && !t.paused then t.(audioCursor := t.audioCursor + ChunkSeconds(s)) else t
  }

  function Ticks(t: Transcriber, s: Stream, n: nat): Transcriber
    decreases n
  {
    if n == 0 then t else Ticks(Tick(t, s), s, n - 1)
  }

  /** `n` iterations of an unpaused running loop advance the cursor by `n`
      chunks and touch nothing else. */
  lemma {:induction false} TicksAdvance(t: Transcriber, s: Stream, n: nat)
    requires t.running && !t.paused
    ensures Ticks(t, s, n) == t.(audioCursor := t.audioCursor + (n as real) * ChunkSeconds(s))
    decreases n
  {
    if n > 0 {
      TicksAdvance(Tick(t, s), s, n - 1);
    }
  }

  /** A paused or stopped loop leaves the state alone. */
  lemma {:induction false} PausedTicksIdle(t: Transcriber, s: Stream, n: nat)
    requires !(t.running && !t.paused)
    ensures Ticks(t, s, n) == t
    decreases n
  {
    if n > 0 {
      PausedTicksIdle(t, s, n - 1);
    }
  }

  // ---------------------------------------------------------------------
  // The session file

  /** Everything that happens to a session, in order. */
  datatype Command = Begin(now: real) | Transcript(ev: Option<Result>) | Advance(s: Stream) | Suspend | Continue | End

  /** A transcriber together with its session file. */
  datatype Session = Session(t: Transcriber, file: Option<string>)

  /** Carries out one command; a pause that takes effect appends a
      snapshot, stop writes the final record. `now`, `show` and `fmt` stand
      for the wall-clock date, the UI's timestamp setting and the
      three-decimal formatting. */
  function Step(meta: SessionRecord.Metadata, now: string, show: bool, fmt: real -> string,
                ses: Session, c: Command): (r: Session)
    ensures c.End? ==> !r.t.running && r.t.entries == ses.t.entries
    ensures c.End? && ses.t.entries != [] ==>
      r.file == Some(SessionRecord.HeaderV26(meta, now, ses.t.latencies, fmt)
                     + SessionRecord.RenderEntries(ses.t.entries, show))
    ensures c.End? && ses.t.entries == [] ==> r.file == ses.file
    ensures c.Suspend? && ses.t.running && !ses.t.paused && ses.t.entries != [] ==>
      && r.file.Some?
      && StartsWith(r.file.value, ses.file.GetOr(""))
      && EndsWith(r.file.value, SessionRecord.RenderEntries(ses.t.entries, show))
    ensures !c.End? && !(c.Suspend? && Pause(ses.t).1) ==> r.file == ses.file
    ensures !c.End? ==> r.t.running == (c.Begin? || ses.t.running)
  {
    match c
    case Begin(clock) => Session(Start(ses.t, clock), ses.file)
    case Transcript(ev) => Session(OnTranscript(ses.t, ev).t, ses.file)
    case Advance(s) => Session(Tick(ses.t, s), ses.file)
    case Continue => Session(Resume(ses.t), ses.file)
    case Suspend =>
      var (t', snapshot) := Pause(ses.t);
      if !snapshot then Session(t', ses.file)
      else
        var written := SessionRecord.SaveV26(meta, now, t'.entries, t'.latencies, true, show, fmt);
        if t'.entries == [] then Session(t', SessionRecord.ApplySave(ses.file, written, true))
        else
          SessionRecord.SnapshotKeepsFile(ses.file, meta, now, t'.entries, t'.latencies, show, fmt);
          Session(t', SessionRecord.ApplySave(ses.file, written, true))
    case End =>
      var (t', _) := Stop(ses.t);
      var written := SessionRecord.SaveV26(meta, now, t'.entries, t'.latencies, false, show, fmt);
      Session(t', SessionRecord.ApplySave(ses.file, written, false))
  }

  function Replay(meta: SessionRecord.Metadata, now: string, show: bool, fmt: real -> string,
                  ses: Session, cs: seq<Command>): Session
    decreases |cs|
  {
    if cs == [] then ses else Replay(meta, now, show, fmt, Step(meta, now, show, fmt, ses, cs[0]), cs[1..])
  }

  /** Whatever snapshots were appended along the way, a session that ends
      with stop and has entries leaves exactly one full record: its header
      and every entry. */
  lemma FinalRecord(meta: SessionRecord.Metadata, now: string, show: bool, fmt: real -> string,
                    ses: Session, cs: seq<Command>)
    requires Replay(meta, now, show, fmt, ses, cs).t.entries != []
    ensures var last := Replay(meta, now, show, fmt, ses, cs);
      Replay(meta, now, show, fmt, ses, cs + [End]).file
        == Some(SessionRecord.HeaderV26(meta, now, last.t.latencies, fmt)
                + SessionRecord.RenderEntries(last.t.entries, show))
  {
    ReplayAppend(meta, now, show, fmt, ses, cs, End);
  }

  lemma {:induction false} ReplayAppend(meta: SessionRecord.Metadata, now: string, show: bool, fmt: real -> string,
                                        ses: Session, cs: seq<Command>, c: Command)
    ensures Replay(meta, now, show, fmt, ses, cs + [c])
      == Step(meta, now, show, fmt, Replay(meta, now, show, fmt, ses, cs), c)
    decreases |cs|
  {
    if cs == [] {
      assert [c][1..] == [];
    } else {
      assert (cs + [c])[1..] == cs[1..] + [c];
      ReplayAppend(meta, now, show, fmt, Step(meta, now, show, fmt, ses, cs[0]), cs[1..], c);
    }
  }

  /** A session with no stored entries never creates its file. */
  lemma {:induction false} NoEntriesNoFile(meta: SessionRecord.Metadata, now: string, show: bool, fmt: real -> string,
                                           ses: Session, cs: seq<Command>)
    requires ses.file.None? && ses.t.entries == []
    requires forall i | 0 <= i < |cs| :: !cs[i].Transcript?
    ensures Replay(meta, now, show, fmt, ses, cs).file.None?
    decreases |cs|
  {
    if cs != [] {
      NoEntriesNoFile(meta, now, show, fmt, Step(meta, now, show, fmt, ses, cs[0]), cs[1..]);
    }
  }
}
