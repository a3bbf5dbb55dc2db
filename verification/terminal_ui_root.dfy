/** The curses interface of the root version, src/ui/terminal_ui.py: a
    transcript buffer bounded to its last 1000 lines, the status message
    shown in the footer, the keys the main loop reacts to, and the window
    of buffer lines drawn on screen. Drawing itself is modelled as the
    strings that would be written at each row. */
module TerminalUiRoot {
  import opened Wrappers
  import opened Text

  /** The buffer holds at most this many lines. */
  const Capacity := 1000

  const DefaultHint := "Ctrl+S: Pause | Ctrl+R: Resume | Ctrl+C: Quit"

  datatype Ui = Ui(
    debugMode: bool,
    showTimestamps: bool,
    paused: bool,
    transcript: seq<string>,
    debugLines: seq<string>,
    infoMessage: string)

  function Initial(debugMode: bool): (ui: Ui)
    ensures ui.transcript == [] && ui.debugLines == [] && ui.infoMessage == ""
    ensures ui.showTimestamps && !ui.paused && ui.debugMode == debugMode
  {
    Ui(debugMode, true, false, [], [], "")
  }

  /** The last `n` elements of `s` (all of them when there are fewer). */
  function LastN<T>(s: seq<T>, n: nat): (r: seq<T>)
    ensures |r| == if |s| <= n then |s| else n
    ensures r == s[|s| - |r|..]
  {
    if |s| <= n then s else s[|s| - n..]
  }

  /** Keeping the last `n` twice, with lines added in between, is keeping
      the last `n` of everything. */
  lemma LastNAppend<T>(a: seq<T>, b: seq<T>, n: nat)
    ensures LastN(LastN(a, n) + b, n) == LastN(a + b, n)
  {
    var a' := LastN(a, n);
    assert a' + b == (a + b)[|a| - |a'|..];
  }

  /** The lines one transcript adds: `[ts] text` (or the bare text), then
      `  > translation` when a translation is present. */
  function NewLines(ui: Ui, ts: string, text: string, translation: Option<string>): (ls: seq<string>)
    ensures 1 <= |ls| <= 2
    ensures ls[0] == (if ui.showTimestamps then "[" + ts + "] " + text else text)
    ensures |ls| == 2 <==> Truthy(translation)
    ensures |ls| == 2 ==> ls[1] == "  > " + translation.value
  {
    var line := if ui.showTimestamps then "[" + ts + "] " + text else text;
    [line] + (if Truthy(translation) then ["  > " + translation.value] else [])
  }

  /** `display_transcript`: the new lines go to the end of the buffer,
      which then keeps only its last 1000 lines; in debug mode the line is
      also logged. Interim and final results are treated alike. */
  function DisplayTranscript(ui: Ui, ts: string, text: string, isFinal: bool, translation: Option<string>): (ui': Ui)
    ensures |ui'.transcript| <= Capacity
    ensures ui'.transcript == LastN(ui.transcript + NewLines(ui, ts, text, translation), Capacity)
    ensures ui'.debugLines == ui.debugLines
      + (if ui.debugMode then ["DEBUG: " + NewLines(ui, ts, text, translation)[0]] else [])
    ensures ui' == ui.(transcript := ui'.transcript, debugLines := ui'.debugLines)
  {
    var ls := NewLines(ui, ts, text, translation);
    var all := ui.transcript + ls;
    var kept := if |all| > Capacity then SuffixSlice(all, -Capacity) else all;
    ui.(transcript := kept,
        debugLines := ui.debugLines + (if ui.debugMode then ["DEBUG: " + ls[0]] else []))
  }

  /** A transcript to show: timestamp, text, finality and translation. */
  datatype Shown = Shown(ts: string, text: string, isFinal: bool, translation: Option<string>)

  function ShowAll(ui: Ui, xs: seq<Shown>): Ui
    decreases |xs|
  {
    if xs == [] then ui
    else ShowAll(DisplayTranscript(ui, xs[0].ts, xs[0].text, xs[0].isFinal, xs[0].translation), xs[1..])
  }

  /** Every line the transcripts add, in order, given the timestamp
      setting. */
  function AllLines(ui: Ui, xs: seq<Shown>): seq<string>
    decreases |xs|
  {
    if xs == [] then [] else NewLines(ui, xs[0].ts, xs[0].text, xs[0].translation) + AllLines(ui, xs[1..])
  }

  /** However many transcripts arrive, the buffer is the last 1000 lines of
      the whole history, in order. */
  lemma {:induction false} BufferIsHistoryTail(ui: Ui, xs: seq<Shown>)
    requires |ui.transcript| <= Capacity
    ensures ShowAll(ui, xs).transcript == LastN(ui.transcript + AllLines(ui, xs), Capacity)
    decreases |xs|
  {
    if xs != [] {
      var x := xs[0];
      var ls := NewLines(ui, x.ts, x.text, x.translation);
      var ui1 := DisplayTranscript(ui, x.ts, x.text, x.isFinal, x.translation);
      SameSettingSameLines(ui1, ui, xs[1..]);
      BufferIsHistoryTail(ui1, xs[1..]);
      HistoryStep(ui.transcript, ls, AllLines(ui, xs[1..]));
    } else {
      assert ui.transcript + [] == ui.transcript;
    }
  }

  lemma HistoryStep(a: seq<string>, ls: seq<string>, rest: seq<string>)
    ensures LastN(LastN(a + ls, Capacity) + rest, Capacity) == LastN(a + (ls + rest), Capacity)
  {
    LastNAppend(a + ls, rest, Capacity);
    assert (a + ls) + rest == a + (ls + rest);
  }

  lemma {:induction false} SameSettingSameLines(u: Ui, v: Ui, xs: seq<Shown>)
    requires u.showTimestamps == v.showTimestamps
    ensures AllLines(u, xs) == AllLines(v, xs)
    decreases |xs|
  {
    if xs != [] {
      SameSettingSameLines(u, v, xs[1..]);
    }
  }

  /** Debug lines grow only in debug mode. */
  lemma {:induction false} DebugOnlyInDebugMode(ui: Ui, xs: seq<Shown>)
    requires !ui.debugMode
    ensures ShowAll(ui, xs).debugLines == ui.debugLines
    decreases |xs|
  {
    if xs != [] {
      DebugOnlyInDebugMode(DisplayTranscript(ui, xs[0].ts, xs[0].text, xs[0].isFinal, xs[0].translation), xs[1..]);
    }
  }

  /** `display_message`, `display_error`, `clear_transcript`, `set_paused`
      and `set_show_timestamps`. */
  function DisplayMessage(ui: Ui, message: string): (ui': Ui)
    ensures ui'.infoMessage == message && ui' == ui.(infoMessage := message)
  {
    ui.(infoMessage := message)
  }

  function DisplayError(ui: Ui, message: string): (ui': Ui)
    ensures StartsWith(ui'.infoMessage, "ERROR: ") && ui'.infoMessage[7..] == message
    ensures ui' == ui.(infoMessage := ui'.infoMessage)
  {
    var m := "ERROR: " + message;
    assert m[..7] == "ERROR: " && m[7..] == message;
    ui.(infoMessage := m)
  }

  function ClearTranscript(ui: Ui): (ui': Ui)
    ensures ui'.transcript == [] && ui' == ui.(transcript := [])
  {
    ui.(transcript := [])
  }

  function SetPaused(ui: Ui, paused: bool): (ui': Ui)
    ensures ui'.paused == paused && ui' == ui.(paused := paused)
  {
    ui.(paused := paused)
  }

  function SetShowTimestamps(ui: Ui, show: bool): (ui': Ui)
    ensures ui'.showTimestamps == show && ui' == ui.(showTimestamps := show)
  {
    ui.(showTimestamps := show)
  }

  /** The footer text of `_draw_footer`: the status message, or the key
      hint when there is none, padded to the width and cut one short of
      it so the last cell is never written. */
  function Footer(ui: Ui, width: int): (r: string)
    ensures |r| == if width <= 0 then 0 else width - 1
    ensures var msg := if ui.infoMessage != "" then ui.infoMessage else DefaultHint;
      r == LJust(msg, width)[..|r|]
    ensures ui.infoMessage != "" && |ui.infoMessage| < width ==> r[..|ui.infoMessage|] == ui.infoMessage
  {
    var msg := if ui.infoMessage != "" then ui.infoMessage else DefaultHint;
    PrefixSlice(LJust(msg, width), if width - 1 > 0 then width - 1 else 0)
  }

  /** What a key press in `_main_loop` leads to. */
  datatype KeyAction = Quit | RequestPause | RequestResume | NoAction

  /** Ctrl+C (3) ends the loop; Ctrl+S (19) asks the transcriber to pause
      unless the display shows it paused; Ctrl+R (18) asks it to resume only
      when shown paused; nothing else happens for any other key or when no
      transcriber is attached. */
  function OnKey(ui: Ui, hasTranscriber: bool, key: int): (a: KeyAction)
    ensures a == Quit <==> key == 3
    ensures a == RequestPause <==> key == 19 && hasTranscriber && !ui.paused
    ensures a == RequestResume <==> key == 18 && hasTranscriber && ui.paused
  {
    if key == 3 then Quit
    else if key == 19 then (if hasTranscriber && !ui.paused then RequestPause else NoAction)
    else if key == 18 then (if hasTranscriber && ui.paused then RequestResume else NoAction)
    else NoAction
  }

  /** The rows `_draw_transcript` writes, top to bottom from row 1: the
      tail of the buffer, stopping before the footer row, each line cut to
      the width. */
  function DrawTranscript(ui: Ui, height: int, width: int): (rows: seq<string>)
    ensures height <= 2 ==> rows == []
    ensures height > 2 ==> |rows| == (if |ui.transcript| <= height - 2 then |ui.transcript| else height - 2)
    ensures height > 2 ==> forall i | 0 <= i < |rows| ::
      rows[i] == PrefixSlice(ui.transcript[|ui.transcript| - |rows| + i], width)
  {
    var lines := SuffixSlice(ui.transcript, -(height - 2));
    var shown := DrawnRows(lines, height);
    assert height > 2 ==> shown == ui.transcript[|ui.transcript| - |shown|..] by {
      if height > 2 {
        DrawnTail(ui.transcript, height);
      }
    }
    seq(|shown|, i requires 0 <= i < |shown| => PrefixSlice(shown[i], width))
  }

  /** Once the display shows the session paused, Ctrl+S does nothing and
      Ctrl+R asks to resume; once it shows it running, the other way round. */
  lemma PausedKeys(ui: Ui)
    ensures OnKey(SetPaused(ui, true), true, 19) == NoAction
    ensures OnKey(SetPaused(ui, true), true, 18) == RequestResume
    ensures OnKey(SetPaused(ui, false), true, 19) == RequestPause
    ensures OnKey(SetPaused(ui, false), true, 18) == NoAction
  {
  }

  /** After `clear_transcript` no transcript row is drawn, at any size. */
  lemma ClearedDrawsNothing(ui: Ui, height: int, width: int)
    ensures DrawTranscript(ClearTranscript(ui), height, width) == []
  {
  }

  /** A status message that fits is what the footer shows first, and an
      error shows behind its `ERROR: ` tag; neither touches the rows drawn. */
  lemma MessageInFooter(ui: Ui, message: string, height: int, width: int)
    ensures message != "" && |message| < width ==>
      StartsWith(Footer(DisplayMessage(ui, message), width), message)
    ensures |"ERROR: " + message| < width ==>
      StartsWith(Footer(DisplayError(ui, message), width), "ERROR: " + message)
    ensures DrawTranscript(DisplayMessage(ui, message), height, width) == DrawTranscript(ui, height, width)
    ensures DrawTranscript(DisplayError(ui, message), height, width) == DrawTranscript(ui, height, width)
  {
    var e := DisplayError(ui, message);
    assert e.infoMessage == "ERROR: " + message by {
      assert e.infoMessage[..7] == "ERROR: " && e.infoMessage[7..] == message;
      assert e.infoMessage == e.infoMessage[..7] + e.infoMessage[7..];
    }
  }

  /** The enumeration loop with its early `break`: index `i` is drawn only
      while `i + 1 < height - 1`. */
  function DrawnRows(lines: seq<string>, height: int): (r: seq<string>)
    ensures height <= 2 ==> r == []
    ensures height > 2 ==> r == lines[..if |lines| <= height - 2 then |lines| else height - 2]
  {
    var limit := if height - 2 <= 0 then 0 else height - 2;
    if |lines| <= limit then lines else lines[..limit]
  }

  /** With room for at least one row, the rows drawn are the tail of the
      buffer that fits above the footer. */
  lemma DrawnTail(t: seq<string>, height: int)
    requires height > 2
    ensures var shown := DrawnRows(SuffixSlice(t, -(height - 2)), height);
      && |shown| == (if |t| <= height - 2 then |t| else height - 2)
      && shown == t[|t| - |shown|..]
  {
  }

  /** A reply as `input().strip().lower()` leaves it. */
  function Answer(reply: string): string {
    Lower(Strip(reply))
  }

  /** The answers `request_confirmation` reads, in order. */
  function Answers(replies: seq<string>): (r: seq<string>)
    ensures |r| == |replies|
    ensures forall i | 0 <= i < |replies| :: r[i] == Answer(replies[i])
  {
    seq(|replies|, i requires 0 <= i < |replies| => Answer(replies[i]))
  }

  predicate Decisive(answer: string) {
    answer == "y" || answer == "n"
  }

  /** The position of the first decisive answer. */
  function Decider(answers: seq<string>): (r: Option<nat>)
    ensures r.Some? ==> r.value < |answers| && Decisive(answers[r.value])
    ensures r.Some? ==> forall j | 0 <= j < r.value :: !Decisive(answers[j])
    ensures r.None? <==> forall j | 0 <= j < |answers| :: !Decisive(answers[j])
    decreases |answers|
  {
    if answers == [] then None
    else if Decisive(answers[0]) then Some(0)
    else
      match Decider(answers[1..])
      case None => None
      case Some(k) => Some(k + 1)
  }

  /** `request_confirmation` over the replies typed in: it keeps reading
      until a reply is `y` or `n` once stripped and lower-cased, and answers
      true exactly for `y`; `None` when no reply decides. */
  function Confirm(replies: seq<string>): (r: Option<bool>)
    ensures r.None? <==> forall j | 0 <= j < |replies| :: !Decisive(Answer(replies[j]))
    ensures r.Some? ==>
      var i := Decider(Answers(replies)).value;
      && i < |replies|
      && (forall j | 0 <= j < i :: !Decisive(Answer(replies[j])))
      && (r.value <==> Answer(replies[i]) == "y")
      && (!r.value <==> Answer(replies[i]) == "n")
  {
    var answers := Answers(replies);
    match Decider(answers)
    case None => None
    case Some(i) => Some(answers[i] == "y")
  }
}
