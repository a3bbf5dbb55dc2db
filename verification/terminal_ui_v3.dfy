/** The transcript display of windows-v3.0-beta/src/ui/terminal_ui.py: the
    routing between inline, side-by-side and bilingual layouts, the map of
    interim texts per timestamp, and the column arithmetic of the two-column
    layout. Printing is modelled as the list of `print` calls made, each
    with its text and its `end` string; the terminal width is a parameter. */
module TerminalUiV3 {
  import opened Wrappers
  import opened Text
  import opened OrderedDict
  import Config

  /** One `print(text, end=end)` call. */
  datatype Printed = Printed(text: string, end: string)

  /** The display settings and `last_interim_text`. */
  datatype Ui = Ui(showTimestamps: bool, bilingual: bool, sideBySide: bool, lastInterim: Dict<string, string>)

  /** A Python dict never holds a key twice. */
  predicate Valid(ui: Ui) {
    UniqueKeys(ui.lastInterim)
  }

  /** The display state right after `__init__`. */
  const Initial := Ui(true, false, true, [])

  const Final := "\U{1F4DD} "
  const Interim := "\U{1F504} "
  const Globe := "\U{1F310} "
  const Separator := " │ "

  /** The line that blanks the current terminal row before a rewrite. */
  const ClearLine := Printed("\r" + Repeat(' ', 100), "\r")

  /** `"[ts] "`, or nothing when timestamps are hidden. */
  function Stamp(ui: Ui, ts: string): string {
    if ui.showTimestamps then "[" + ts + "] " else ""
  }

  // ---------------------------------------------------------------------
  // Routing

  datatype Layout = Inline | SideBySide | Bilingual

  /** `display_transcript`: bilingual when side-by-side and bilingual mode
      are both on, side-by-side when only side-by-side is on, inline
      otherwise. */
  function Route(ui: Ui): (l: Layout)
    ensures l == Bilingual <==> ui.sideBySide && ui.bilingual
    ensures l == SideBySide <==> ui.sideBySide && !ui.bilingual
    ensures l == Inline <==> !ui.sideBySide
  {
    if ui.sideBySide then (if ui.bilingual then Bilingual else SideBySide) else Inline
  }

  /** `display_transcript(timestamp, text, is_final, translation)`. */
  function DisplayTranscript(ui: Ui, columns: int, ts: string, text: string, isFinal: bool,
                             translation: Option<string>): (r: (Ui, seq<Printed>))
    requires Valid(ui)
    ensures Valid(r.0)
    ensures Route(ui) == Inline ==> r == InlineDisplay(ui, ts, text, isFinal, translation)
    ensures Route(ui) == SideBySide ==> r == SideBySideDisplay(ui, columns, ts, text, isFinal, translation)
    ensures Route(ui) == Bilingual ==> r == BilingualDisplay(ui, columns, ts, text, isFinal, translation)
  {
    match Route(ui)
    case Inline => InlineDisplay(ui, ts, text, isFinal, translation)
    case SideBySide => SideBySideDisplay(ui, columns, ts, text, isFinal, translation)
    case Bilingual => BilingualDisplay(ui, columns, ts, text, isFinal, translation)
  }

  // ---------------------------------------------------------------------
  // Inline layout

  /** `inline_display_transcript`: an interim result is drawn over the
      current row and recorded under its timestamp unless the same text is
      already recorded there; a final result gets its own line, its
      translation a line below it, and its timestamp leaves the map. */
  function InlineDisplay(ui: Ui, ts: string, text: string, isFinal: bool,
                         translation: Option<string>): (r: (Ui, seq<Printed>))
    requires Valid(ui)
    ensures Valid(r.0)
    ensures r.0 == ui.(lastInterim := r.0.lastInterim)
    ensures !isFinal && Get(ui.lastInterim, ts) == Some(text) ==> r == (ui, [])
    ensures !isFinal && Get(ui.lastInterim, ts) != Some(text) ==>
      && r.0.lastInterim == Set(ui.lastInterim, ts, text)
      && |r.1| > 0
      && r.1[|r.1| - 1] == Printed(Interim + Stamp(ui, ts) + text, "\r")
    ensures isFinal ==>
      && r.0.lastInterim == Pop(ui.lastInterim, ts)
      && |r.1| == (if Truthy(translation) then 3 else 2)
      && r.1[..2] == [ClearLine, Printed(Final + Stamp(ui, ts) + text, "\n")]
      && (Truthy(translation) ==> r.1[2] == Printed(Globe + Stamp(ui, ts) + translation.value, "\n"))
  {
    var line := Stamp(ui, ts) + text;
    if !isFinal then
      match Get(ui.lastInterim, ts)
      case Some(previous) =>
        if previous != text then
          assert Interim + line == Interim + Stamp(ui, ts) + text;
          (ui.(lastInterim := Set(ui.lastInterim, ts, text)), [ClearLine, Printed(Interim + line, "\r")])
        else (ui, [])
      case None =>
        assert Interim + line == Interim + Stamp(ui, ts) + text;
        (ui.(lastInterim := Set(ui.lastInterim, ts, text)), [Printed(Interim + line, "\r")])
    else
      var prints := [ClearLine, Printed(Final + line, "\n")]
        + (if Truthy(translation) then [Printed(Globe + Stamp(ui, ts) + translation.value, "\n")] else []);
      assert prints[..2] == [ClearLine, Printed(Final + line, "\n")];
      assert Final + line == Final + Stamp(ui, ts) + text;
      (ui.(lastInterim := Pop(ui.lastInterim, ts)), prints)
  }

  /** Repeating an interim result is a no-op, and a final result after an
      interim one for a new timestamp leaves the map as it was before. */
  lemma InlineInterimThenFinal(ui: Ui, ts: string, text: string, again: string, translation: Option<string>)
    requires Valid(ui) && ts !in Keys(ui.lastInterim)
    ensures var ui1 := InlineDisplay(ui, ts, text, false, None).0;
      && InlineDisplay(ui1, ts, text, false, None) == (ui1, [])
      && InlineDisplay(ui1, ts, again, true, translation).0 == ui
  {
    PopSetNew(ui.lastInterim, ts, text);
  }

  // ---------------------------------------------------------------------
  // Side-by-side layout

  /** The two column widths for a terminal `columns` wide: the left one is
      `columns // 2 - 2`, the right one what remains after the separator. */
  function Columns(columns: int): (r: (int, int))
    ensures r.0 + 3 + r.1 == columns
    ensures r.0 == Floor(columns, 2) - 2
    ensures columns >= 10 ==> r.0 >= 3 && r.1 >= 3 && r.0 <= r.1
  {
    var left := columns / 2 - 2;
    (left, columns - left - 3)
  }

  /** Python's `a // b` for a positive divisor. */
  function Floor(a: int, b: int): (q: int)
    requires b > 0
    ensures q * b <= a < q * b + b
  {
    a / b
  }

  /** Cuts a text longer than `width` to `text[:width-3] + "..."`. */
  function Cut(text: string, width: int): (r: string)
    ensures |text| <= width ==> r == text
    ensures |text| > width ==> r == PrefixSlice(text, width - 3) + "..."
    ensures width >= 3 ==> |r| <= width
    ensures width >= 3 && |text| > width ==> |r| == width && r[..width - 3] == text[..width - 3]
  {
    if |text| > width then PrefixSlice(text, width - 3) + "..." else text
  }

  /** Cuts or pads a text to the column: for a width of at least three the
      result is exactly `width` characters. */
  function Fit(text: string, width: int): (r: string)
    ensures |text| > width ==> r == PrefixSlice(text, width - 3) + "..."
    ensures |text| <= width ==> r == LJust(text, width)
    ensures width >= 3 ==> |r| == width
    ensures width >= 3 && |text| > width ==> r[..width - 3] == text[..width - 3]
  {
    if |text| > width then Cut(text, width) else LJust(text, width)
  }

  /** The left column of a final line: the first recorded interim, cut and
      padded to the column, or blanks when nothing is recorded. */
  function LeftSide(ui: Ui, left: int): (r: string)
    ensures First(ui.lastInterim).None? ==> r == Repeat(' ', left)
    ensures First(ui.lastInterim).Some? ==>
      var (lts, ltext) := First(ui.lastInterim).value;
      r == LJust(Cut(Interim + Stamp(ui, lts) + ltext, left), left)
    ensures left >= 3 ==> |r| == left
  {
    match First(ui.lastInterim)
    case None => Repeat(' ', left)
    case Some(p) => LJust(Cut(Interim + Stamp(ui, p.0) + p.1, left), left)
  }

  /** `side_by_side_display_transcript`: an interim result that is new for
      its timestamp is drawn fitted to the left column and recorded; a final
      result is drawn in the right column next to the first recorded
      interim, its translation below it, and its timestamp leaves the map. */
  function SideBySideDisplay(ui: Ui, columns: int, ts: string, text: string, isFinal: bool,
                             translation: Option<string>): (r: (Ui, seq<Printed>))
    requires Valid(ui)
    ensures Valid(r.0)
    ensures r.0 == ui.(lastInterim := r.0.lastInterim)
    ensures var (left, right) := Columns(columns);
      && (!isFinal && Get(ui.lastInterim, ts) == Some(text) ==> r == (ui, []))
      && (!isFinal && Get(ui.lastInterim, ts) != Some(text) ==>
            r == (ui.(lastInterim := Set(ui.lastInterim, ts, text)),
                  [Printed("\r" + Fit(Interim + Stamp(ui, ts) + text, left) + Separator, "")]))
      && (isFinal ==>
            && r.0.lastInterim == Pop(ui.lastInterim, ts)
            && |r.1| == (if Truthy(translation) then 2 else 1)
            && r.1[0] == Printed("\r" + LeftSide(ui, left) + Separator + Cut(Final + Stamp(ui, ts) + text, right), "\n")
            && (Truthy(translation) ==>
                 r.1[1] == Printed(Repeat(' ', left + 3) + Cut(Globe + Stamp(ui, ts) + translation.value, right), "\n")))
  {
    if isFinal then SideBySideFinal(ui, columns, ts, text, translation)
    else SideBySideInterim(ui, columns, ts, text)
  }

  /** The interim branch of `SideBySideDisplay`. */
  function SideBySideInterim(ui: Ui, columns: int, ts: string, text: string): (r: (Ui, seq<Printed>))
    requires Valid(ui)
    ensures Valid(r.0)
    ensures r.0 == ui.(lastInterim := r.0.lastInterim)
    ensures Get(ui.lastInterim, ts) == Some(text) ==> r == (ui, [])
    ensures Get(ui.lastInterim, ts) != Some(text) ==>
      r == (ui.(lastInterim := Set(ui.lastInterim, ts, text)),
            [Printed("\r" + Fit(Interim + Stamp(ui, ts) + text, Columns(columns).0) + Separator, "")])
  {
    var (left, right) := Columns(columns);
    if Get(ui.lastInterim, ts) != Some(text) then
      (ui.(lastInterim := Set(ui.lastInterim, ts, text)),
       [Printed("\r" + Fit(Interim + Stamp(ui, ts) + text, left) + Separator, "")])
    else (ui, [])
  }

  /** The final branch of `SideBySideDisplay`. */
  function SideBySideFinal(ui: Ui, columns: int, ts: string, text: string, translation: Option<string>): (r: (Ui, seq<Printed>))
    requires Valid(ui)
    ensures Valid(r.0)
    ensures r.0 == ui.(lastInterim := Pop(ui.lastInterim, ts))
    ensures var (left, right) := Columns(columns);
      && |r.1| == (if Truthy(translation) then 2 else 1)
      && r.1[0] == Printed("\r" + LeftSide(ui, left) + Separator + Cut(Final + Stamp(ui, ts) + text, right), "\n")
      && (Truthy(translation) ==>
           r.1[1] == Printed(Repeat(' ', left + 3) + Cut(Globe + Stamp(ui, ts) + translation.value, right), "\n"))
  {
    var (left, right) := Columns(columns);
    var row := Printed("\r" + LeftSide(ui, left) + Separator + Cut(Final + Stamp(ui, ts) + text, right), "\n");
    var ui' := ui.(lastInterim := Pop(ui.lastInterim, ts));
    if Truthy(translation) then
      (ui', [row, Printed(Repeat(' ', left + 3) + Cut(Globe + Stamp(ui, ts) + translation.value, right), "\n")])
    else (ui', [row])
  }

  /** On a terminal at least ten columns wide every side-by-side line fits:
      after the carriage return, the final row and the translation row are
      at most `columns` characters, and an interim row is exactly the left
      column plus the separator. */
  lemma SideBySideFits(ui: Ui, columns: int, ts: string, text: string, isFinal: bool, translation: Option<string>)
    requires Valid(ui) && columns >= 10
    ensures var r := SideBySideDisplay(ui, columns, ts, text, isFinal, translation).1;
      var (left, _) := Columns(columns);
      forall i | 0 <= i < |r| ::
        && |r[i].text| <= columns + 1
        && (!isFinal ==> |r[i].text| == 1 + left + 3)
  {
    var (left, right) := Columns(columns);
    var r := SideBySideDisplay(ui, columns, ts, text, isFinal, translation).1;
    if isFinal {
      assert |LeftSide(ui, left)| == left;
      assert |Cut(Final + Stamp(ui, ts) + text, right)| <= right;
      assert |r[0].text| <= 1 + left + 3 + right;
      if Truthy(translation) {
        assert |Cut(Globe + Stamp(ui, ts) + translation.value, right)| <= right;
        assert |r[1].text| <= left + 3 + right;
      }
    } else if r != [] {
      assert |Fit(Interim + Stamp(ui, ts) + text, left)| == left;
    }
  }

  // ---------------------------------------------------------------------
  // Bilingual layout

  /** The translation line of the bilingual layout, indented past half the
      terminal and cut with a one-character ellipsis. */
  function BilingualLine(ui: Ui, columns: int, ts: string, translation: string): (r: string)
    ensures var indent := Floor(columns, 2) + 3;
      var line := Globe + Stamp(ui, ts) + translation;
      var maxRight := columns - indent - 1;
      && StartsWith(r, Repeat(' ', indent))
      && (|line| <= maxRight ==> r == Repeat(' ', indent) + line)
      && (maxRight >= 3 && |line| > maxRight ==> |r| == indent + maxRight - 2)
      && (maxRight >= 3 && |line| > maxRight ==> r == Repeat(' ', indent) + line[..maxRight - 3] + "…")
  {
    var indent := columns / 2 + 3;
    var line := Globe + Stamp(ui, ts) + translation;
    var maxRight := columns - indent - 1;
    var shown := if |line| > maxRight then PrefixSlice(line, maxRight - 3) + "…" else line;
    assert (Repeat(' ', indent) + shown)[..|Repeat(' ', indent)|] == Repeat(' ', indent);
    Repeat(' ', indent) + shown
  }

  /** `bilingual_display_transcript`: the inline layout without the
      translation, then, for a final result with a translation, the
      indented translation line. */
  function BilingualDisplay(ui: Ui, columns: int, ts: string, text: string, isFinal: bool,
                            translation: Option<string>): (r: (Ui, seq<Printed>))
    requires Valid(ui)
    ensures Valid(r.0)
    ensures var (ui', inline) := InlineDisplay(ui, ts, text, isFinal, None);
      && r.0 == ui'
      && (isFinal && Truthy(translation) ==> r.1 == inline + [Printed(BilingualLine(ui, columns, ts, translation.value), "\n")])
      && (!(isFinal && Truthy(translation)) ==> r.1 == inline)
  {
    var (ui', inline) := InlineDisplay(ui, ts, text, isFinal, None);
    if isFinal && Truthy(translation) then
      (ui', inline + [Printed(BilingualLine(ui, columns, ts, translation.value), "\n")])
    else (ui', inline)
  }

  // ---------------------------------------------------------------------
  // Messages and settings

  /** The language table of `display_welcome`. */
  const LanguageNames: Dict<string, string> := [
    ("it", "Italian"),
    ("en", "English"),
    ("fr", "French"),
    ("es", "Spanish"),
    ("de", "German"),
    ("zh", "Chinese"),
    ("ja", "Japanese"),
    ("ru", "Russian")
  ]

  /** `language_names.get(code, code)`: the display name, or the code
      itself for a code the table does not list. */
  function LanguageName(code: string): (name: string)
    ensures code !in Keys(LanguageNames) ==> name == code
    ensures code in Keys(LanguageNames) ==> Get(Config.SupportedLanguages, code) == Some(name)
  {
    Get(LanguageNames, code).GetOr(code)
  }

  /** The welcome screen's table is the configured one. */
  lemma LanguageNamesAreConfigured()
    ensures LanguageNames == Config.SupportedLanguages
  {
  }

  /** `display_message`: messages starting with a newline are not shown. */
  function DisplayMessage(message: string): (p: Option<Printed>)
    ensures p.None? <==> StartsWith(message, "\n")
    ensures p.Some? ==> p.value == Printed("ℹ️  " + message, "\n")
  {
    if StartsWith(message, "\n") then None else Some(Printed("ℹ️  " + message, "\n"))
  }

  /** `request_confirmation`: true exactly for a reply of `y` or `Y`. */
  function RequestConfirmation(response: string): (ok: bool)
    ensures ok <==> response == "y" || response == "Y"
  {
    LowerIsY(response);
    Lower(response) == "y"
  }

  lemma LowerIsY(s: string)
    ensures Lower(s) == "y" <==> s == "y" || s == "Y"
  {
    if |s| == 1 {
      assert Lower(s) == [LowerChar(s[0])];
    }
  }

  /** `set_show_timestamps` and `set_display_mode`. */
  function SetShowTimestamps(ui: Ui, show: bool): (ui': Ui)
    ensures ui'.showTimestamps == show && ui' == ui.(showTimestamps := show)
  {
    ui.(showTimestamps := show)
  }

  function SetDisplayMode(ui: Ui, sideBySide: bool): (ui': Ui)
    ensures Route(ui') == (if !sideBySide then Inline else if ui.bilingual then Bilingual else SideBySide)
    ensures ui' == ui.(sideBySide := sideBySide)
  {
    ui.(sideBySide := sideBySide)
  }

  /** `display_welcome` stores the translation flag as bilingual mode. */
  function Welcome(ui: Ui, translate: bool): (ui': Ui)
    ensures ui' == ui.(bilingual := translate)
    ensures ui.sideBySide ==> (Route(ui') == Bilingual <==> translate)
  {
    ui.(bilingual := translate)
  }
}
