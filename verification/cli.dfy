/** The argument handling of the two entry points, windows-v2.6-beta/main.py
    and main.py: language resolution against the configured table, the
    model choice, the session name, the `--mic` value, the console key
    mapping and the session listing. */
module Cli {
  import opened Wrappers
  import opened Text
  import opened OrderedDict
  import StringOrder
  import Config
  import Microphone
  import TranscriberV26
  import TerminalUiV3
  import SessionRecord

  /** The position of the first table entry whose lower-cased name or
      lower-cased code equals `language`. */
  function FindLanguage(table: Dict<string, string>, language: string): (r: Option<nat>)
    ensures r.Some? ==> r.value < |table| && NamesLanguage(table[r.value], language)
    ensures r.Some? ==> forall j | 0 <= j < r.value :: !NamesLanguage(table[j], language)
    ensures r.None? <==> forall j | 0 <= j < |table| :: !NamesLanguage(table[j], language)
    decreases |table|
  {
    if table == [] then None
    else if NamesLanguage(table[0], language) then Some(0)
    else
      match FindLanguage(table[1..], language)
      case None => None
      case Some(k) => Some(k + 1)
  }

  predicate NamesLanguage(entry: (string, string), language: string) {
    language == Lower(entry.1) || language == Lower(entry.0)
  }

  /** The language code chosen for `--language`, and the error shown when
      it is not recognised. */
  datatype Resolution = Resolution(code: string, error: Option<string>)

  /** Language setup of both `main.py` files: the argument is lower-cased
      and looked up by name or code in table order; an unknown language
      falls back to `it` with an error message. */
  function ResolveLanguage(arg: string): (r: Resolution)
    ensures r.code in Keys(Config.SupportedLanguages)
    ensures var i := FindLanguage(Config.SupportedLanguages, Lower(arg));
      && (i.Some? ==> r == Resolution(Config.SupportedLanguages[i.value].0, None))
      && (i.None? ==> r == Resolution(Config.DefaultLanguage,
             Some("Language '" + Lower(arg) + "' not recognized. Using default (Italian).")))
  {
    var language := Lower(arg);
    match FindLanguage(Config.SupportedLanguages, language)
    case Some(i) =>
      assert Keys(Config.SupportedLanguages)[i] == Config.SupportedLanguages[i].0;
      Resolution(Config.SupportedLanguages[i].0, None)
    case None =>
      Config.DefaultLanguageSupported();
      Resolution(Config.DefaultLanguage, Some("Language '" + language + "' not recognized. Using default (Italian)."))
  }

  /** What tells the table's entries apart once lower-cased: every code is
      two lower-case letters, every name is longer, and no two codes, nor
      two names' initials, coincide. */
  lemma TableDistinct()
    ensures forall i | 0 <= i < |Config.SupportedLanguages| ::
      && Lower(Config.SupportedLanguages[i].0) == Config.SupportedLanguages[i].0
      && |Config.SupportedLanguages[i].0| == 2 < |Config.SupportedLanguages[i].1|
    ensures forall i, j | 0 <= j < i < |Config.SupportedLanguages| ::
      && Config.SupportedLanguages[j].0 != Config.SupportedLanguages[i].0
      && LowerChar(Config.SupportedLanguages[j].1[0]) != LowerChar(Config.SupportedLanguages[i].1[0])
  {
  }

  /** A query that names the `i`-th entry and none before it finds it. */
  lemma FindLanguageIs(table: Dict<string, string>, language: string, i: nat)
    requires i < |table| && NamesLanguage(table[i], language)
    requires forall j | 0 <= j < i :: !NamesLanguage(table[j], language)
    ensures FindLanguage(table, language) == Some(i)
  {
  }

  /** Every listed code resolves to itself. */
  lemma ResolveCode(i: nat)
    requires i < |Config.SupportedLanguages|
    ensures ResolveLanguage(Config.SupportedLanguages[i].0) == Resolution(Config.SupportedLanguages[i].0, None)
  {
    var table := Config.SupportedLanguages;
    TableDistinct();
    var code := table[i].0;
    forall j | 0 <= j < i
      ensures !NamesLanguage(table[j], code)
    {
      assert |Lower(table[j].1)| == |table[j].1|;
    }
    FindLanguageIs(table, Lower(code), i);
  }

  /** Every listed name, as written in the table, resolves to its code. */
  lemma ResolveName(i: nat)
    requires i < |Config.SupportedLanguages|
    ensures ResolveLanguage(Config.SupportedLanguages[i].1) == Resolution(Config.SupportedLanguages[i].0, None)
  {
    var table := Config.SupportedLanguages;
    TableDistinct();
    var name := Lower(table[i].1);
    assert |name| == |table[i].1| && name[0] == LowerChar(table[i].1[0]);
    forall j | 0 <= j < i
      ensures !NamesLanguage(table[j], name)
    {
      assert Lower(table[j].1)[0] == LowerChar(table[j].1[0]);
    }
    FindLanguageIs(table, name, i);
  }

  /** The default argument `italian` resolves to `it`. */
  lemma ResolveDefault()
    ensures ResolveLanguage("italian") == Resolution("it", None)
  {
    assert Lower("italian") == "italian";
    assert Lower("Italian") == "italian";
    FindLanguageIs(Config.SupportedLanguages, "italian", 0);
  }

  /** The argument is matched regardless of case. */
  lemma ResolveUpperCase()
    ensures ResolveLanguage("ENGLISH") == Resolution("en", None)
  {
    assert Lower("ENGLISH") == "english";
    assert Lower("English") == "english";
    assert Lower("Italian") == "italian";
    FindLanguageIs(Config.SupportedLanguages, "english", 1);
  }

  /** An unknown code falls back to Italian with an error naming it. */
  lemma ResolveUnknown()
    ensures ResolveLanguage("xx") ==
      Resolution("it", Some("Language '" + "xx" + "' not recognized. Using default (Italian)."))
  {
    assert Lower("xx") == "xx";
    forall j | 0 <= j < |Config.SupportedLanguages|
      ensures !NamesLanguage(Config.SupportedLanguages[j], "xx")
    {
      var (code, name) := Config.SupportedLanguages[j];
      assert |Lower(name)| == |name| > 2;
      assert Lower(code)[0] == LowerChar(code[0]) != 'x';
    }
    assert FindLanguage(Config.SupportedLanguages, Lower("xx")) == None;
  }

  /** `LANGUAGE_MODELS.get(code, DEFAULT_MODEL)`. */
  function ModelFor(code: string): (model: string)
    ensures code in Keys(Config.LanguageModels) ==> Get(Config.LanguageModels, code) == Some(model)
    ensures code !in Keys(Config.LanguageModels) ==> model == Config.DefaultModel
  {
    Get(Config.LanguageModels, code).GetOr(Config.DefaultModel)
  }

  /** Whatever the language argument, the model is one of the two the
      table uses: nova-3 exactly for English and German. */
  lemma ModelOfResolved(arg: string)
    ensures var code := ResolveLanguage(arg).code;
      ModelFor(code) == (if code == "en" || code == "de" then "nova-3" else "nova-2")
  {
    var code := ResolveLanguage(arg).code;
    Config.TablesAgree();
    Config.ModelAssignment();
    var i :| 0 <= i < |Config.LanguageModels| && Keys(Config.LanguageModels)[i] == code;
    assert Get(Config.LanguageModels, code) == Some(Config.LanguageModels[i].1);
  }

  /** The session name: a non-empty `--session` verbatim, otherwise the
      formatted start time. */
  function SessionName(arg: Option<string>, now: string): (name: string)
    ensures Truthy(arg) ==> name == arg.value
    ensures !Truthy(arg) ==> name == now
  {
    if Truthy(arg) then arg.value else now
  }

  /** The record the root version writes is titled with the `--session`
      argument when one was given, and with the start time otherwise. */
  lemma SessionTitled(arg: Option<string>, now: string, date: string, language: string,
                      entries: seq<SessionRecord.Entry>)
    requires entries != []
    ensures var title := "# Transcription Session: " + (if Truthy(arg) then arg.value else now) + "\n\n";
      StartsWith(SessionRecord.SaveRoot(SessionName(arg, now), date, language, entries).value, title)
  {
    var title := "# Transcription Session: " + SessionName(arg, now) + "\n\n";
    var h := SessionRecord.HeaderRoot(SessionName(arg, now), date, language);
    var body := SessionRecord.RenderRootEntries(entries);
    assert (h + body)[..|title|] == h[..|title|];
  }

  /** A decimal index typed as `--mic` comes back as that index. */
  lemma MicIndexRoundTrip(n: nat)
    ensures Microphone.MicSelector(Some(Digits(n))) == Some(Microphone.ByIndex(n))
  {
    DigitsRoundTrip(n);
  }

  /** What a console key does in the v2.6 keyboard listener. */
  datatype KeyCommand = PauseKey | ResumeKey | OtherKey

  /** Byte 0x13 (Ctrl+S) pauses, byte 0x12 (Ctrl+R) resumes, and every
      other byte does nothing. */
  function KeyOf(key: bv8): (c: KeyCommand)
    ensures c == PauseKey <==> key == 0x13
    ensures c == ResumeKey <==> key == 0x12
  {
    if key == 0x13 then PauseKey else if key == 0x12 then ResumeKey else OtherKey
  }

  /** The transcriber after a key press, with whether a snapshot save was
      requested. */
  function OnKey(t: TranscriberV26.Transcriber, key: bv8): (r: (TranscriberV26.Transcriber, bool))
    ensures key == 0x13 ==> r == TranscriberV26.Pause(t)
    ensures key == 0x12 ==> r == (TranscriberV26.Resume(t), false)
    ensures key != 0x13 && key != 0x12 ==> r == (t, false)
    ensures r.1 ==> key == 0x13 && t.running && !t.paused
  {
    match KeyOf(key)
    case PauseKey => TranscriberV26.Pause(t)
    case ResumeKey => (TranscriberV26.Resume(t), false)
    case OtherKey => (t, false)
  }

  /** Pressing Ctrl+S then Ctrl+R on a running, unpaused session leaves it
      as it was, after one snapshot request. */
  lemma PauseThenResumeKeys(t: TranscriberV26.Transcriber)
    requires t.running && !t.paused
    ensures OnKey(t, 0x13).1
    ensures OnKey(OnKey(t, 0x13).0, 0x12) == (t, false)
  {
    TranscriberV26.PauseResumeInverse(t);
  }

  /** The display the v2.6 entry point sets up: timestamps unless
      `--no-timestamp`, side-by-side unless `--inline`, bilingual when
      translating. */
  function SetupUi(noTimestamp: bool, inline: bool, translate: bool): (ui: TerminalUiV3.Ui)
    ensures ui.showTimestamps == !noTimestamp
    ensures TerminalUiV3.Route(ui) == TerminalUiV3.Inline <==> inline
    ensures TerminalUiV3.Route(ui) == TerminalUiV3.Bilingual <==> !inline && translate
    ensures ui.lastInterim == []
  {
    var ui := TerminalUiV3.SetShowTimestamps(TerminalUiV3.Initial, !noTimestamp);
    TerminalUiV3.Welcome(TerminalUiV3.SetDisplayMode(ui, !inline), translate)
  }

  /** The `.md` names of a directory listing, in listing order. */
  function MarkdownNames(names: seq<string>): (r: seq<string>)
    ensures forall x | x in r :: x in names && EndsWith(x, ".md")
    ensures forall x | x in names && EndsWith(x, ".md") :: x in r
    ensures |r| <= |names|
    decreases |names|
  {
    if names == [] then []
    else
      var rest := MarkdownNames(names[1..]);
      assert forall x | x in names[1..] :: x in names;
      if EndsWith(names[0], ".md") then [names[0]] + rest else rest
  }

  /** `--list-sessions`: "No sessions found." when the directory is
      missing or holds no `.md` file; otherwise a heading and the `.md`
      names in sorted order. `None` stands for a missing directory. */
  function ListSessions(directory: Option<seq<string>>): (lines: seq<string>)
    ensures directory.None? ==> lines == ["No sessions found."]
    ensures directory.Some? && MarkdownNames(directory.value) == [] ==> lines == ["No sessions found."]
    ensures directory.Some? && MarkdownNames(directory.value) != [] ==>
      var sessions := StringOrder.SortStrings(MarkdownNames(directory.value));
      && StringOrder.Sorted(sessions)
      && multiset(sessions) == multiset(MarkdownNames(directory.value))
      && lines == ["Available sessions:"] + SessionLines(sessions)
  {
    match directory
    case None => ["No sessions found."]
    case Some(names) =>
      var sessions := MarkdownNames(names);
      if sessions == [] then ["No sessions found."]
      else ["Available sessions:"] + SessionLines(StringOrder.SortStrings(sessions))
  }

  function SessionLines(sessions: seq<string>): (lines: seq<string>)
    ensures |lines| == |sessions|
    ensures forall i | 0 <= i < |sessions| :: lines[i] == "  - " + sessions[i]
  {
    seq(|sessions|, i requires 0 <= i < |sessions| => "  - " + sessions[i])
  }

  /** Every listed session is a `.md` file of the directory. */
  lemma ListedIsMarkdown(names: seq<string>, i: nat)
    requires MarkdownNames(names) != []
    requires 1 <= i < |ListSessions(Some(names))|
    ensures var s := ListSessions(Some(names))[i][4..]; s in names && EndsWith(s, ".md")
  {
    ListedLine(names, i);
    SortedMember(MarkdownNames(names), i - 1);
  }

  lemma ListedLine(names: seq<string>, i: nat)
    requires MarkdownNames(names) != []
    requires 1 <= i < |ListSessions(Some(names))|
    ensures i - 1 < |StringOrder.SortStrings(MarkdownNames(names))|
    ensures ListSessions(Some(names))[i][4..] == StringOrder.SortStrings(MarkdownNames(names))[i - 1]
  {
    HeadedLine(StringOrder.SortStrings(MarkdownNames(names)), i);
  }

  /** Line `i` under the heading names session `i - 1`. */
  lemma HeadedLine(sorted: seq<string>, i: nat)
    requires 1 <= i < 1 + |sorted|
    ensures (["Available sessions:"] + SessionLines(sorted))[i][4..] == sorted[i - 1]
  {
    var sl := SessionLines(sorted);
    assert (["Available sessions:"] + sl)[i] == sl[i - 1] == "  - " + sorted[i - 1];
    assert ("  - " + sorted[i - 1])[4..] == sorted[i - 1];
  }

  lemma SortedMember(s: seq<string>, k: nat)
    requires k < |StringOrder.SortStrings(s)|
    ensures StringOrder.SortStrings(s)[k] in s
  {
    assert StringOrder.SortStrings(s)[k] in multiset(StringOrder.SortStrings(s));
  }

  /** Every `.md` file of the directory is listed. */
  lemma MarkdownIsListed(names: seq<string>, x: string)
    requires x in names && EndsWith(x, ".md")
    ensures "  - " + x in ListSessions(Some(names))
  {
    var sorted := StringOrder.SortStrings(MarkdownNames(names));
    var lines := ListSessions(Some(names));
    assert x in multiset(MarkdownNames(names));
    assert lines == ["Available sessions:"] + SessionLines(sorted);
    var k :| 0 <= k < |sorted| && sorted[k] == x;
    assert lines[k + 1] == "  - " + x;
  }
}
