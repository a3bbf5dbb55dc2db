/** The constants of windows-v3.0-beta/config.py as immutable tables. The two
    language dicts keep their declaration order, which the language lookup of
    both `main.py` files walks. */
module Config {
  import opened Wrappers
  import opened OrderedDict

  /** Model identifier per language code. */
  const LanguageModels: Dict<string, string> := [
    ("it", "nova-2"),
    ("en", "nova-3"),
    ("fr", "nova-2"),
    ("es", "nova-2"),
    ("de", "nova-3"),
    ("zh", "nova-2"),
    ("ja", "nova-2"),
    ("ru", "nova-2")
  ]

  /** Model for any language the table does not list. */
  const DefaultModel := "nova-2"

  const DefaultLanguage := "it"
  const Encoding := "linear16"
  const SampleRate := 16000
  const Channels := 1
  const TerminalWidth := 80

  /** Display name per language code. */
  const SupportedLanguages: Dict<string, string> := [
    ("it", "Italian"),
    ("en", "English"),
    ("fr", "French"),
    ("es", "Spanish"),
    ("de", "German"),
    ("zh", "Chinese"),
    ("ja", "Japanese"),
    ("ru", "Russian")
  ]

  /** Both tables list the same eight codes, in the same order, each once. */
  lemma TablesAgree()
    ensures Keys(LanguageModels) == Keys(SupportedLanguages)
    ensures |Keys(SupportedLanguages)| == 8
    ensures UniqueKeys(LanguageModels) && UniqueKeys(SupportedLanguages)
  {
  }

  /** The default language is one of the supported ones. */
  lemma DefaultLanguageSupported()
    ensures Get(SupportedLanguages, DefaultLanguage) == Some("Italian")
  {
  }

  /** English and German use nova-3; every other listed language uses
      nova-2, the default model. */
  lemma ModelAssignment()
    ensures forall i | 0 <= i < |LanguageModels| ::
      LanguageModels[i].1 == if LanguageModels[i].0 == "en" || LanguageModels[i].0 == "de" then "nova-3" else DefaultModel
    ensures DefaultModel == "nova-2"
  {
  }
}
