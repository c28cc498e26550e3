/** The translation normaliser (server/lib/translator.js): a fail-soft facade
    over Google Translate. The client is modelled as a `Service` value whose
    fields are the answers the service would give; every failure becomes
    `Fail`. Nothing here has state. */
module Translator {
  import opened Records

  /** The Google Translate client. `translate(text, from, to)`. */
  datatype Service = Service(
    detect: string -> Outcome<string>,
    translate: (string, string, string) -> Outcome<string>,
    languages: Outcome<seq<Language>>)

  /** The sentinel preference meaning "never translate for me". */
  const NoTranslation: string := "default"

  /** What detection falls back to. */
  const English: string := "en"

  // ---------------------------------------------------------------------
  // String.prototype.trim

  /** The characters JavaScript's `trim` removes: WhiteSpace and
      LineTerminator of the ECMAScript grammar. */
  predicate IsJsWhitespace(c: char)
  {
    || c == '\t' || c == '\n' || c == '\U{000B}' || c == '\U{000C}' || c == '\r'
    || c == ' ' || c == '\U{00A0}' || c == '\U{1680}'
    || ('\U{2000}' <= c <= '\U{200A}')
    || c == '\U{2028}' || c == '\U{2029}' || c == '\U{202F}' || c == '\U{205F}'
    || c == '\U{3000}' || c == '\U{FEFF}'
  }

  /** Every character of `s` is whitespace (true of the empty string). */
  predicate Blank(s: string)
  {
    forall i :: 0 <= i < |s| ==> IsJsWhitespace(s[i])
  }

  /** Drops leading whitespace: the result is a suffix of `s` that does not
      start with whitespace. */
  function TrimStart(s: string): (r: string)
    ensures |r| <= |s| && r == s[|s| - |r|..]
    ensures r != [] ==> !IsJsWhitespace(r[0])
  {
    if s != [] && IsJsWhitespace(s[0]) then TrimStart(s[1..]) else s
  }

  /** Drops trailing whitespace: the result is a prefix of `s` that does not
      end with whitespace. */
  function TrimEnd(s: string): (r: string)
    ensures |r| <= |s| && r == s[..|r|]
    ensures r != [] ==> !IsJsWhitespace(r[|r| - 1])
  {
    if s != [] && IsJsWhitespace(s[|s| - 1]) then TrimEnd(s[..|s| - 1]) else s
  }

  function Trim(s: string): string
  {
    TrimEnd(TrimStart(s))
  }

  lemma {:induction false} TrimStartEmpty(s: string)
    ensures TrimStart(s) == [] <==> Blank(s)
  {
    if s != [] && IsJsWhitespace(s[0]) {
      TrimStartEmpty(s[1..]);
      assert Blank(s) <==> Blank(s[1..]) by {
        forall i | 0 <= i < |s[1..]| ensures s[1..][i] == s[i + 1] { }
      }
    }
  }

  lemma {:induction false} TrimEndEmpty(s: string)
    ensures TrimEnd(s) == [] <==> Blank(s)
  {
    if s != [] && IsJsWhitespace(s[|s| - 1]) {
      TrimEndEmpty(s[..|s| - 1]);
      assert Blank(s) <==> Blank(s[..|s| - 1]) by {
        forall i | 0 <= i < |s| - 1 ensures s[..|s| - 1][i] == s[i] { }
      }
    }
  }

  /** `text.trim() === ''` holds exactly of the all-whitespace strings. */
  lemma {:induction false} TrimEmptyIffBlank(s: string)
    ensures Trim(s) == "" <==> Blank(s)
  {
    var t := TrimStart(s);
    TrimStartEmpty(s);
    TrimEndEmpty(t);
    if t != [] {
      assert !Blank(t) by { assert !IsJsWhitespace(t[0]); }
    }
  }

  // ---------------------------------------------------------------------
  // detectLanguage, translateText

  /** `detectLanguage`: blank text is English without asking the service;
      otherwise the service's answer, or English when it fails. */
  function DetectLanguage(svc: Service, text: string): (lang: string)
    ensures Blank(text) ==> lang == English
    ensures !Blank(text) && svc.detect(text).Fail? ==> lang == English
    ensures !Blank(text) && svc.detect(text).Ok? ==> lang == svc.detect(text).value
  {
    TrimEmptyIffBlank(text);
    if text == "" || Trim(text) == "" then English
    else
      match svc.detect(text)
      case Ok(detected) => detected
      case Fail(_) => English
  }

  /** A missing (`null`) or empty source language is falsy in JavaScript. */
  predicate Falsy(source: Option<string>)
  {
    source.None? || source.value == ""
  }

  /** The source language `translateText` translates from. */
  function SourceLanguage(svc: Service, text: string, source: Option<string>): string
  {
    if Falsy(source) then DetectLanguage(svc, text) else source.value
  }

  /** `translateText(text, target, source)`: returns the input for blank
      text, for the `default` target and when source and target agree
      (without calling the translator); otherwise the translator's answer,
      or the input when the translator fails. It never fails itself. */
  function TranslateText(svc: Service, text: string, target: string, source: Option<string>): (r: string)
    ensures Blank(text) ==> r == text
    ensures target == NoTranslation ==> r == text
    ensures SourceLanguage(svc, text, source) == target ==> r == text
    ensures r == text || svc.translate(text, SourceLanguage(svc, text, source), target) == Ok(r)
    ensures svc.translate(text, SourceLanguage(svc, text, source), target).Fail? ==> r == text
    ensures !Blank(text) && target != NoTranslation && SourceLanguage(svc, text, source) != target
            && svc.translate(text, SourceLanguage(svc, text, source), target).Ok?
            ==> r == svc.translate(text, SourceLanguage(svc, text, source), target).value
  {
    TrimEmptyIffBlank(text);
    if text == "" || Trim(text) == "" then text
    else if target == NoTranslation then text
    else
      var from := SourceLanguage(svc, text, source);
      if from == target then text
      else
        match svc.translate(text, from, target)
        case Ok(translation) => translation
        case Fail(_) => text
  }

  // ---------------------------------------------------------------------
  // getSupportedLanguages, isLanguageSupported

  /** The catalogue served when the service cannot list its languages. */
  function FallbackLanguages(): (langs: seq<Language>)
    ensures |langs| == 13 && langs[0].code == NoTranslation
    ensures forall i, j :: 0 <= i < j < |langs| ==> langs[i].code != langs[j].code
  {
    [ Language("default", "Default (No Translation)"),
      Language("en", "English"),
      Language("hi", "Hindi"),
      Language("es", "Spanish"),
      Language("fr", "French"),
      Language("de", "German"),
      Language("it", "Italian"),
      Language("pt", "Portuguese"),
      Language("ru", "Russian"),
      Language("ja", "Japanese"),
      Language("ko", "Korean"),
      Language("zh", "Chinese"),
      Language("ar", "Arabic") ]
  }

  /** `getSupportedLanguages`: the service's list, or the fallback catalogue. */
  function SupportedLanguages(svc: Service): (langs: seq<Language>)
    ensures svc.languages.Ok? ==> langs == svc.languages.value
    ensures svc.languages.Fail? ==> |langs| == 13 && langs[0].code == NoTranslation
  {
    match svc.languages
    case Ok(listed) => listed
    case Fail(_) => FallbackLanguages()
  }

  /** `languages.some(lang => lang.code === code)`. */
  function SomeHasCode(langs: seq<Language>, code: string): (found: bool)
    ensures found <==> exists i :: 0 <= i < |langs| && langs[i].code == code
  {
    if langs == [] then false
    else if langs[0].code == code then true
    else
      var rest := SomeHasCode(langs[1..], code);
      assert forall i :: 1 <= i < |langs| ==> langs[i] == langs[1..][i - 1];
      rest
  }

  /** `isLanguageSupported(code)`: some supported language has that code. */
  function IsLanguageSupported(svc: Service, code: string): (supported: bool)
    ensures supported <==> exists i :: 0 <= i < |SupportedLanguages(svc)| && SupportedLanguages(svc)[i].code == code
    ensures svc.languages.Fail? ==> (supported <==> exists i :: 0 <= i < 13 && FallbackLanguages()[i].code == code)
  {
    SomeHasCode(SupportedLanguages(svc), code)
  }

  /** When the service is down, `default` is always a supported code. */
  lemma DefaultSupportedOnFailure(svc: Service)
    requires svc.languages.Fail?
    ensures IsLanguageSupported(svc, NoTranslation)
  {
    assert SupportedLanguages(svc)[0].code == NoTranslation;
  }
}
