/** Supported languages (Language.java): each has parallel tables of inclusive
    character ranges that make up its alphabet, and an external morphological
    analyser that gives the normal forms of a lower-case word. */
module Languages {
  import opened Common

  /** What the external analyser answers for a word: its normal forms, or the
      refusal the analyser raises for a character it cannot process. */
  datatype Analysis = Forms(forms: seq<string>) | WrongCharacter

  /** A language: the range tables `mins`/`maxs` and the analyser. */
  datatype Language = Language(mins: seq<char>, maxs: seq<char>, morphology: string -> Analysis)
  {
    /** Every lower bound has its upper bound. */
    predicate Valid() {
      |mins| == |maxs|
    }
  }

  predicate AllValid(langs: seq<Language>) {
    forall k :: 0 <= k < |langs| ==> langs[k].Valid()
  }

  /** The constructor refuses range tables of different lengths. */
  function NewLanguage(mins: seq<char>, maxs: seq<char>, morphology: string -> Analysis): (r: Result<Language, string>)
    ensures r.Ok? <==> |mins| == |maxs|
    ensures r.Ok? ==> r.value.Valid() && r.value.mins == mins && r.value.maxs == maxs
    ensures r.Ok? ==> forall w :: r.value.morphology(w) == morphology(w)
  {
    if |mins| != |maxs| then
      Err("Mins list must corresponds to maxs!")
    else
      Ok(Language(mins, maxs, morphology))
  }

  /** Russian: 'а'..'я' and 'А'..'Я' (U+0430..U+044F, U+0410..U+042F). */
  function RU(morphology: string -> Analysis): Language {
    Language(['\U{0430}', '\U{0410}'], ['\U{044F}', '\U{042F}'], morphology)
  }

  /** English: 'a'..'z' and 'A'..'Z'. */
  function EN(morphology: string -> Analysis): Language {
    Language(['a', 'A'], ['z', 'Z'], morphology)
  }

  /** Whether some range at index `i` or later contains `c`. */
  function AcceptedFrom(lang: Language, c: char, i: nat): (r: bool)
    requires lang.Valid() && i <= |lang.mins|
    ensures r <==> exists k :: i <= k < |lang.mins| && lang.mins[k] <= c <= lang.maxs[k]
    decreases |lang.mins| - i
  {
    if i == |lang.mins| then false
    else (lang.mins[i] <= c && c <= lang.maxs[i]) || AcceptedFrom(lang, c, i + 1)
  }

  /** A character belongs to a language iff one of its ranges contains it. */
  function IsCorrectLetter(lang: Language, c: char): (r: bool)
    requires lang.Valid()
    ensures r <==> exists k :: 0 <= k < |lang.mins| && lang.mins[k] <= c <= lang.maxs[k]
  {
    AcceptedFrom(lang, c, 0)
  }

  /** The analyser's normal forms; its refusal becomes the empty list. */
  function GetNormalForms(lang: Language, word: string): (r: seq<string>)
    ensures lang.morphology(word).WrongCharacter? ==> r == []
    ensures lang.morphology(word).Forms? ==> r == lang.morphology(word).forms
  {
    match lang.morphology(word)
    case Forms(forms) => forms
    case WrongCharacter => []
  }

  /** A character is a letter of a list of languages iff one of them accepts it. */
  function IsLetter(langs: seq<Language>, c: char): (r: bool)
    requires AllValid(langs)
    ensures r <==> exists k :: 0 <= k < |langs| && IsCorrectLetter(langs[k], c)
    decreases |langs|
  {
    if |langs| == 0 then false
    else IsLetter(langs[..|langs| - 1], c) || IsCorrectLetter(langs[|langs| - 1], c)
  }

  predicate IsEnglishLetter(c: char) {
    ('a' <= c <= 'z') || ('A' <= c <= 'Z')
  }

  predicate IsRussianLetter(c: char) {
    ('\U{0430}' <= c <= '\U{044F}') || ('\U{0410}' <= c <= '\U{042F}')
  }

  lemma EnglishAlphabet(morphology: string -> Analysis, c: char)
    ensures EN(morphology).Valid()
    ensures IsCorrectLetter(EN(morphology), c) <==> IsEnglishLetter(c)
  {
    var en := EN(morphology);
    if 'a' <= c <= 'z' {
      assert en.mins[0] <= c <= en.maxs[0];
    } else if 'A' <= c <= 'Z' {
      assert en.mins[1] <= c <= en.maxs[1];
    }
  }

  lemma RussianAlphabet(morphology: string -> Analysis, c: char)
    ensures RU(morphology).Valid()
    ensures IsCorrectLetter(RU(morphology), c) <==> IsRussianLetter(c)
  {
    var ru := RU(morphology);
    if '\U{0430}' <= c <= '\U{044F}' {
      assert ru.mins[0] <= c <= ru.maxs[0];
    } else if '\U{0410}' <= c <= '\U{042F}' {
      assert ru.mins[1] <= c <= ru.maxs[1];
    }
  }

  /** 'ё' (U+0451) and 'Ё' (U+0401) lie outside the Russian ranges. */
  lemma YoIsNotRussian(morphology: string -> Analysis)
    ensures !IsCorrectLetter(RU(morphology), '\U{0451}')
    ensures !IsCorrectLetter(RU(morphology), '\U{0401}')
  {
    RussianAlphabet(morphology, '\U{0451}');
    RussianAlphabet(morphology, '\U{0401}');
  }

  /** No character is a letter of both Russian and English. */
  lemma AlphabetsDisjoint(ru: string -> Analysis, en: string -> Analysis, c: char)
    ensures !(IsCorrectLetter(RU(ru), c) && IsCorrectLetter(EN(en), c))
  {
    RussianAlphabet(ru, c);
    EnglishAlphabet(en, c);
  }

  /** Lower-casing restricted to the two alphabets: 'A'..'Z' and 'А'..'Я' map to
      their lower-case partners, every other character is kept. */
  function ToLower(c: char): (r: char)
    ensures 'A' <= c <= 'Z' ==> 'a' <= r <= 'z' && r as int == c as int + 32
    ensures '\U{0410}' <= c <= '\U{042F}' ==> '\U{0430}' <= r <= '\U{044F}' && r as int == c as int + 32
    ensures !('A' <= c <= 'Z') && !('\U{0410}' <= c <= '\U{042F}') ==> r == c
  {
    if 'A' <= c <= 'Z' || '\U{0410}' <= c <= '\U{042F}' then (c as int + 32) as char else c
  }

  function Lower(s: string): (r: string)
    ensures |r| == |s| && forall i :: 0 <= i < |s| ==> r[i] == ToLower(s[i])
  {
    seq(|s|, i requires 0 <= i < |s| => ToLower(s[i]))
  }
}
