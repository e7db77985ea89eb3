/** The tokenizer of the indexer (Indexer.getWords) and the per-line insertion
    of each distinct word into the index. */
module Indexer {
  import opened Common
  import opened Languages
  import opened InvertedIndex

  /** The state of the left-to-right scan after `s`: the finished words and the
      word being built. A letter extends the current word; any other character
      ends it, if it is not empty. */
  function Scan(langs: seq<Language>, s: string): (seq<string>, string)
    requires AllValid(langs)
    decreases |s|
  {
    if s == [] then ([], [])
    else
      var (words, cur) := Scan(langs, s[..|s| - 1]);
      var c := s[|s| - 1];
      if IsLetter(langs, c) then (words, cur + [c])
      else if cur != [] then (words + [cur], [])
      else (words, [])
  }

  /** The words of a line: the scan's words, and the last word if the line ends in a letter. */
  function Words(langs: seq<Language>, s: string): seq<string>
    requires AllValid(langs)
  {
    var (words, cur) := Scan(langs, s);
    if cur != [] then words + [cur] else words
  }

  /** `getWords`: for each character asks every language whether it is a letter,
      and accumulates letters into the current word. */
  method GetWords(line: string, langs: seq<Language>) returns (words: seq<string>)
    requires AllValid(langs)
    ensures words == Words(langs, line)
  {
    words := [];
    var cur: string := [];
    for i := 0 to |line|
      invariant Scan(langs, line[..i]) == (words, cur)
    {
      var c := line[i];
      var isLetter := false;
      for k := 0 to |langs|
        invariant isLetter <==> exists j :: 0 <= j < k && IsCorrectLetter(langs[j], c)
      {
        if IsCorrectLetter(langs[k], c) {
          isLetter := true;
        }
      }
      assert line[..i + 1][..i] == line[..i];
      if isLetter {
        cur := cur + [c];
      } else if |cur| != 0 {
        words := words + [cur];
        cur := [];
      }
    }
    assert line[..|line|] == line;
    if |cur| != 0 {
      words := words + [cur];
    }
  }

  /** The words joined together. */
  function Flatten(words: seq<string>): string
    decreases |words|
  {
    if words == [] then [] else Flatten(words[..|words| - 1]) + words[|words| - 1]
  }

  /** The letters of `s`, in order. */
  function Letters(langs: seq<Language>, s: string): string
    requires AllValid(langs)
    decreases |s|
  {
    if s == [] then []
    else Letters(langs, s[..|s| - 1]) + (if IsLetter(langs, s[|s| - 1]) then [s[|s| - 1]] else [])
  }

  /** The number of maximal runs of letters in `s`: positions holding a letter
      that is first in `s` or follows a non-letter. */
  function Runs(langs: seq<Language>, s: string): nat
    requires AllValid(langs)
    decreases |s|
  {
    if s == [] then 0
    else
      var n := |s|;
      Runs(langs, s[..n - 1]) + (if IsLetter(langs, s[n - 1]) && (n == 1 || !IsLetter(langs, s[n - 2])) then 1 else 0)
  }

  /** Each finished word, and the current one, consists of letters only; finished
      words are non-empty; the current word is non-empty exactly when `s` ends in a letter. */
  lemma {:induction false} ScanShape(langs: seq<Language>, s: string)
    requires AllValid(langs)
    ensures forall i :: 0 <= i < |Scan(langs, s).0| ==> Scan(langs, s).0[i] != []
    ensures forall i, j :: 0 <= i < |Scan(langs, s).0| && 0 <= j < |Scan(langs, s).0[i]| ==> IsLetter(langs, Scan(langs, s).0[i][j])
    ensures forall j :: 0 <= j < |Scan(langs, s).1| ==> IsLetter(langs, Scan(langs, s).1[j])
    ensures Scan(langs, s).1 != [] <==> s != [] && IsLetter(langs, s[|s| - 1])
    decreases |s|
  {
    if s != [] {
      ScanShape(langs, s[..|s| - 1]);
    }
  }

  /** The finished words followed by the current one spell out the letters of `s`. */
  lemma {:induction false} ScanLetters(langs: seq<Language>, s: string)
    requires AllValid(langs)
    ensures Flatten(Scan(langs, s).0) + Scan(langs, s).1 == Letters(langs, s)
    decreases |s|
  {
    if s != [] {
      var p := s[..|s| - 1];
      ScanLetters(langs, p);
      var (words, cur) := Scan(langs, p);
      var c := s[|s| - 1];
      if !IsLetter(langs, c) && cur != [] {
        assert (words + [cur])[..|words|] == words;
      }
    }
  }

  /** Every run of letters is either finished or the current word. */
  lemma {:induction false} ScanRuns(langs: seq<Language>, s: string)
    requires AllValid(langs)
    ensures |Scan(langs, s).0| + (if Scan(langs, s).1 != [] then 1 else 0) == Runs(langs, s)
    decreases |s|
  {
    if s != [] {
      var p := s[..|s| - 1];
      ScanRuns(langs, p);
      ScanShape(langs, p);
      if |s| >= 2 {
        assert p[|p| - 1] == s[|s| - 2];
      }
    }
  }

  /** Every word of a line is non-empty and consists of letters. */
  lemma WordsAreLetterRuns(langs: seq<Language>, s: string)
    requires AllValid(langs)
    ensures forall i :: 0 <= i < |Words(langs, s)| ==> Words(langs, s)[i] != []
    ensures forall i, j :: 0 <= i < |Words(langs, s)| && 0 <= j < |Words(langs, s)[i]| ==> IsLetter(langs, Words(langs, s)[i][j])
  {
    ScanShape(langs, s);
  }

  /** Joining the words of a line gives its letters, in order. */
  lemma WordsSpellLetters(langs: seq<Language>, s: string)
    requires AllValid(langs)
    ensures Flatten(Words(langs, s)) == Letters(langs, s)
  {
    ScanLetters(langs, s);
    var (words, cur) := Scan(langs, s);
    if cur != [] {
      assert (words + [cur])[..|words|] == words;
    }
  }

  /** A line has exactly as many words as maximal runs of letters. */
  lemma WordsCountRuns(langs: seq<Language>, s: string)
    requires AllValid(langs)
    ensures |Words(langs, s)| == Runs(langs, s)
  {
    ScanRuns(langs, s);
  }

  /** A line without letters, the empty line among them, has no words. */
  lemma NoLettersNoWords(langs: seq<Language>, s: string)
    requires AllValid(langs)
    requires forall i :: 0 <= i < |s| ==> !IsLetter(langs, s[i])
    ensures Words(langs, s) == []
  {
    NoLettersNoRuns(langs, s);
    WordsCountRuns(langs, s);
  }

  lemma {:induction false} NoLettersNoRuns(langs: seq<Language>, s: string)
    requires AllValid(langs)
    requires forall i :: 0 <= i < |s| ==> !IsLetter(langs, s[i])
    ensures Runs(langs, s) == 0
    decreases |s|
  {
    if s != [] {
      NoLettersNoRuns(langs, s[..|s| - 1]);
    }
  }

  // ---------------------------------------------------------------- one line into the index

  /** The store after `put` of each token in turn, all at `position` of `file`. */
  function PutEach(m: Postings, langs: seq<Language>, tokens: seq<string>, file: string, position: int): Postings
    decreases |tokens|
  {
    if tokens == [] then m
    else
      var n := |tokens|;
      Appended(PutEach(m, langs, tokens[..n - 1], file, position), NormForms(langs, Lower(tokens[n - 1])), file, position)
  }

  /** The cache entries that `put` of each of `tokens` records: every lower-cased
      token with its normal forms. */
  function CachedForms(langs: seq<Language>, tokens: seq<string>): map<string, set<string>> {
    map t | t in (set w | w in tokens :: Lower(w)) :: NormForms(langs, t)
  }

  /** The line loop of the indexer: the words of the line go into a set, and each
      distinct word is put into the index once, in the order the set is walked. */
  method IndexLine(index: Index, line: string, file: string, position: int) returns (ghost puts: seq<string>)
    requires index.Valid()
    modifies index
    ensures index.Valid()
    ensures NoDuplicates(puts) && forall w :: w in puts <==> w in Words(index.langs, line)
    ensures index.resultsByNormForm == PutEach(old(index.resultsByNormForm), index.langs, puts, file, position)
    ensures index.normalFormsCache == old(index.normalFormsCache) + CachedForms(index.langs, puts)
  {
    var words := GetWords(line, index.langs);
    var tokens := set w | w in words;
    puts := [];
    while tokens != {}
      invariant index.Valid()
      invariant NoDuplicates(puts)
      invariant forall w :: w in puts <==> w in words && w !in tokens
      invariant tokens <= set w | w in words
      invariant index.resultsByNormForm == PutEach(old(index.resultsByNormForm), index.langs, puts, file, position)
      invariant index.normalFormsCache == old(index.normalFormsCache) + CachedForms(index.langs, puts)
      decreases |tokens|
    {
      var token :| token in tokens;
      index.Put(token, file, position);
      CachedFormsSnoc(index.langs, puts, token);
      UpdateAfterUnion(old(index.normalFormsCache), CachedForms(index.langs, puts), Lower(token), NormForms(index.langs, Lower(token)));
      assert (puts + [token])[..|puts|] == puts;
      puts := puts + [token];
      tokens := tokens - {token};
    }
  }

  /** One more put records one more cache entry. */
  lemma CachedFormsSnoc(langs: seq<Language>, tokens: seq<string>, token: string)
    ensures CachedForms(langs, tokens + [token]) == CachedForms(langs, tokens)[Lower(token) := NormForms(langs, Lower(token))]
  {
    var l := CachedForms(langs, tokens + [token]);
    var r := CachedForms(langs, tokens)[Lower(token) := NormForms(langs, Lower(token))];
    forall t | t in l ensures t in r {
      var w :| w in tokens + [token] && Lower(w) == t;
      if w != token {
        assert w in tokens;
      }
    }
    forall t | t in r ensures t in l {
      if t != Lower(token) {
        var w :| w in tokens && Lower(w) == t;
        assert w in tokens + [token];
      }
    }
  }

  /** A generic map fact, kept apart so that the proof of `IndexLine` stays cheap for the solver. */
  lemma UpdateAfterUnion<K, V>(c: map<K, V>, m: map<K, V>, k: K, v: V)
    ensures c + m[k := v] == (c + m)[k := v]
  {
  }
}
