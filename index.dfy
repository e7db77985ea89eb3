/** The inverted index (Index.java): normal form -> document -> positions,
    filled by `Put`, queried by `Get`, with a token -> normal forms cache. */
module InvertedIndex {
  import opened Languages

  /** Normal form -> document -> list of word positions. */
  type Postings = map<string, map<string, seq<int>>>

  function FormSet(forms: seq<string>): set<string> {
    set f | f in forms
  }

  /** The union of the normal forms every language gives for `token`. */
  function NormForms(langs: seq<Language>, token: string): (r: set<string>)
    ensures forall f :: f in r <==> exists k :: 0 <= k < |langs| && f in GetNormalForms(langs[k], token)
    decreases |langs|
  {
    if |langs| == 0 then {}
    else NormForms(langs[..|langs| - 1], token) + FormSet(GetNormalForms(langs[|langs| - 1], token))
  }

  /** Every normal form has at least one document, every stored list at least one position. */
  ghost predicate NoEmptyBuckets(m: Postings) {
    forall f :: f in m ==> |m[f]| > 0 && forall d :: d in m[f] ==> |m[f][d]| > 0
  }

  function Bucket(m: Postings, f: string): map<string, seq<int>> {
    if f in m then m[f] else map[]
  }

  function PositionsOf(m: Postings, f: string, d: string): seq<int> {
    if f in m && d in m[f] then m[f][d] else []
  }

  /** The store after appending `p` to the list of (`f`, `doc`) for each `f` in `forms`. */
  function Appended(m: Postings, forms: set<string>, doc: string, p: int): Postings {
    map f | f in m.Keys + forms :: if f in forms then Bucket(m, f)[doc := PositionsOf(m, f, doc) + [p]] else m[f]
  }

  /** For each normal form the list of `doc` is its old value (or empty) with `p` appended. */
  lemma AppendedExtends(m: Postings, forms: set<string>, doc: string, p: int, f: string)
    requires f in forms
    ensures f in Appended(m, forms, doc, p) && doc in Appended(m, forms, doc, p)[f]
    ensures Appended(m, forms, doc, p)[f][doc] == PositionsOf(m, f, doc) + [p]
  {
  }

  /** Every other (form, document) list is unchanged, and no list disappears. */
  lemma AppendedKeepsOthers(m: Postings, forms: set<string>, doc: string, p: int, f: string, d: string)
    requires !(f in forms && d == doc)
    ensures PositionsOf(Appended(m, forms, doc, p), f, d) == PositionsOf(m, f, d)
  {
  }

  /** Buckets are only created on the path that then appends. */
  lemma AppendedNoEmptyBuckets(m: Postings, forms: set<string>, doc: string, p: int)
    requires NoEmptyBuckets(m)
    ensures NoEmptyBuckets(Appended(m, forms, doc, p))
  {
  }

  /** One more normal form appended: the same as updating that form's bucket. */
  lemma AppendedStep(m: Postings, done: set<string>, f: string, doc: string, p: int)
    requires f !in done
    ensures var a := Appended(m, done, doc, p);
      Appended(m, done + {f}, doc, p) == a[f := Bucket(a, f)[doc := PositionsOf(a, f, doc) + [p]]]
  {
    var a := Appended(m, done, doc, p);
    var b := Appended(m, done + {f}, doc, p);
    var c := a[f := Bucket(a, f)[doc := PositionsOf(a, f, doc) + [p]]];
    assert Bucket(a, f) == Bucket(m, f);
    assert PositionsOf(a, f, doc) == PositionsOf(m, f, doc);
    assert b.Keys == c.Keys;
    forall g | g in b.Keys ensures b[g] == c[g] {
    }
  }

  /** `res` merges the postings of all normal forms in `forms`: its documents are
      exactly theirs, and each list is the one stored under one of those forms. */
  ghost predicate IsMerge(res: map<string, seq<int>>, m: Postings, forms: set<string>) {
    && (forall d :: d in res <==> exists f :: f in forms && f in m && d in m[f])
    && (forall d :: d in res ==> exists f :: f in forms && f in m && d in m[f] && res[d] == m[f][d])
  }

  /** `putAll` of one more form's documents keeps the merge property. */
  lemma MergeStep(res: map<string, seq<int>>, m: Postings, done: set<string>, f: string)
    requires IsMerge(res, m, done)
    ensures IsMerge(if f in m then res + m[f] else res, m, done + {f})
  {
    if f in m {
      var r := res + m[f];
      forall d | d in r
        ensures exists g :: g in done + {f} && g in m && d in m[g] && r[d] == m[g][d]
      {
        if d in m[f] {
          assert r[d] == m[f][d];
        } else {
          var g :| g in done && g in m && d in m[g] && res[d] == m[g][d];
        }
      }
    }
  }

  /** The loop of `put` over the token's normal forms, on the store as a value:
      each form's bucket and the document's list are created on first use. */
  method AppendToAll(m: Postings, normForms: set<string>, file: string, position: int) returns (results: Postings)
    ensures results == Appended(m, normForms, file, position)
  {
    results := m;
    var remaining := normForms;
    ghost var done: set<string> := {};
    while remaining != {}
      invariant remaining + done == normForms && remaining !! done
      invariant results == Appended(m, done, file, position)
      decreases remaining
    {
      var f :| f in remaining;
      var values := if f in results then results[f] else map[];
      var indexes := if file in values then values[file] else [];
      AppendedStep(m, done, f, file, position);
      results := results[f := values[file := indexes + [position]]];
      remaining := remaining - {f};
      done := done + {f};
    }
  }

  /** The loop of `get`: `putAll` of every normal form's documents into one map. */
  method MergeAll(m: Postings, normForms: set<string>) returns (res: map<string, seq<int>>)
    ensures IsMerge(res, m, normForms)
  {
    res := map[];
    var remaining := normForms;
    ghost var done: set<string> := {};
    while remaining != {}
      invariant remaining + done == normForms && remaining !! done
      invariant IsMerge(res, m, done)
      decreases remaining
    {
      var f :| f in remaining;
      MergeStep(res, m, done, f);
      if f in m {
        res := res + m[f];
      }
      remaining := remaining - {f};
      done := done + {f};
    }
  }

  class Index {
    const langs: seq<Language>
    var resultsByNormForm: Postings
    var normalFormsCache: map<string, set<string>>

    ghost predicate Valid()
      reads this
    {
      && AllValid(langs)
      && NoEmptyBuckets(resultsByNormForm)
      && forall t :: t in normalFormsCache ==> normalFormsCache[t] == NormForms(langs, t)
    }

    constructor (langs: seq<Language>)
      requires AllValid(langs)
      ensures Valid() && this.langs == langs
      ensures resultsByNormForm == map[] && normalFormsCache == map[]
    {
      this.langs := langs;
      resultsByNormForm := map[];
      normalFormsCache := map[];
    }

    /** Appends `position` to the list of (`f`, `file`) for every normal form `f`
        of the lower-cased token, creating buckets on first use. */
    method Put(token: string, file: string, position: int)
      requires Valid()
      modifies this
      ensures Valid()
      ensures resultsByNormForm == Appended(old(resultsByNormForm), NormForms(langs, Lower(token)), file, position)
      ensures normalFormsCache == old(normalFormsCache)[Lower(token) := NormForms(langs, Lower(token))]
    {
      var lower := Lower(token);
      var normForms := GetAllNormForms(lower);
      var results := AppendToAll(resultsByNormForm, normForms, file, position);
      AppendedNoEmptyBuckets(resultsByNormForm, normForms, file, position);
      resultsByNormForm := results;
    }

    /** The postings of `word`: nothing when one of its characters is outside
        every alphabet, otherwise the merge over all its normal forms. */
    method Get(word: string) returns (res: map<string, seq<int>>)
      requires Valid()
      modifies this`normalFormsCache
      ensures Valid()
      ensures (exists i :: 0 <= i < |word| && !IsLetter(langs, word[i])) ==>
                res == map[] && normalFormsCache == old(normalFormsCache)
      ensures (forall i :: 0 <= i < |word| ==> IsLetter(langs, word[i])) ==>
                IsMerge(res, resultsByNormForm, NormForms(langs, Lower(word))) &&
                normalFormsCache == old(normalFormsCache)[Lower(word) := NormForms(langs, Lower(word))]
    {
      var i := 0;
      while i < |word|
        invariant 0 <= i <= |word|
        invariant forall k :: 0 <= k < i ==> IsLetter(langs, word[k])
        invariant normalFormsCache == old(normalFormsCache)
      {
        var ok := IsCorrectLetter(word[i]);
        if !ok {
          return map[];
        }
        i := i + 1;
      }
      var lower := Lower(word);
      var normForms := GetAllNormForms(lower);
      res := MergeAll(resultsByNormForm, normForms);
    }

    /** Whether some configured language accepts `c`. */
    method IsCorrectLetter(c: char) returns (r: bool)
      requires AllValid(langs)
      ensures r <==> exists k :: 0 <= k < |langs| && Languages.IsCorrectLetter(langs[k], c)
    {
      for k := 0 to |langs|
        invariant forall j :: 0 <= j < k ==> !Languages.IsCorrectLetter(langs[j], c)
      {
        if Languages.IsCorrectLetter(langs[k], c) {
          return true;
        }
      }
      return false;
    }

    /** Normal forms of a lower-case token through the cache: a hit returns the
        cached set and leaves the cache alone, a miss computes the union over all
        languages and records exactly that set. */
    method GetAllNormForms(token: string) returns (normForms: set<string>)
      requires Valid()
      modifies this`normalFormsCache
      ensures Valid()
      ensures normForms == NormForms(langs, token)
      ensures token in old(normalFormsCache) ==> normForms == old(normalFormsCache)[token] && normalFormsCache == old(normalFormsCache)
      ensures token !in old(normalFormsCache) ==> normalFormsCache == old(normalFormsCache)[token := normForms]
    {
      if token in normalFormsCache {
        return normalFormsCache[token];
      }
      normForms := {};
      for k := 0 to |langs|
        invariant normForms == NormForms(langs[..k], token)
      {
        assert langs[..k + 1][..k] == langs[..k];
        normForms := normForms + FormSet(GetNormalForms(langs[k], token));
      }
      assert langs[..|langs|] == langs;
      normalFormsCache := normalFormsCache[token := normForms];
    }
  }
}
