/** The persisted form of the index (Index.writeObject / Index.readObject), over an
    abstract stream of items instead of Java serialization bytes: a table of the
    distinct documents, the number of normal forms, then per form its text, its
    number of documents and, per document, the document's table index and its
    position list. */
module IndexCodec {
  import opened Common
  import opened InvertedIndex

  /** An object written with `writeObject`. */
  datatype Obj = Text(s: string) | Strings(ss: seq<string>) | Ints(ns: seq<int>)

  /** One stream item: a `writeInt` or a `writeObject`. */
  datatype Item = IntItem(n: int) | ObjItem(o: Obj)

  datatype CodecError =
    | Truncated              // the stream ends early
    | WrongType              // an item of another kind than the one read
    | NegativeCapacity       // a negative count used as a map's initial capacity
    | NoSuchFile(k: int)     // a document index outside the table

  /** `s` lists every element of `keys` exactly once. */
  ghost predicate Enumerates(s: seq<string>, keys: set<string>) {
    NoDuplicates(s) && (forall x :: x in s <==> x in keys) && |s| == |keys|
  }

  /** All documents occurring in some posting. */
  function AllDocs(m: Postings): set<string> {
    set f, d | f in m && d in m[f] :: d
  }

  /** `indexOf` gives every document of `docs` its position in `table`. */
  predicate IndexesInto(table: seq<string>, indexOf: map<string, int>, docs: set<string>) {
    forall d :: d in docs ==> d in indexOf && 0 <= indexOf[d] < |table| && table[indexOf[d]] == d
  }

  /** `indexOf` gives every document of every posting of `m` its position in `table`. */
  ghost predicate IndexesPostings(table: seq<string>, indexOf: map<string, int>, m: Postings) {
    forall f, d :: f in m && d in m[f] ==> d in indexOf && 0 <= indexOf[d] < |table| && table[indexOf[d]] == d
  }

  // ---------------------------------------------------------------- reading

  /** Reads `count` (document index, list) records into `occurs`; returns the
      updated map and the items after the last record. */
  function ReadPostings(items: seq<Item>, count: nat, files: seq<string>, occurs: map<string, seq<int>>)
    : Result<(map<string, seq<int>>, seq<Item>), CodecError>
    decreases count
  {
    if count == 0 then Ok((occurs, items))
    else if |items| == 0 then Err(Truncated)
    else if !items[0].IntItem? then Err(WrongType)
    else if !(0 <= items[0].n < |files|) then Err(NoSuchFile(items[0].n))
    else if |items| == 1 then Err(Truncated)
    else if !(items[1].ObjItem? && items[1].o.Ints?) then Err(WrongType)
    else ReadPostings(items[2..], count - 1, files, occurs[files[items[0].n] := items[1].o.ns])
  }

  /** Reads one normal form with its postings into `acc`. A form read a second
      time adds to its earlier documents, and only a new form's negative count
      fails (it is the capacity of the map created for it). */
  function ReadForm(items: seq<Item>, files: seq<string>, acc: Postings): Result<(Postings, seq<Item>), CodecError> {
    if |items| == 0 then Err(Truncated)
    else if !(items[0].ObjItem? && items[0].o.Text?) then Err(WrongType)
    else if |items| == 1 then Err(Truncated)
    else if !items[1].IntItem? then Err(WrongType)
    else
      var form, valuesCount := items[0].o.s, items[1].n;
      if valuesCount < 0 && form !in acc then Err(NegativeCapacity)
      else
        match ReadPostings(items[2..], if valuesCount < 0 then 0 else valuesCount, files, Bucket(acc, form))
        case Err(e) => Err(e)
        case Ok((occurs, rest)) => Ok((acc[form := occurs], rest))
  }

  /** Reads `count` normal forms with their postings into `acc`. */
  function ReadForms(items: seq<Item>, count: nat, files: seq<string>, acc: Postings): Result<Postings, CodecError>
    decreases count
  {
    if count == 0 then Ok(acc)
    else
      match ReadForm(items, files, acc)
      case Err(e) => Err(e)
      case Ok((acc', rest)) => ReadForms(rest, count - 1, files, acc')
  }

  /** The map that `readObject` rebuilds from a stream, or the reason it fails.
      Items after the last form are not looked at. */
  function Decode(items: seq<Item>): Result<Postings, CodecError> {
    if |items| == 0 then Err(Truncated)
    else if !(items[0].ObjItem? && items[0].o.Strings?) then Err(WrongType)
    else if |items| == 1 then Err(Truncated)
    else if !items[1].IntItem? then Err(WrongType)
    else if items[1].n < 0 then Err(NegativeCapacity)
    else ReadForms(items[2..], items[1].n, items[0].o.ss, map[])
  }

  /** `readObject`: reads the document table, the form count, then every form
      and its (index, list) records with counters, from a read position. */
  method ReadObject(items: seq<Item>) returns (r: Result<Postings, CodecError>)
    ensures r == Decode(items)
  {
    if |items| == 0 { return Err(Truncated); }
    if !(items[0].ObjItem? && items[0].o.Strings?) { return Err(WrongType); }
    var files := items[0].o.ss;
    if |items| == 1 { return Err(Truncated); }
    if !items[1].IntItem? { return Err(WrongType); }
    var normsCount := items[1].n;
    if normsCount < 0 { return Err(NegativeCapacity); }
    var results: Postings := map[];
    var pos := 2;
    var i := 1;
    while i <= normsCount
      invariant 1 <= i <= normsCount + 1 && pos <= |items|
      invariant ReadForms(items[pos..], normsCount - i + 1, files, results) == Decode(items)
      decreases normsCount - i
    {
      if pos >= |items| { return Err(Truncated); }
      if !(items[pos].ObjItem? && items[pos].o.Text?) { return Err(WrongType); }
      var normForm := items[pos].o.s;
      if pos + 1 >= |items| { return Err(Truncated); }
      if !items[pos + 1].IntItem? { return Err(WrongType); }
      var valuesCount := items[pos + 1].n;
      var occurs: map<string, seq<int>>;
      if normForm in results {
        occurs := results[normForm];
      } else {
        if valuesCount < 0 { return Err(NegativeCapacity); }
        occurs := map[];
      }
      assert items[pos..][2..] == items[pos + 2..];
      ghost var start := ReadPostings(items[pos + 2..], if valuesCount < 0 then 0 else valuesCount, files, occurs);
      pos := pos + 2;
      var j := 0;
      while j < valuesCount
        invariant 0 <= j && (valuesCount >= 0 ==> j <= valuesCount) && pos <= |items|
        invariant ReadPostings(items[pos..], if valuesCount < 0 then 0 else valuesCount - j, files, occurs) == start
      {
        if pos >= |items| { return Err(Truncated); }
        if !items[pos].IntItem? { return Err(WrongType); }
        var k := items[pos].n;
        if !(0 <= k < |files|) { return Err(NoSuchFile(k)); }
        if pos + 1 >= |items| { return Err(Truncated); }
        if !(items[pos + 1].ObjItem? && items[pos + 1].o.Ints?) { return Err(WrongType); }
        occurs := occurs[files[k] := items[pos + 1].o.ns];
        assert items[pos..][2..] == items[pos + 2..];
        pos := pos + 2;
        j := j + 1;
      }
      results := results[normForm := occurs];
      i := i + 1;
    }
    return Ok(results);
  }

  // ---------------------------------------------------------------- writing

  /** The record of one document: its table index and its position list. */
  function Record(d: string, occurs: map<string, seq<int>>, indexOf: map<string, int>): seq<Item> {
    [IntItem(if d in indexOf then indexOf[d] else -1), ObjItem(Ints(if d in occurs then occurs[d] else []))]
  }

  /** The records of one form's postings, documents in the order `docs`. */
  function EncodePostings(docs: seq<string>, occurs: map<string, seq<int>>, indexOf: map<string, int>): (r: seq<Item>)
    ensures |r| == 2 * |docs|
  {
    if docs == [] then []
    else Record(docs[0], occurs, indexOf) + EncodePostings(docs[1..], occurs, indexOf)
  }

  /** One normal form as written: its text, its number of documents, and the
      records of its documents in the order `docs`. */
  function FormItems(f: string, docs: seq<string>, m: Postings, indexOf: map<string, int>): seq<Item> {
    [ObjItem(Text(f)), IntItem(|Bucket(m, f)|)] + EncodePostings(docs, Bucket(m, f), indexOf)
  }

  /** The forms of `layout`, each paired with the order in which its documents are visited. */
  function EncodeForms(layout: seq<(string, seq<string>)>, m: Postings, indexOf: map<string, int>): seq<Item> {
    if layout == [] then []
    else FormItems(layout[0].0, layout[0].1, m, indexOf) + EncodeForms(layout[1..], m, indexOf)
  }

  function Encode(table: seq<string>, layout: seq<(string, seq<string>)>, m: Postings, indexOf: map<string, int>): seq<Item> {
    [ObjItem(Strings(table)), IntItem(|m|)] + EncodeForms(layout, m, indexOf)
  }

  /** `layout` visits every normal form of `m` exactly once and, within each,
      every document of that form exactly once. */
  ghost predicate IsLayoutOf(layout: seq<(string, seq<string>)>, m: Postings) {
    && (forall i, j :: 0 <= i < j < |layout| ==> layout[i].0 != layout[j].0)
    && (forall f :: f in m <==> exists i :: 0 <= i < |layout| && layout[i].0 == f)
    && (forall i :: 0 <= i < |layout| ==> layout[i].0 in m && Enumerates(layout[i].1, m[layout[i].0].Keys))
    && |layout| == |m|
  }

  // ---------------------------------------------------------------- round trip

  function Restrict(occurs: map<string, seq<int>>, docs: seq<string>): map<string, seq<int>> {
    map d | d in docs && d in occurs :: occurs[d]
  }

  lemma RestrictCons(occurs: map<string, seq<int>>, docs: seq<string>, acc: map<string, seq<int>>)
    requires docs != [] && docs[0] in occurs
    ensures acc[docs[0] := occurs[docs[0]]] + Restrict(occurs, docs[1..]) == acc + Restrict(occurs, docs)
  {
  }

  lemma RestrictAll(occurs: map<string, seq<int>>, docs: seq<string>)
    requires forall d :: d in docs <==> d in occurs
    ensures map[] + Restrict(occurs, docs) == occurs
  {
  }

  /** Reading the records of `docs` back adds each document with its list. */
  lemma {:induction false} ReadPostingsOfEncoding(docs: seq<string>, occurs: map<string, seq<int>>, table: seq<string>,
                                                  indexOf: map<string, int>, acc: map<string, seq<int>>, rest: seq<Item>)
    requires forall d :: d in docs ==> d in occurs && d in indexOf && 0 <= indexOf[d] < |table| && table[indexOf[d]] == d
    ensures ReadPostings(EncodePostings(docs, occurs, indexOf) + rest, |docs|, table, acc)
         == Ok((acc + Restrict(occurs, docs), rest))
    decreases |docs|
  {
    if docs == [] {
      assert acc + Restrict(occurs, docs) == acc;
      assert EncodePostings(docs, occurs, indexOf) + rest == rest;
    } else {
      var d := docs[0];
      var tail := EncodePostings(docs[1..], occurs, indexOf) + rest;
      var items := EncodePostings(docs, occurs, indexOf) + rest;
      assert items == [IntItem(indexOf[d]), ObjItem(Ints(occurs[d]))] + tail;
      assert items[2..] == tail;
      ReadPostingsOfEncoding(docs[1..], occurs, table, indexOf, acc[d := occurs[d]], rest);
      RestrictCons(occurs, docs, acc);
    }
  }

  /** Reading the records of a form's whole document map gives that map back. */
  lemma ReadPostingsOfForm(docs: seq<string>, m: Postings, f: string, table: seq<string>,
                           indexOf: map<string, int>, rest: seq<Item>)
    requires f in m && Enumerates(docs, m[f].Keys)
    requires IndexesPostings(table, indexOf, m)
    ensures ReadPostings(EncodePostings(docs, m[f], indexOf) + rest, |m[f]|, table, map[]) == Ok((m[f], rest))
  {
    var occurs := m[f];
    assert |occurs| == |docs|;
    forall d | d in docs ensures d in occurs && d in indexOf && 0 <= indexOf[d] < |table| && table[indexOf[d]] == d {
      assert d in m[f];
    }
    ReadPostingsOfEncoding(docs, occurs, table, indexOf, map[], rest);
    RestrictAll(occurs, docs);
  }

  /** The first form of an encoded layout is read back with its whole document
      map, and reading goes on with the rest of the layout. */
  lemma ReadFirstForm(layout: seq<(string, seq<string>)>, m: Postings, table: seq<string>,
                      indexOf: map<string, int>, acc: Postings)
    requires layout != [] && layout[0].0 in m && Enumerates(layout[0].1, m[layout[0].0].Keys)
    requires layout[0].0 !in acc
    requires IndexesPostings(table, indexOf, m)
    ensures ReadForm(EncodeForms(layout, m, indexOf), table, acc)
         == Ok((acc[layout[0].0 := m[layout[0].0]], EncodeForms(layout[1..], m, indexOf)))
  {
    EncodeFormsHead(layout, m, indexOf);
    ReadPostingsOfForm(layout[0].1, m, layout[0].0, table, indexOf, EncodeForms(layout[1..], m, indexOf));
  }

  /** The encoding of a layout opens with its first form's text and count,
      followed by that form's records and then the rest of the layout. */
  lemma EncodeFormsHead(layout: seq<(string, seq<string>)>, m: Postings, indexOf: map<string, int>)
    requires layout != [] && layout[0].0 in m
    ensures |EncodeForms(layout, m, indexOf)| >= 2
    ensures EncodeForms(layout, m, indexOf)[0] == ObjItem(Text(layout[0].0))
    ensures EncodeForms(layout, m, indexOf)[1] == IntItem(|m[layout[0].0]|)
    ensures EncodeForms(layout, m, indexOf)[2..]
         == EncodePostings(layout[0].1, m[layout[0].0], indexOf) + EncodeForms(layout[1..], m, indexOf)
  {
    var f := layout[0].0;
    var ps := EncodePostings(layout[0].1, m[f], indexOf);
    var rest := EncodeForms(layout[1..], m, indexOf);
    assert EncodeForms(layout, m, indexOf) == [ObjItem(Text(f)), IntItem(|m[f]|)] + (ps + rest);
  }

  /** `acc` with the document maps of the forms of `layout` added one by one. */
  function Fill(acc: Postings, layout: seq<(string, seq<string>)>, m: Postings): Postings
    decreases |layout|
  {
    if layout == [] then acc else Fill(acc[layout[0].0 := Bucket(m, layout[0].0)], layout[1..], m)
  }

  /** The forms of `layout` are in `m`, each with its documents enumerated, and
      none is read twice: the first is not in `acc`, the rest fit once it is added. */
  ghost predicate FitsFrom(layout: seq<(string, seq<string>)>, m: Postings, acc: Postings)
    decreases |layout|
  {
    layout == [] ||
    (&& layout[0].0 in m && layout[0].0 !in acc
     && Enumerates(layout[0].1, m[layout[0].0].Keys)
     && FitsFrom(layout[1..], m, acc[layout[0].0 := m[layout[0].0]]))
  }

  /** Reading the encoding of a layout adds the document map of each of its forms. */
  lemma {:induction false} ReadFormsOfEncoding(layout: seq<(string, seq<string>)>, m: Postings, table: seq<string>,
                                               indexOf: map<string, int>, acc: Postings)
    requires FitsFrom(layout, m, acc)
    requires IndexesPostings(table, indexOf, m)
    ensures ReadForms(EncodeForms(layout, m, indexOf), |layout|, table, acc) == Ok(Fill(acc, layout, m))
    decreases |layout|
  {
    if layout != [] {
      var f := layout[0].0;
      ReadFirstForm(layout, m, table, indexOf, acc);
      ReadFormsOfEncoding(layout[1..], m, table, indexOf, acc[f := m[f]]);
      ReadFormsStep(EncodeForms(layout, m, indexOf), |layout|, table, acc, acc[f := m[f]], EncodeForms(layout[1..], m, indexOf));
      FillStep(layout, m, acc);
    }
  }

  lemma ReadFormsStep(items: seq<Item>, count: nat, files: seq<string>, acc: Postings, acc': Postings, rest: seq<Item>)
    requires count > 0 && ReadForm(items, files, acc) == Ok((acc', rest))
    ensures ReadForms(items, count, files, acc) == ReadForms(rest, count - 1, files, acc')
  {
  }

  lemma FillStep(layout: seq<(string, seq<string>)>, m: Postings, acc: Postings)
    requires layout != [] && layout[0].0 in m
    ensures Fill(acc, layout, m) == Fill(acc[layout[0].0 := m[layout[0].0]], layout[1..], m)
  {
  }

  /** A layout whose forms are distinct, in `m` and new to `acc` fits from `acc`. */
  lemma {:induction false} LayoutFits(layout: seq<(string, seq<string>)>, m: Postings, acc: Postings)
    requires forall i :: 0 <= i < |layout| ==> layout[i].0 in m && Enumerates(layout[i].1, m[layout[i].0].Keys)
    requires forall i, j :: 0 <= i < j < |layout| ==> layout[i].0 != layout[j].0
    requires forall i :: 0 <= i < |layout| ==> layout[i].0 !in acc
    ensures FitsFrom(layout, m, acc)
    decreases |layout|
  {
    if layout != [] {
      LayoutTail(layout, m, acc);
      LayoutFits(layout[1..], m, acc[layout[0].0 := m[layout[0].0]]);
    }
  }

  /** What a layout promises about its forms holds for its tail, once the first form is read. */
  lemma LayoutTail(layout: seq<(string, seq<string>)>, m: Postings, acc: Postings)
    requires layout != [] && layout[0].0 in m
    requires forall i :: 0 <= i < |layout| ==> layout[i].0 in m && Enumerates(layout[i].1, m[layout[i].0].Keys)
    requires forall i, j :: 0 <= i < j < |layout| ==> layout[i].0 != layout[j].0
    requires forall i :: 0 <= i < |layout| ==> layout[i].0 !in acc
    ensures forall i :: 0 <= i < |layout[1..]| ==> layout[1..][i].0 in m && Enumerates(layout[1..][i].1, m[layout[1..][i].0].Keys)
    ensures forall i, j :: 0 <= i < j < |layout[1..]| ==> layout[1..][i].0 != layout[1..][j].0
    ensures forall i :: 0 <= i < |layout[1..]| ==> layout[1..][i].0 !in acc[layout[0].0 := m[layout[0].0]]
  {
    forall i | 0 <= i < |layout[1..]| ensures layout[1..][i].0 !in acc[layout[0].0 := m[layout[0].0]] {
      assert layout[1..][i] == layout[i + 1];
    }
  }

  function LayoutForms(layout: seq<(string, seq<string>)>): set<string> {
    set i | 0 <= i < |layout| :: layout[i].0
  }

  lemma LayoutFormsCons(layout: seq<(string, seq<string>)>)
    requires layout != []
    ensures LayoutForms(layout) == {layout[0].0} + LayoutForms(layout[1..])
  {
    forall g | g in LayoutForms(layout) ensures g in {layout[0].0} + LayoutForms(layout[1..]) {
      var i :| 0 <= i < |layout| && layout[i].0 == g;
      if i > 0 { assert layout[1..][i - 1] == layout[i]; }
    }
    forall g | g in LayoutForms(layout[1..]) ensures g in LayoutForms(layout) {
      var i :| 0 <= i < |layout[1..]| && layout[1..][i].0 == g;
      assert layout[i + 1] == layout[1..][i];
    }
  }

  /** Filling adds exactly the forms of the layout, each with its document map from `m`. */
  lemma {:induction false} FillFacts(acc: Postings, layout: seq<(string, seq<string>)>, m: Postings)
    requires forall i :: 0 <= i < |layout| ==> layout[i].0 in m
    ensures forall f :: f in Fill(acc, layout, m) <==> f in acc || f in LayoutForms(layout)
    ensures forall f :: f in LayoutForms(layout) ==> Fill(acc, layout, m)[f] == m[f]
    ensures forall f :: f in acc && f !in LayoutForms(layout) ==> Fill(acc, layout, m)[f] == acc[f]
    decreases |layout|
  {
    if layout != [] {
      forall i | 0 <= i < |layout[1..]| ensures layout[1..][i].0 in m {
        assert layout[1..][i] == layout[i + 1];
      }
      FillFacts(acc[layout[0].0 := m[layout[0].0]], layout[1..], m);
      LayoutFormsCons(layout);
    }
  }

  lemma LayoutCoversForms(layout: seq<(string, seq<string>)>, m: Postings)
    requires IsLayoutOf(layout, m)
    ensures forall i :: 0 <= i < |layout| ==> layout[i].0 in m
    ensures LayoutForms(layout) == m.Keys
  {
    forall f | f in m ensures f in LayoutForms(layout) {
      var i :| 0 <= i < |layout| && layout[i].0 == f;
    }
  }

  /** Filling an empty map along a layout of `m` rebuilds `m`. */
  lemma FillLayout(layout: seq<(string, seq<string>)>, m: Postings)
    requires IsLayoutOf(layout, m)
    ensures Fill(map[], layout, m) == m
  {
    LayoutCoversForms(layout, m);
    FillFacts(map[], layout, m);
  }

  /** A document table that indexes every document of `m` indexes every posting. */
  lemma IndexesAllDocs(table: seq<string>, indexOf: map<string, int>, m: Postings)
    requires IndexesInto(table, indexOf, AllDocs(m))
    ensures IndexesPostings(table, indexOf, m)
  {
    forall f, d | f in m && d in m[f] ensures d in AllDocs(m) { }
  }

  /** Decoding what `writeObject` writes gives back the same map: whatever order
      the forms and documents are visited in, and whatever document table is used,
      as long as it indexes every document. */
  lemma DecodeEncode(table: seq<string>, layout: seq<(string, seq<string>)>, m: Postings, indexOf: map<string, int>)
    requires IsLayoutOf(layout, m)
    requires IndexesInto(table, indexOf, AllDocs(m))
    ensures Decode(Encode(table, layout, m, indexOf)) == Ok(m)
  {
    assert Encode(table, layout, m, indexOf)[2..] == EncodeForms(layout, m, indexOf);
    IndexesAllDocs(table, indexOf, m);
    LayoutFits(layout, m, map[]);
    ReadFormsOfEncoding(layout, m, table, indexOf, map[]);
    FillLayout(layout, m);
  }

  /** The `k`-th document's record, its table index then its list, sits at items `2 * k` and `2 * k + 1`. */
  lemma {:induction false} EncodePostingsAt(docs: seq<string>, occurs: map<string, seq<int>>, indexOf: map<string, int>, k: nat)
    requires k < |docs|
    ensures EncodePostings(docs, occurs, indexOf)[2 * k] == IntItem(if docs[k] in indexOf then indexOf[docs[k]] else -1)
    ensures EncodePostings(docs, occurs, indexOf)[2 * k + 1] == ObjItem(Ints(if docs[k] in occurs then occurs[docs[k]] else []))
    decreases k
  {
    if k > 0 {
      EncodePostingsAt(docs[1..], occurs, indexOf, k - 1);
      assert docs[1..][k - 1] == docs[k];
    }
  }

  lemma {:induction false} EncodePostingsSnoc(docs: seq<string>, d: string, occurs: map<string, seq<int>>, indexOf: map<string, int>)
    ensures EncodePostings(docs + [d], occurs, indexOf) == EncodePostings(docs, occurs, indexOf) + Record(d, occurs, indexOf)
    decreases |docs|
  {
    if docs != [] {
      assert (docs + [d])[1..] == docs[1..] + [d];
      EncodePostingsSnoc(docs[1..], d, occurs, indexOf);
    }
  }

  lemma {:induction false} EncodeFormsSnoc(layout: seq<(string, seq<string>)>, f: string, docs: seq<string>, m: Postings, indexOf: map<string, int>)
    ensures EncodeForms(layout + [(f, docs)], m, indexOf) == EncodeForms(layout, m, indexOf) + FormItems(f, docs, m, indexOf)
    decreases |layout|
  {
    var l := layout + [(f, docs)];
    if layout != [] {
      assert l[0] == layout[0] && l[1..] == layout[1..] + [(f, docs)];
      EncodeFormsSnoc(layout[1..], f, docs, m, indexOf);
    } else {
      assert l[1..] == [];
    }
  }

  // ---------------------------------------------------------------- writing, imperatively

  /** The documents of a walk over the forms, in the order they are met. */
  function Flatten(walk: seq<(string, seq<string>)>): seq<string>
    decreases |walk|
  {
    if walk == [] then [] else Flatten(walk[..|walk| - 1]) + walk[|walk| - 1].1
  }

  /** The documents of `docs` in the order of their first occurrences. */
  function FirstSeen(docs: seq<string>): (r: seq<string>)
    decreases |docs|
  {
    if docs == [] then []
    else
      var seen := FirstSeen(docs[..|docs| - 1]);
      if docs[|docs| - 1] in seen then seen else seen + [docs[|docs| - 1]]
  }

  /** Keeping first occurrences lists every document of `docs` exactly once. */
  lemma {:induction false} FirstSeenFacts(docs: seq<string>)
    ensures NoDuplicates(FirstSeen(docs))
    ensures forall d :: d in FirstSeen(docs) <==> d in docs
    decreases |docs|
  {
    if docs != [] {
      var init := docs[..|docs| - 1];
      FirstSeenFacts(init);
      assert docs == init + [docs[|docs| - 1]];
    }
  }

  /** A walk without repetitions is its own list of first occurrences. */
  lemma {:induction false} FirstSeenOfDistinct(docs: seq<string>)
    requires NoDuplicates(docs)
    ensures FirstSeen(docs) == docs
    decreases |docs|
  {
    if docs != [] {
      var init := docs[..|docs| - 1];
      FirstSeenOfDistinct(init);
      FirstSeenFacts(init);
      assert docs == init + [docs[|docs| - 1]];
    }
  }

  lemma FirstSeenSnoc(docs: seq<string>, d: string)
    ensures FirstSeen(docs + [d]) == if d in FirstSeen(docs) then FirstSeen(docs) else FirstSeen(docs) + [d]
  {
    assert (docs + [d])[..|docs|] == docs;
  }

  lemma FlattenSnoc(walk: seq<(string, seq<string>)>, f: string, docs: seq<string>)
    ensures Flatten(walk + [(f, docs)]) == Flatten(walk) + docs
  {
    assert (walk + [(f, docs)])[..|walk|] == walk;
  }

  /** A document is met in a walk iff one of the walked forms lists it. */
  lemma {:induction false} FlattenMembers(walk: seq<(string, seq<string>)>)
    ensures forall d :: d in Flatten(walk) <==> exists i :: 0 <= i < |walk| && d in walk[i].1
    decreases |walk|
  {
    if walk != [] {
      var init := walk[..|walk| - 1];
      FlattenMembers(init);
      forall d | d in Flatten(walk) ensures exists i :: 0 <= i < |walk| && d in walk[i].1 {
        if d in Flatten(init) {
          var i :| 0 <= i < |init| && d in init[i].1;
          assert walk[i] == init[i];
        }
      }
      forall d, i | 0 <= i < |walk| && d in walk[i].1 ensures d in Flatten(walk) {
        if i < |init| {
          assert init[i] == walk[i];
        }
      }
    }
  }

  /** A walk over every form and every document of `m` meets exactly the documents of `m`. */
  lemma FlattenDocs(walk: seq<(string, seq<string>)>, m: Postings)
    requires IsLayoutOf(walk, m)
    ensures forall d :: d in Flatten(walk) <==> d in AllDocs(m)
  {
    FlattenMembers(walk);
    forall d | d in AllDocs(m) ensures d in Flatten(walk) {
      var f :| f in m && d in m[f];
      var i :| 0 <= i < |walk| && walk[i].0 == f;
      assert d in walk[i].1;
    }
  }

  /** The first pass of `writeObject`: the forms and, within each, its documents
      are walked (`walk` records the order), and every document gets the next
      free table index the first time it is met. */
  method BuildFileTable(m: Postings) returns (table: seq<string>, indexOf: map<string, int>, ghost walk: seq<(string, seq<string>)>)
    ensures IsLayoutOf(walk, m)
    ensures table == FirstSeen(Flatten(walk))
    ensures NoDuplicates(table)
    ensures forall d :: d in table <==> d in AllDocs(m)
    ensures IndexesInto(table, indexOf, AllDocs(m))
  {
    table, indexOf, walk := [], map[], [];
    var forms := m.Keys;
    while forms != {}
      invariant PartialLayout(walk, m, forms)
      invariant table == FirstSeen(Flatten(walk))
      invariant FileTable(table, indexOf)
      decreases |forms|
    {
      var f :| f in forms;
      ghost var visited;
      table, indexOf, visited := NumberDocuments(m[f], table, indexOf, Flatten(walk));
      FlattenSnoc(walk, f, visited);
      PartialLayoutStep(walk, m, forms, f, visited);
      walk := walk + [(f, visited)];
      forms := forms - {f};
    }
    PartialLayoutDone(walk, m);
    FirstSeenFacts(Flatten(walk));
    FlattenDocs(walk, m);
  }

  /** The inner loop of the first pass: the documents of one form are walked in
      the order `visited`, and each one not yet numbered is appended to the table. */
  method NumberDocuments(occurs: map<string, seq<int>>, table: seq<string>, indexOf: map<string, int>, ghost seen: seq<string>)
    returns (table': seq<string>, indexOf': map<string, int>, ghost visited: seq<string>)
    requires FileTable(table, indexOf) && table == FirstSeen(seen)
    ensures Enumerates(visited, occurs.Keys)
    ensures FileTable(table', indexOf') && table' == FirstSeen(seen + visited)
  {
    table', indexOf', visited := table, indexOf, [];
    var docs := occurs.Keys;
    assert seen + visited == seen;
    while docs != {}
      invariant docs <= occurs.Keys
      invariant NoDuplicates(visited)
      invariant forall d :: d in visited <==> d in occurs && d !in docs
      invariant |visited| + |docs| == |occurs.Keys|
      invariant FileTable(table', indexOf') && table' == FirstSeen(seen + visited)
      decreases |docs|
    {
      var d :| d in docs;
      NumberOne(table', indexOf', seen + visited, d);
      assert seen + visited + [d] == seen + (visited + [d]);
      if d !in indexOf' {
        indexOf' := indexOf'[d := |table'|];
        table' := table' + [d];
      }
      visited := visited + [d];
      docs := docs - {d};
    }
  }

  /** Meeting one more document keeps the table its walk's first occurrences:
      a numbered document leaves it alone, a new one is appended with the next index. */
  lemma NumberOne(table: seq<string>, indexOf: map<string, int>, seen: seq<string>, d: string)
    requires FileTable(table, indexOf) && table == FirstSeen(seen)
    ensures d in indexOf ==> table == FirstSeen(seen + [d])
    ensures d !in indexOf ==> FileTable(table + [d], indexOf[d := |table|]) && table + [d] == FirstSeen(seen + [d])
  {
    FirstSeenSnoc(seen, d);
  }

  /** `indexOf` is the inverse of the duplicate-free `table`. */
  ghost predicate FileTable(table: seq<string>, indexOf: map<string, int>) {
    && NoDuplicates(table)
    && (forall d :: d in indexOf <==> d in table)
    && (forall d :: d in indexOf ==> 0 <= indexOf[d] < |table| && table[indexOf[d]] == d)
  }

  /** The inner loop of `writeObject`: one record per document of `occurs`, in
      the order `visited` in which the map is walked. */
  method WritePostings(occurs: map<string, seq<int>>, indexOf: map<string, int>)
    returns (records: seq<Item>, ghost visited: seq<string>)
    ensures Enumerates(visited, occurs.Keys)
    ensures records == EncodePostings(visited, occurs, indexOf)
  {
    records, visited := [], [];
    var docs := occurs.Keys;
    while docs != {}
      invariant docs <= occurs.Keys
      invariant NoDuplicates(visited)
      invariant forall d :: d in visited <==> d in occurs && d !in docs
      invariant |visited| + |docs| == |occurs.Keys|
      invariant records == EncodePostings(visited, occurs, indexOf)
      decreases |docs|
    {
      var d :| d in docs;
      records := records + [IntItem(if d in indexOf then indexOf[d] else -1), ObjItem(Ints(occurs[d]))];
      EncodePostingsSnoc(visited, d, occurs, indexOf);
      visited := visited + [d];
      docs := docs - {d};
    }
  }

  /** `writeObject`: the document table, the number of forms, then each form with
      its records, forms and documents in whatever order the maps are walked.
      What it writes reads back as `m`, and the table lists each document once. */
  method WriteObject(m: Postings) returns (out: seq<Item>)
    ensures Decode(out) == Ok(m)
    ensures out[0].ObjItem? && out[0].o.Strings? && NoDuplicates(out[0].o.ss)
    ensures forall d :: d in out[0].o.ss <==> d in AllDocs(m)
  {
    var table, indexOf, _ := BuildFileTable(m);
    out := [ObjItem(Strings(table)), IntItem(|m|)];
    ghost var layout: seq<(string, seq<string>)> := [];
    var forms := m.Keys;
    while forms != {}
      invariant PartialLayout(layout, m, forms)
      invariant out == Encode(table, layout, m, indexOf)
      decreases |forms|
    {
      var f :| f in forms;
      var occurrences := m[f];
      var records, visited := WritePostings(occurrences, indexOf);
      out := out + ([ObjItem(Text(f)), IntItem(|occurrences|)] + records);
      EncodeSnoc(table, layout, f, visited, m, indexOf);
      PartialLayoutStep(layout, m, forms, f, visited);
      layout := layout + [(f, visited)];
      forms := forms - {f};
    }
    PartialLayoutDone(layout, m);
    DecodeEncode(table, layout, m, indexOf);
  }

  /** The forms written so far: each once, each with its documents enumerated,
      exactly the forms of `m` not in `forms`. */
  ghost predicate PartialLayout(layout: seq<(string, seq<string>)>, m: Postings, forms: set<string>) {
    && forms <= m.Keys
    && (forall i, j :: 0 <= i < j < |layout| ==> layout[i].0 != layout[j].0)
    && (forall i :: 0 <= i < |layout| ==> layout[i].0 in m && layout[i].0 !in forms)
    && (forall i :: 0 <= i < |layout| ==> Enumerates(layout[i].1, m[layout[i].0].Keys))
    && (forall f :: f in m && f !in forms ==> exists i :: 0 <= i < |layout| && layout[i].0 == f)
    && |layout| + |forms| == |m|
  }

  lemma PartialLayoutStep(layout: seq<(string, seq<string>)>, m: Postings, forms: set<string>, f: string, docs: seq<string>)
    requires PartialLayout(layout, m, forms) && f in forms && Enumerates(docs, m[f].Keys)
    ensures PartialLayout(layout + [(f, docs)], m, forms - {f})
  {
    var l := layout + [(f, docs)];
    forall g | g in m && g !in forms - {f} ensures exists i :: 0 <= i < |l| && l[i].0 == g {
      if g == f {
        assert l[|layout|].0 == g;
      } else {
        var i :| 0 <= i < |layout| && layout[i].0 == g;
        assert l[i].0 == g;
      }
    }
  }

  lemma PartialLayoutDone(layout: seq<(string, seq<string>)>, m: Postings)
    requires PartialLayout(layout, m, {})
    ensures IsLayoutOf(layout, m)
  {
  }

  lemma EncodeSnoc(table: seq<string>, layout: seq<(string, seq<string>)>, f: string, docs: seq<string>, m: Postings, indexOf: map<string, int>)
    requires f in m
    ensures Encode(table, layout + [(f, docs)], m, indexOf)
         == Encode(table, layout, m, indexOf) + ([ObjItem(Text(f)), IntItem(|m[f]|)] + EncodePostings(docs, m[f], indexOf))
  {
    EncodeFormsSnoc(layout, f, docs, m, indexOf);
  }
}
