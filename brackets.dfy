/** Validation of a query and its bracket-pair table (the first loop of
    Searcher.find(String)): every ')' closes the latest pending '(', both get
    each other's position in the table, and a character that is neither a
    letter nor part of " AND ", " OR " or a bracket is refused. */
module QueryBrackets {
  import opened Common

  datatype QueryError =
    | NoMatchingOpen                        // a ')' with no pending '('
    | IncorrectSymbol(c: char, position: int) // a refused character and its 1-based position
    | BadRange                              // a term range whose start lies after its end

  /** The scan state: the pair table (`pairBracket`) and the positions of the
      pending '(' (`opens`, bottom of the stack first). */
  datatype Brackets = Brackets(pairBracket: seq<int>, opens: seq<int>)

  /** The characters of the operators and the brackets. */
  predicate IsOperatorChar(c: char) {
    c in " AND " || c in " OR " || c in "()"
  }

  predicate Permitted(c: char, isLetter: char -> bool) {
    IsOperatorChar(c) || isLetter(c)
  }

  /** The scan after the first `n` characters of `q`, or the error it stops with. */
  function Scan(q: string, isLetter: char -> bool, n: nat): (r: Result<Brackets, QueryError>)
    requires n <= |q|
    ensures r.Ok? ==> |r.value.pairBracket| == |q|
    ensures r.Ok? ==> forall k :: 0 <= k < |r.value.opens| ==> 0 <= r.value.opens[k] < n
    decreases n
  {
    if n == 0 then Ok(Brackets(seq(|q|, _ => 0), []))
    else
      match Scan(q, isLetter, n - 1)
      case Err(e) => Err(e)
      case Ok(b) => Step(q, isLetter, b, n - 1)
  }

  /** One character of the scan at position `i`. */
  function Step(q: string, isLetter: char -> bool, b: Brackets, i: nat): (r: Result<Brackets, QueryError>)
    requires i < |q| && |b.pairBracket| == |q|
    requires forall k :: 0 <= k < |b.opens| ==> 0 <= b.opens[k] < i
    ensures r.Ok? ==> |r.value.pairBracket| == |q|
    ensures r.Ok? ==> forall k :: 0 <= k < |r.value.opens| ==> 0 <= r.value.opens[k] < i + 1
  {
    var c := q[i];
    if c == '(' then Ok(Brackets(b.pairBracket, b.opens + [i]))
    else if c == ')' then
      if |b.opens| == 0 then Err(NoMatchingOpen)
      else
        var o := b.opens[|b.opens| - 1];
        Ok(Brackets(b.pairBracket[o := i][i := o], b.opens[..|b.opens| - 1]))
    else if !IsOperatorChar(c) && !isLetter(c) then Err(IncorrectSymbol(c, i + 1))
    else Ok(b)
  }

  /** The scan of the whole query. */
  function Validate(q: string, isLetter: char -> bool): Result<Brackets, QueryError> {
    Scan(q, isLetter, |q|)
  }

  // ---------------------------------------------------------------- acceptance

  /** Opening minus closing brackets in `s`. */
  function Depth(s: string): int
    decreases |s|
  {
    if s == [] then 0
    else Depth(s[..|s| - 1]) + (if s[|s| - 1] == '(' then 1 else if s[|s| - 1] == ')' then -1 else 0)
  }

  /** No prefix of the first `n` characters closes more brackets than it opens. */
  predicate NeverNegative(q: string, n: nat)
    requires n <= |q|
  {
    forall m :: 0 <= m <= n ==> Depth(q[..m]) >= 0
  }

  /** Each of the first `n` characters is a letter, an operator character or a bracket. */
  predicate AllPermitted(q: string, isLetter: char -> bool, n: nat)
    requires n <= |q|
  {
    forall i :: 0 <= i < n ==> Permitted(q[i], isLetter)
  }

  /** The scan of a prefix succeeds exactly when no prefix closes more brackets
      than it opens and every character is permitted; the pending '(' are then
      as many as the prefix's depth. */
  lemma {:induction false} ScanAccepts(q: string, isLetter: char -> bool, n: nat)
    requires n <= |q|
    ensures Scan(q, isLetter, n).Ok? <==> NeverNegative(q, n) && AllPermitted(q, isLetter, n)
    ensures Scan(q, isLetter, n).Ok? ==> |Scan(q, isLetter, n).value.opens| == Depth(q[..n])
    decreases n
  {
    if n > 0 {
      ScanAccepts(q, isLetter, n - 1);
      DepthStep(q, n);
      assert NeverNegative(q, n) <==> NeverNegative(q, n - 1) && Depth(q[..n]) >= 0;
      assert AllPermitted(q, isLetter, n) <==> AllPermitted(q, isLetter, n - 1) && Permitted(q[n - 1], isLetter);
      if Scan(q, isLetter, n - 1).Err? {
        assert Scan(q, isLetter, n).Err?;
      }
    } else {
      assert q[..0] == [];
    }
  }

  /** One more character changes the depth by its own bracket. */
  lemma DepthStep(q: string, n: nat)
    requires 0 < n <= |q|
    ensures Depth(q[..n]) == Depth(q[..n - 1]) + (if q[n - 1] == '(' then 1 else if q[n - 1] == ')' then -1 else 0)
  {
    assert q[..n][..n - 1] == q[..n - 1];
  }

  /** A refused character is reported with its own 1-based position. */
  lemma {:induction false} ScanRefuses(q: string, isLetter: char -> bool, n: nat, c: char, p: int)
    requires n <= |q| && Scan(q, isLetter, n) == Err(IncorrectSymbol(c, p))
    ensures 1 <= p <= n && q[p - 1] == c && !Permitted(c, isLetter)
    decreases n
  {
    if Scan(q, isLetter, n - 1).Err? {
      ScanRefuses(q, isLetter, n - 1, c, p);
    }
  }

  /** Once the scan has stopped with an error, later characters do not change it. */
  lemma {:induction false} ScanStops(q: string, isLetter: char -> bool, n: nat, m: nat)
    requires n <= m <= |q| && Scan(q, isLetter, n).Err?
    ensures Scan(q, isLetter, m) == Scan(q, isLetter, n)
    decreases m
  {
    if m > n {
      ScanStops(q, isLetter, n, m - 1);
    }
  }

  // ---------------------------------------------------------------- the pair table

  /** The pending '(' are increasing positions before `n` whose entries are still unset. */
  ghost predicate PendingOpens(q: string, b: Brackets, n: nat) {
    && |b.pairBracket| == |q| && n <= |q|
    && (forall j, k :: 0 <= j < k < |b.opens| ==> b.opens[j] < b.opens[k])
    && (forall j :: 0 <= j < |b.opens| ==> 0 <= b.opens[j] < n && q[b.opens[j]] == '(' && b.pairBracket[b.opens[j]] == 0)
    && (forall k :: n <= k < |q| ==> b.pairBracket[k] == 0)
  }

  /** Every ')' before `n` points back to an earlier '(' that points to it. */
  ghost predicate ClosersMatched(q: string, pb: seq<int>, n: nat)
    requires |pb| == |q| && n <= |q|
  {
    forall k :: 0 <= k < n && q[k] == ')' ==> 0 <= pb[k] < k && q[pb[k]] == '(' && pb[pb[k]] == k
  }

  /** Every '(' before `n` that is not pending points forward to its ')' before `n`. */
  ghost predicate OpenersMatched(q: string, b: Brackets, n: nat)
    requires |b.pairBracket| == |q| && n <= |q|
  {
    forall k :: 0 <= k < n && q[k] == '(' && k !in b.opens ==>
      k < b.pairBracket[k] < n && q[b.pairBracket[k]] == ')' && b.pairBracket[b.pairBracket[k]] == k
  }

  /** Matched pairs nest: a pair opened inside another closes inside it, and no
      pending '(' lies inside a matched pair. */
  ghost predicate PairsNest(q: string, b: Brackets, n: nat)
    requires |b.pairBracket| == |q| && n <= |q|
  {
    && (forall a, c :: 0 <= a < c < n && q[a] == '(' && q[c] == '(' && a !in b.opens && c !in b.opens && c < b.pairBracket[a]
          ==> b.pairBracket[c] < b.pairBracket[a])
    && (forall a, s :: 0 <= a < n && q[a] == '(' && a !in b.opens && s in b.opens ==> !(a < s < b.pairBracket[a]))
  }

  ghost predicate TableInvariant(q: string, b: Brackets, n: nat) {
    && PendingOpens(q, b, n)
    && ClosersMatched(q, b.pairBracket, n)
    && OpenersMatched(q, b, n)
    && PairsNest(q, b, n)
  }

  lemma StepPush(q: string, isLetter: char -> bool, b: Brackets, i: nat)
    requires i < |q| && q[i] == '(' && TableInvariant(q, b, i)
    ensures Step(q, isLetter, b, i).Ok? && TableInvariant(q, Step(q, isLetter, b, i).value, i + 1)
  {
    var b' := Step(q, isLetter, b, i).value;
    assert b' == Brackets(b.pairBracket, b.opens + [i]);
    StepPushPending(q, b, i);
    StepPushMatched(q, b, i);
  }

  lemma StepPushPending(q: string, b: Brackets, i: nat)
    requires i < |q| && q[i] == '(' && PendingOpens(q, b, i)
    ensures PendingOpens(q, Brackets(b.pairBracket, b.opens + [i]), i + 1)
  {
    var opens := b.opens + [i];
    assert forall j :: 0 <= j < |b.opens| ==> opens[j] == b.opens[j];
  }

  lemma StepPushMatched(q: string, b: Brackets, i: nat)
    requires i < |q| && q[i] == '(' && TableInvariant(q, b, i)
    ensures var b' := Brackets(b.pairBracket, b.opens + [i]);
      ClosersMatched(q, b'.pairBracket, i + 1) && OpenersMatched(q, b', i + 1) && PairsNest(q, b', i + 1)
  {
    StepPushClosers(q, b, i);
    StepPushOpeners(q, b, i);
    StepPushNest(q, b, i);
  }

  lemma StepPushClosers(q: string, b: Brackets, i: nat)
    requires i < |q| && q[i] == '(' && |b.pairBracket| == |q| && ClosersMatched(q, b.pairBracket, i)
    ensures ClosersMatched(q, b.pairBracket, i + 1)
  {
  }

  lemma StepPushOpeners(q: string, b: Brackets, i: nat)
    requires i < |q| && q[i] == '(' && |b.pairBracket| == |q| && OpenersMatched(q, b, i)
    ensures OpenersMatched(q, Brackets(b.pairBracket, b.opens + [i]), i + 1)
  {
    var b' := Brackets(b.pairBracket, b.opens + [i]);
    var pb := b.pairBracket;
    forall k | 0 <= k < i + 1 && q[k] == '(' && k !in b'.opens
      ensures k < pb[k] < i + 1 && q[pb[k]] == ')' && pb[pb[k]] == k
    {
      assert k !in b.opens;
    }
  }

  lemma StepPushNest(q: string, b: Brackets, i: nat)
    requires i < |q| && q[i] == '(' && |b.pairBracket| == |q| && PairsNest(q, b, i)
    requires OpenersMatched(q, b, i)
    ensures PairsNest(q, Brackets(b.pairBracket, b.opens + [i]), i + 1)
  {
    var b' := Brackets(b.pairBracket, b.opens + [i]);
    var pb := b.pairBracket;
    forall a, c | 0 <= a < c < i + 1 && q[a] == '(' && q[c] == '(' && a !in b'.opens && c !in b'.opens && c < pb[a]
      ensures pb[c] < pb[a]
    {
      assert a !in b.opens && c !in b.opens;
    }
    forall a, s | 0 <= a < i + 1 && q[a] == '(' && a !in b'.opens && s in b'.opens
      ensures !(a < s < pb[a])
    {
      assert a !in b.opens;
      if s != i {
        assert s in b.opens;
      }
    }
  }

  lemma StepPop(q: string, isLetter: char -> bool, b: Brackets, i: nat)
    requires i < |q| && q[i] == ')' && |b.opens| > 0 && TableInvariant(q, b, i)
    ensures Step(q, isLetter, b, i).Ok? && TableInvariant(q, Step(q, isLetter, b, i).value, i + 1)
  {
    var o := b.opens[|b.opens| - 1];
    var pb := b.pairBracket;
    var b' := Step(q, isLetter, b, i).value;
    var pb' := b'.pairBracket;
    assert pb' == pb[o := i][i := o];
    assert b'.opens == b.opens[..|b.opens| - 1];
    PopOpens(b.opens);
    StepPopPending(q, b, b', i, o);
    StepPopClosers(q, b, i, o, pb');
    StepPopOpeners(q, b, b', i, o);
    StepPopNest(q, b, b', i, o);
  }

  /** Popping the top of an increasing stack leaves the entries below it. */
  lemma PopOpens(opens: seq<int>)
    requires |opens| > 0 && forall j, k :: 0 <= j < k < |opens| ==> opens[j] < opens[k]
    ensures forall s :: s in opens[..|opens| - 1] ==> s in opens && s < opens[|opens| - 1]
    ensures forall s :: s in opens ==> s in opens[..|opens| - 1] || s == opens[|opens| - 1]
  {
    var rest := opens[..|opens| - 1];
    forall s | s in rest ensures s in opens && s < opens[|opens| - 1] {
      var j :| 0 <= j < |rest| && rest[j] == s;
      assert opens[j] == s;
    }
    forall s | s in opens ensures s in rest || s == opens[|opens| - 1] {
      var j :| 0 <= j < |opens| && opens[j] == s;
      if j < |opens| - 1 {
        assert rest[j] == s;
      }
    }
  }

  lemma StepPopPending(q: string, b: Brackets, b': Brackets, i: nat, o: int)
    requires i < |q| && q[i] == ')' && |b.opens| > 0 && PendingOpens(q, b, i)
    requires o == b.opens[|b.opens| - 1] && b'.pairBracket == b.pairBracket[o := i][i := o]
    requires b'.opens == b.opens[..|b.opens| - 1]
    ensures PendingOpens(q, b', i + 1)
  {
    forall j | 0 <= j < |b'.opens| ensures b'.pairBracket[b'.opens[j]] == 0 {
      assert b'.opens[j] == b.opens[j] < o;
    }
  }

  lemma StepPopClosers(q: string, b: Brackets, i: nat, o: int, pb': seq<int>)
    requires i < |q| && q[i] == ')' && |b.opens| > 0 && TableInvariant(q, b, i)
    requires o == b.opens[|b.opens| - 1] && pb' == b.pairBracket[o := i][i := o]
    ensures ClosersMatched(q, pb', i + 1)
  {
    var pb := b.pairBracket;
    forall k | 0 <= k < i + 1 && q[k] == ')' ensures 0 <= pb'[k] < k && q[pb'[k]] == '(' && pb'[pb'[k]] == k {
      if k < i {
        assert pb[o] == 0;
      }
    }
  }

  lemma StepPopOpeners(q: string, b: Brackets, b': Brackets, i: nat, o: int)
    requires i < |q| && q[i] == ')' && |b.opens| > 0 && TableInvariant(q, b, i)
    requires o == b.opens[|b.opens| - 1] && b'.pairBracket == b.pairBracket[o := i][i := o]
    requires b'.opens == b.opens[..|b.opens| - 1]
    requires forall s :: s in b.opens ==> s in b'.opens || s == o
    ensures OpenersMatched(q, b', i + 1)
  {
    var pb, pb' := b.pairBracket, b'.pairBracket;
    forall k | 0 <= k < i + 1 && q[k] == '(' && k !in b'.opens
      ensures k < pb'[k] < i + 1 && q[pb'[k]] == ')' && pb'[pb'[k]] == k
    {
      if k != o {
        assert k !in b.opens;
      }
    }
  }

  lemma StepPopNest(q: string, b: Brackets, b': Brackets, i: nat, o: int)
    requires i < |q| && q[i] == ')' && |b.opens| > 0 && TableInvariant(q, b, i)
    requires o == b.opens[|b.opens| - 1] && b'.pairBracket == b.pairBracket[o := i][i := o]
    requires b'.opens == b.opens[..|b.opens| - 1]
    requires forall s :: s in b'.opens ==> s in b.opens && s < o
    requires forall s :: s in b.opens ==> s in b'.opens || s == o
    ensures PairsNest(q, b', i + 1)
  {
    var pb, pb' := b.pairBracket, b'.pairBracket;
    forall a, c | 0 <= a < c < i + 1 && q[a] == '(' && q[c] == '(' && a !in b'.opens && c !in b'.opens && c < pb'[a]
      ensures pb'[c] < pb'[a]
    {
      if a == o {
        assert c !in b.opens;
      } else {
        assert a !in b.opens;
        if c != o {
          assert c !in b.opens;
        }
      }
    }
    forall a, s | 0 <= a < i + 1 && q[a] == '(' && a !in b'.opens && s in b'.opens
      ensures !(a < s < pb'[a])
    {
      if a != o {
        assert a !in b.opens;
      }
    }
  }

  /** One accepted character keeps the table invariant. */
  lemma StepKeeps(q: string, isLetter: char -> bool, b: Brackets, i: nat)
    requires i < |q| && TableInvariant(q, b, i) && Step(q, isLetter, b, i).Ok?
    ensures TableInvariant(q, Step(q, isLetter, b, i).value, i + 1)
  {
    if q[i] == '(' {
      StepPush(q, isLetter, b, i);
    } else if q[i] == ')' {
      StepPop(q, isLetter, b, i);
    } else {
      assert Step(q, isLetter, b, i).value == b;
    }
  }

  /** The scan keeps the table invariant at every prefix it accepts. */
  lemma {:induction false} ScanTable(q: string, isLetter: char -> bool, n: nat)
    requires n <= |q|
    ensures Scan(q, isLetter, n).Ok? ==> TableInvariant(q, Scan(q, isLetter, n).value, n)
    decreases n
  {
    if n > 0 {
      ScanTable(q, isLetter, n - 1);
      var r := Scan(q, isLetter, n - 1);
      if r.Ok? && Step(q, isLetter, r.value, n - 1).Ok? {
        StepKeeps(q, isLetter, r.value, n - 1);
      }
    }
  }

  /** After validating a whole query, each ')' at `c` and its '(' at `o` have
      `o < c`, point at each other, and pairs nest. */
  lemma PairTable(q: string, isLetter: char -> bool)
    requires Validate(q, isLetter).Ok?
    ensures var pb := Validate(q, isLetter).value.pairBracket;
      forall c :: 0 <= c < |q| && q[c] == ')' ==> 0 <= pb[c] < c && q[pb[c]] == '(' && pb[pb[c]] == c
    ensures var b := Validate(q, isLetter).value;
      forall a, c :: 0 <= a < c < |q| && q[a] == '(' && q[c] == '(' && a !in b.opens && c !in b.opens && c < b.pairBracket[a]
        ==> b.pairBracket[c] < b.pairBracket[a]
  {
    ScanTable(q, isLetter, |q|);
  }
}
