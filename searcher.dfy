/** Query evaluation (Searcher.java): after validation, a range of the query is
    split at its top-level " AND " operators (intersection) or, when it has none,
    at its top-level " OR " operators (union); a range without operators is
    either a bracketed expression or a single word looked up in the index. */
module Searcher {
  import opened Common
  import opened QueryBrackets

  /** The index as the searcher uses it: the documents of a word, and the alphabet. */
  datatype Lookup<V> = Lookup(get: string -> set<V>, isLetter: char -> bool)

  datatype Op = And | Or

  function OpText(op: Op): string {
    match op
    case And => " AND "
    case Or => " OR "
  }

  /** How a range is recognised as a bracketed expression: `AsWritten` compares
      `str.indexOf(from)` and `str.indexOf(to - 1)` (the first positions of the
      characters whose codes are `from` and `to - 1`) with the codes of '(' and
      ')'; `ByChar` compares the characters at `from` and `to - 1`. */
  datatype StripRule = AsWritten | ByChar

  function Combine<V>(op: Op, a: set<V>, b: set<V>): set<V> {
    match op
    case And => a * b
    case Or => a + b
  }

  /** The intersection (AND) or the union (OR) of all the segments' results. */
  function Merge<V>(op: Op, sets: seq<set<V>>): (r: set<V>)
    requires |sets| > 0
  {
    match op
    case And => set x | x in sets[0] && forall k :: 0 <= k < |sets| ==> x in sets[k]
    case Or => set k, x | 0 <= k < |sets| && x in sets[k] :: x
  }

  function Max0(x: int): nat {
    if x < 0 then 0 else x
  }

  // ---------------------------------------------------------------- character search

  /** `String.indexOf(int)`: the first position holding the character with code `code`, or -1. */
  function IndexOf(q: string, code: int): (r: int)
    ensures -1 <= r < |q|
    ensures r >= 0 ==> q[r] as int == code && forall k :: 0 <= k < r ==> q[k] as int != code
    ensures r == -1 ==> forall k :: 0 <= k < |q| ==> q[k] as int != code
  {
    IndexFrom(q, code, 0)
  }

  function IndexFrom(q: string, code: int, i: nat): (r: int)
    requires i <= |q|
    ensures r == -1 || i <= r < |q|
    ensures r >= 0 ==> q[r] as int == code && forall k :: i <= k < r ==> q[k] as int != code
    ensures r == -1 ==> forall k :: i <= k < |q| ==> q[k] as int != code
    decreases |q| - i
  {
    if i == |q| then -1
    else if q[i] as int == code then i
    else IndexFrom(q, code, i + 1)
  }

  /** `isContainSubstringAt`: `sub` occurs at `i` and ends strictly before the end of `q`. */
  function ContainsAt(q: string, i: nat, sub: string): bool {
    i + |sub| < |q| && MatchFrom(q, i, sub, 0)
  }

  /** The characters of `sub` from its `k`-th on occur in `q` from `i + k` on. */
  function MatchFrom(q: string, i: nat, sub: string, k: nat): bool
    requires i + |sub| <= |q|
    decreases |sub| - k
  {
    k >= |sub| || (q[i + k] == sub[k] && MatchFrom(q, i, sub, k + 1))
  }

  lemma {:induction false} MatchFromMeaning(q: string, i: nat, sub: string, k: nat)
    requires i + |sub| <= |q|
    ensures MatchFrom(q, i, sub, k) <==> forall j :: k <= j < |sub| ==> q[i + j] == sub[j]
    decreases |sub| - k
  {
    if k < |sub| {
      MatchFromMeaning(q, i, sub, k + 1);
    }
  }

  method IsContainSubstringAt(str: string, from: nat, subStr: string) returns (r: bool)
    ensures r <==> from + |subStr| < |str| && str[from..from + |subStr|] == subStr
    ensures r == ContainsAt(str, from, subStr)
  {
    if from + |subStr| >= |str| {
      return false;
    }
    MatchFromMeaning(str, from, subStr, 0);
    for i := 0 to |subStr|
      invariant forall k :: 0 <= k < i ==> str[from + k] == subStr[k]
    {
      if str[from + i] != subStr[i] {
        assert str[from..from + |subStr|][i] != subStr[i];
        return false;
      }
    }
    assert str[from..from + |subStr|] == subStr;
    return true;
  }

  // ---------------------------------------------------------------- the scan for operators

  /** Every '(' reached by a scan has its table entry at or after it, so jumping
      there moves forward. */
  predicate ForwardJumps(q: string, pb: seq<int>) {
    |pb| == |q| && forall k :: 0 <= k < |q| && q[k] == '(' ==> k <= pb[k]
  }

  /** The positions of `op` that the loop of `findAnd`/`findOr` meets from `i` up
      to `to`: a '(' makes it jump past its partner, anything else is tested for
      the operator. */
  function TopOps(q: string, pb: seq<int>, op: Op, i: nat, to: int): (r: seq<nat>)
    requires ForwardJumps(q, pb) && to <= |q|
    ensures forall k :: 0 <= k < |r| ==> i <= r[k] < to
    decreases Max0(to - i)
  {
    if i >= to then []
    else if q[i] == '(' then TopOps(q, pb, op, pb[i] + 1, to)
    else if ContainsAt(q, i, OpText(op)) then [i] + TopOps(q, pb, op, i + 1, to)
    else TopOps(q, pb, op, i + 1, to)
  }

  // ---------------------------------------------------------------- evaluation

  predicate StripCond(rule: StripRule, q: string, from: nat, to: int) {
    match rule
    case AsWritten => IndexOf(q, from) == '(' as int && IndexOf(q, to - 1) == ')' as int
    case ByChar => from < to <= |q| && q[from] == '(' && q[to - 1] == ')'
  }

  function Flag(rule: StripRule, q: string, from: nat, to: int): nat {
    if StripCond(rule, q, from, to) then 1 else 0
  }

  /** The first position from `i` before `to` that is not a letter, or a value at least `to`. */
  function FirstNonLetter(q: string, isLetter: char -> bool, i: nat, to: int): (r: nat)
    requires to <= |q|
    ensures i <= r && (r <= to || r == i)
    ensures r < to ==> !isLetter(q[r])
    ensures forall k :: i <= k < r ==> isLetter(q[k])
    decreases Max0(to - i)
  {
    if i >= to then i
    else if !isLetter(q[i]) then i
    else FirstNonLetter(q, isLetter, i + 1, to)
  }

  /** A range without operators: the first non-letter is refused with its 1-based
      position; a range starting after its end cannot be cut out; otherwise the
      word is looked up. */
  function Leaf<V>(q: string, idx: Lookup<V>, from: nat, to: int): Result<set<V>, QueryError>
    requires to <= |q|
  {
    var k := FirstNonLetter(q, idx.isLetter, from, to);
    if k < to then Err(IncorrectSymbol(q[k], k + 1))
    else if from > to then Err(BadRange)
    else Ok(idx.get(q[from..to]))
  }

  /** A range without operators is looked up exactly when it is well ordered and
      all letters; otherwise the first non-letter is refused with its 1-based
      position, or the range cannot be cut out. */
  lemma LeafMeaning<V>(q: string, idx: Lookup<V>, from: nat, to: int)
    requires to <= |q|
    ensures Leaf(q, idx, from, to).Ok? <==> from <= to && forall k :: from <= k < to ==> idx.isLetter(q[k])
    ensures Leaf(q, idx, from, to).Ok? ==> Leaf(q, idx, from, to).value == idx.get(q[from..to])
    ensures Leaf(q, idx, from, to) == Err(BadRange) <==> from > to
    ensures var r := Leaf(q, idx, from, to);
      r.Err? && r.error.IncorrectSymbol? ==>
        && from < r.error.position <= to && r.error.c == q[r.error.position - 1] && !idx.isLetter(r.error.c)
        && forall k :: from <= k < r.error.position - 1 ==> idx.isLetter(q[k])
  {
  }

  /** `find(pairBracket, str, from, to)`. */
  function Eval<V>(rule: StripRule, q: string, pb: seq<int>, idx: Lookup<V>, from: nat, to: int): Result<set<V>, QueryError>
    requires ForwardJumps(q, pb) && to <= |q|
    decreases Max0(to - from), 1 + Flag(rule, q, from, to), 0
  {
    var ands := TopOps(q, pb, And, from, to);
    if ands != [] then Junction(rule, q, pb, idx, And, ands, from, to)
    else
      var ors := TopOps(q, pb, Or, from, to);
      if ors != [] then Junction(rule, q, pb, idx, Or, ors, from, to)
      else if StripCond(rule, q, from, to) then
        assert to - from >= 1 || !StripCond(rule, q, from + 1, to - 1);
        Eval(rule, q, pb, idx, from + 1, to - 1)
      else Leaf(q, idx, from, to)
  }

  /** `findAnd`/`findOr` once operators were found: the merge of all segments, or
      the first error met. */
  function Junction<V>(rule: StripRule, q: string, pb: seq<int>, idx: Lookup<V>, op: Op, ops: seq<nat>, from: nat, to: int): Result<set<V>, QueryError>
    requires ForwardJumps(q, pb) && to <= |q|
    requires |ops| > 0 && forall j :: 0 <= j < |ops| ==> from <= ops[j] < to
    decreases Max0(to - from), 0, |ops| + 1
  {
    match Segments(rule, q, pb, idx, op, ops, from, to, 0)
    case Err(e) => Err(e)
    case Ok(sets) => Ok(Merge(op, sets))
  }

  /** The segments' results in evaluation order from the `k`-th operator on: the
      range from `from` (not from the previous operator) up to each operator, then
      the range after the last operator. */
  function Segments<V>(rule: StripRule, q: string, pb: seq<int>, idx: Lookup<V>, op: Op, ops: seq<nat>, from: nat, to: int, k: nat)
    : (r: Result<seq<set<V>>, QueryError>)
    requires ForwardJumps(q, pb) && to <= |q|
    requires |ops| > 0 && forall j :: 0 <= j < |ops| ==> from <= ops[j] < to
    requires k <= |ops|
    ensures r.Ok? ==> |r.value| == |ops| - k + 1
    decreases Max0(to - from), 0, |ops| - k
  {
    if k == |ops| then
      match Eval(rule, q, pb, idx, ops[|ops| - 1] + |OpText(op)|, to)
      case Err(e) => Err(e)
      case Ok(s) => Ok([s])
    else
      match Eval(rule, q, pb, idx, from, ops[k])
      case Err(e) => Err(e)
      case Ok(s) => Prepend([s], Segments(rule, q, pb, idx, op, ops, from, to, k + 1))
  }

  function Prepend<T, E>(xs: seq<T>, r: Result<seq<T>, E>): (p: Result<seq<T>, E>)
    ensures r.Ok? ==> p == Ok(xs + r.value)
    ensures r.Err? ==> p == r
  {
    match r
    case Err(e) => Err(e)
    case Ok(rest) => Ok(xs + rest)
  }

  /** The four cases of `find(pairBracket, str, from, to)`, in the order it tries them: an
      unfolding of `Eval`, kept apart so that the method proofs stay cheap for the solver. */
  lemma EvalCases<V>(rule: StripRule, q: string, pb: seq<int>, idx: Lookup<V>, from: nat, to: int)
    requires ForwardJumps(q, pb) && to <= |q|
    ensures var ands, ors := TopOps(q, pb, And, from, to), TopOps(q, pb, Or, from, to);
      && (ands != [] ==> Eval(rule, q, pb, idx, from, to) == Junction(rule, q, pb, idx, And, ands, from, to))
      && (ands == [] && ors != [] ==> Eval(rule, q, pb, idx, from, to) == Junction(rule, q, pb, idx, Or, ors, from, to))
      && (ands == [] && ors == [] && StripCond(rule, q, from, to) ==>
            Eval(rule, q, pb, idx, from, to) == Eval(rule, q, pb, idx, from + 1, to - 1))
      && (ands == [] && ors == [] && !StripCond(rule, q, from, to) ==>
            Eval(rule, q, pb, idx, from, to) == Leaf(q, idx, from, to))
  {
  }

  /** Every position the scan reports holds the operator, outside any bracket pair. */
  lemma {:induction false} TopOpsAreOperators(q: string, pb: seq<int>, op: Op, i: nat, to: int)
    requires ForwardJumps(q, pb) && to <= |q|
    ensures var r := TopOps(q, pb, op, i, to);
      forall k :: 0 <= k < |r| ==> q[r[k]] != '(' && ContainsAt(q, r[k], OpText(op))
    decreases Max0(to - i)
  {
    if i < to {
      TopOpsStep(q, pb, op, i, to);
      if q[i] == '(' {
        TopOpsAreOperators(q, pb, op, pb[i] + 1, to);
      } else {
        TopOpsAreOperators(q, pb, op, i + 1, to);
      }
    }
  }

  /** The scan reports positions in increasing order. */
  lemma {:induction false} TopOpsAscending(q: string, pb: seq<int>, op: Op, i: nat, to: int)
    requires ForwardJumps(q, pb) && to <= |q|
    ensures var r := TopOps(q, pb, op, i, to);
      forall k, l :: 0 <= k < l < |r| ==> r[k] < r[l]
    decreases Max0(to - i)
  {
    if i < to {
      TopOpsStep(q, pb, op, i, to);
      if q[i] == '(' {
        TopOpsAscending(q, pb, op, pb[i] + 1, to);
      } else {
        TopOpsAscending(q, pb, op, i + 1, to);
        var rest := TopOps(q, pb, op, i + 1, to);
        if ContainsAt(q, i, OpText(op)) {
          var r := [i] + rest;
          assert forall k :: 1 <= k < |r| ==> r[k] == rest[k - 1];
        }
      }
    }
  }

  /** One step of the scan for operators at `i`. */
  lemma TopOpsStep(q: string, pb: seq<int>, op: Op, i: nat, to: int)
    requires ForwardJumps(q, pb) && to <= |q| && i < to
    ensures q[i] == '(' ==> TopOps(q, pb, op, i, to) == TopOps(q, pb, op, pb[i] + 1, to)
    ensures q[i] != '(' && ContainsAt(q, i, OpText(op)) ==> TopOps(q, pb, op, i, to) == [i] + TopOps(q, pb, op, i + 1, to)
    ensures q[i] != '(' && !ContainsAt(q, i, OpText(op)) ==> TopOps(q, pb, op, i, to) == TopOps(q, pb, op, i + 1, to)
  {
  }

  /** The scan for operators moves on from `i`, having met `ops[..n]` before it. */
  lemma OpsAdvance(q: string, pb: seq<int>, op: Op, i: nat, to: int, ops: seq<nat>, n: nat)
    requires ForwardJumps(q, pb) && to <= |q| && i < to
    requires n <= |ops| && TopOps(q, pb, op, i, to) == ops[n..]
    ensures q[i] == '(' ==> TopOps(q, pb, op, pb[i] + 1, to) == ops[n..]
    ensures q[i] != '(' && ContainsAt(q, i, OpText(op)) ==>
              n < |ops| && ops[n] == i && TopOps(q, pb, op, i + 1, to) == ops[n + 1..]
    ensures q[i] != '(' && !ContainsAt(q, i, OpText(op)) ==> TopOps(q, pb, op, i + 1, to) == ops[n..]
  {
    TopOpsStep(q, pb, op, i, to);
    if q[i] != '(' && ContainsAt(q, i, OpText(op)) {
      assert ops[n + 1..] == ops[n..][1..];
    }
  }

  /** The segment up to the `k`-th operator, then the rest. */
  lemma SegmentsStep<V>(rule: StripRule, q: string, pb: seq<int>, idx: Lookup<V>, op: Op, ops: seq<nat>, from: nat, to: int, k: nat)
    requires ForwardJumps(q, pb) && to <= |q|
    requires |ops| > 0 && (forall j :: 0 <= j < |ops| ==> from <= ops[j] < to) && k < |ops|
    ensures var e := Eval(rule, q, pb, idx, from, ops[k]);
      Segments(rule, q, pb, idx, op, ops, from, to, k) ==
        if e.Err? then Err(e.error) else Prepend([e.value], Segments(rule, q, pb, idx, op, ops, from, to, k + 1))
  {
  }

  /** The segment after the last operator. */
  lemma SegmentsLast<V>(rule: StripRule, q: string, pb: seq<int>, idx: Lookup<V>, op: Op, ops: seq<nat>, from: nat, to: int)
    requires ForwardJumps(q, pb) && to <= |q|
    requires |ops| > 0 && (forall j :: 0 <= j < |ops| ==> from <= ops[j] < to)
    ensures var e := Eval(rule, q, pb, idx, ops[|ops| - 1] + |OpText(op)|, to);
      Segments(rule, q, pb, idx, op, ops, from, to, |ops|) == if e.Err? then Err(e.error) else Ok([e.value])
  {
  }

  /** `expected` holds the result of each range from `from` up to an operator of
      `ops`, in order. The quantifier is triggered only by an evaluation, so a
      context that never names one does not unfold the evaluator. */
  predicate SegmentsAre<V>(rule: StripRule, q: string, pb: seq<int>, idx: Lookup<V>, from: nat, ops: seq<nat>,
                           expected: seq<Result<set<V>, QueryError>>)
    requires ForwardJumps(q, pb) && forall j :: 0 <= j < |ops| ==> ops[j] <= |q|
  {
    && |expected| == |ops|
    && forall k {:trigger Eval(rule, q, pb, idx, from, ops[k])} :: 0 <= k < |ops| ==>
         expected[k] == Eval(rule, q, pb, idx, from, ops[k])
  }

  /** The segments before the `|sets|`-th operator evaluated to `sets`: the rest follows them. */
  lemma {:induction false} SegmentsPrefix<V>(rule: StripRule, q: string, pb: seq<int>, idx: Lookup<V>, op: Op, ops: seq<nat>, from: nat, to: int,
                                             expected: seq<Result<set<V>, QueryError>>, sets: seq<set<V>>)
    requires ForwardJumps(q, pb) && to <= |q|
    requires |ops| > 0 && (forall j :: 0 <= j < |ops| ==> from <= ops[j] < to) && |sets| <= |ops|
    requires SegmentsAre(rule, q, pb, idx, from, ops, expected)
    requires forall k :: 0 <= k < |sets| ==> expected[k] == Ok(sets[k])
    ensures Segments(rule, q, pb, idx, op, ops, from, to, 0) == Prepend(sets, Segments(rule, q, pb, idx, op, ops, from, to, |sets|))
    decreases |sets|
  {
    var n := |sets|;
    if n == 0 {
      PrependPrepend([], [], Segments(rule, q, pb, idx, op, ops, from, to, 0));
    } else {
      var init := sets[..n - 1];
      SegmentsPrefix(rule, q, pb, idx, op, ops, from, to, expected, init);
      assert expected[n - 1] == Eval(rule, q, pb, idx, from, ops[n - 1]);
      SegmentsStep(rule, q, pb, idx, op, ops, from, to, n - 1);
      PrependPrepend(init, [sets[n - 1]], Segments(rule, q, pb, idx, op, ops, from, to, n));
      assert init + [sets[n - 1]] == sets;
    }
  }

  /** The first segment that fails makes the whole junction fail with its error. */
  lemma SegmentsFail<V>(rule: StripRule, q: string, pb: seq<int>, idx: Lookup<V>, op: Op, ops: seq<nat>, from: nat, to: int,
                        expected: seq<Result<set<V>, QueryError>>, sets: seq<set<V>>)
    requires ForwardJumps(q, pb) && to <= |q|
    requires |ops| > 0 && (forall j :: 0 <= j < |ops| ==> from <= ops[j] < to) && |sets| < |ops|
    requires SegmentsAre(rule, q, pb, idx, from, ops, expected)
    requires forall k :: 0 <= k < |sets| ==> expected[k] == Ok(sets[k])
    requires expected[|sets|].Err?
    ensures Segments(rule, q, pb, idx, op, ops, from, to, 0) == Err(expected[|sets|].error)
  {
    SegmentsPrefix(rule, q, pb, idx, op, ops, from, to, expected, sets);
    assert expected[|sets|] == Eval(rule, q, pb, idx, from, ops[|sets|]);
    SegmentsStep(rule, q, pb, idx, op, ops, from, to, |sets|);
  }

  /** A sequence fact about `Prepend`, kept apart so that the segment proofs stay cheap for the solver. */
  lemma PrependPrepend<T, E>(xs: seq<T>, ys: seq<T>, r: Result<seq<T>, E>)
    ensures Prepend(xs, Prepend(ys, r)) == Prepend(xs + ys, r)
    ensures Prepend([], r) == r
  {
    if r.Ok? {
      assert xs + (ys + r.value) == (xs + ys) + r.value;
      assert [] + r.value == r.value;
    }
  }

  // ---------------------------------------------------------------- whole queries

  /** Every '(' left unclosed by validation is the first character of the query.
      Any other unclosed '(' keeps table entry 0, which sends the scan for
      operators back to the start of the query, where it meets that '(' again. */
  predicate NoStrayOpen(q: string, isLetter: char -> bool) {
    Validate(q, isLetter).Ok? ==>
      forall k :: 0 <= k < |Validate(q, isLetter).value.opens| ==> Validate(q, isLetter).value.opens[k] == 0
  }

  /** A '(' reached inside another bracket pair has its partner inside it. */
  predicate Nesting(q: string, pb: seq<int>)
    requires |pb| == |q|
  {
    forall a, c :: 0 <= a < c < |q| && q[a] == '(' && q[c] == '(' && c <= pb[a] ==> pb[c] < pb[a]
  }

  /** A validated table without stray '(' makes every jump go forward, and its pairs nest. */
  lemma ValidatedTable(q: string, isLetter: char -> bool)
    requires Validate(q, isLetter).Ok? && NoStrayOpen(q, isLetter)
    ensures ForwardJumps(q, Validate(q, isLetter).value.pairBracket)
    ensures Nesting(q, Validate(q, isLetter).value.pairBracket)
  {
    var b := Validate(q, isLetter).value;
    var pb := b.pairBracket;
    ScanTable(q, isLetter, |q|);
    forall k | 0 <= k < |q| && q[k] == '(' ensures k <= pb[k] {
      if k in b.opens {
        var j :| 0 <= j < |b.opens| && b.opens[j] == k;
      }
    }
    forall a, c | 0 <= a < c < |q| && q[a] == '(' && q[c] == '(' && c <= pb[a] ensures pb[c] < pb[a] {
    }
  }

  /** `find(String)` under a bracket rule: validation, then the evaluation of the whole query. */
  function SearchWith<V>(rule: StripRule, q: string, idx: Lookup<V>): Result<set<V>, QueryError>
    requires NoStrayOpen(q, idx.isLetter)
  {
    var v := Validate(q, idx.isLetter);
    if v.Err? then Err(v.error)
    else
      ValidatedTable(q, idx.isLetter);
      Eval(rule, q, v.value.pairBracket, idx, 0, |q|)
  }

  /** `find(String)` with the bracket test as evidently intended (see `StripRule`). */
  function Search<V>(q: string, idx: Lookup<V>): Result<set<V>, QueryError>
    requires NoStrayOpen(q, idx.isLetter)
  {
    SearchWith(ByChar, q, idx)
  }

  /** The operators the scan reports lie outside every bracket pair it passed:
      each '(' met before an operator closes before it. */
  lemma OperatorsAtTopLevel(q: string, pb: seq<int>, op: Op, i: nat, to: int)
    requires ForwardJumps(q, pb) && Nesting(q, pb) && to <= |q|
    ensures var r := TopOps(q, pb, op, i, to);
      forall k, o :: 0 <= k < |r| && i <= o < r[k] && q[o] == '(' ==> pb[o] < r[k]
  {
    var r := TopOps(q, pb, op, i, to);
    forall k, o | 0 <= k < |r| && i <= o < r[k] && q[o] == '(' ensures pb[o] < r[k] {
      OperatorAtTopLevel(q, pb, op, i, to, k, o);
    }
  }

  /** The `k`-th operator reported from `i` lies after the partner of a '(' at `o` before it. */
  lemma {:induction false} OperatorAtTopLevel(q: string, pb: seq<int>, op: Op, i: nat, to: int, k: nat, o: nat)
    requires ForwardJumps(q, pb) && Nesting(q, pb) && to <= |q|
    requires k < |TopOps(q, pb, op, i, to)| && i <= o < TopOps(q, pb, op, i, to)[k] && q[o] == '('
    ensures pb[o] < TopOps(q, pb, op, i, to)[k]
    decreases Max0(to - i)
  {
    TopOpsStep(q, pb, op, i, to);
    if q[i] == '(' {
      if o == i {
      } else if o <= pb[i] {
        assert pb[o] < pb[i];
      } else {
        OperatorAtTopLevel(q, pb, op, pb[i] + 1, to, k, o);
      }
    } else if ContainsAt(q, i, OpText(op)) {
      OperatorAtTopLevel(q, pb, op, i + 1, to, k - 1, o);
    } else {
      OperatorAtTopLevel(q, pb, op, i + 1, to, k, o);
    }
  }

  // ---------------------------------------------------------------- the bracket test

  /** As written, the bracket test compares positions with character codes; a
      position in a query of at most 40 characters is never 40, the code of '(',
      so such a query never has a bracketed range stripped. */
  lemma ShortQueriesNeverStrip(q: string, from: nat, to: int)
    requires |q| <= '(' as int
    ensures !StripCond(AsWritten, q, from, to)
  {
  }

  /** As written, a range enclosed by a bracket pair in a short query is taken
      for a single word, and its '(' is refused. */
  lemma BracketedRangeAsWritten<V>(q: string, pb: seq<int>, idx: Lookup<V>, from: nat, to: int)
    requires ForwardJumps(q, pb) && to <= |q| <= '(' as int
    requires from < to && q[from] == '(' && pb[from] == to - 1 && !idx.isLetter('(')
    ensures Eval(AsWritten, q, pb, idx, from, to) == Err(IncorrectSymbol('(', from + 1))
  {
    EvalCases(AsWritten, q, pb, idx, from, to);
    TopOpsStep(q, pb, And, from, to);
    TopOpsStep(q, pb, Or, from, to);
  }

  /** With the test by character, a range enclosed by a bracket pair evaluates
      as its inside. */
  lemma BracketedRange<V>(q: string, pb: seq<int>, idx: Lookup<V>, from: nat, to: int)
    requires ForwardJumps(q, pb) && to <= |q|
    requires from < to && q[from] == '(' && q[to - 1] == ')' && pb[from] == to - 1
    ensures Eval(ByChar, q, pb, idx, from, to) == Eval(ByChar, q, pb, idx, from + 1, to - 1)
  {
    EvalCases(ByChar, q, pb, idx, from, to);
    TopOpsStep(q, pb, And, from, to);
    TopOpsStep(q, pb, Or, from, to);
  }

  /** The query "(x)": refused as written, the word "x" looked up as intended. */
  lemma BracketedWord<V>(idx: Lookup<V>)
    requires idx.isLetter('x') && !idx.isLetter('(')
    ensures NoStrayOpen("(x)", idx.isLetter)
    ensures SearchWith(AsWritten, "(x)", idx) == Err(IncorrectSymbol('(', 1))
    ensures Search("(x)", idx) == Ok(idx.get("x"))
  {
    var q, pb := "(x)", [2, 0, 0];
    BracketedWordTable(idx.isLetter);
    ValidatedTable(q, idx.isLetter);
    BracketedRangeAsWritten(q, pb, idx, 0, 3);
    BracketedRange(q, pb, idx, 0, 3);
    EvalCases(ByChar, q, pb, idx, 1, 2);
    TopOpsStep(q, pb, And, 1, 2);
    TopOpsStep(q, pb, Or, 1, 2);
    assert q[1..2] == "x";
  }

  /** Validating "(x)" pairs its brackets and leaves nothing pending. */
  lemma BracketedWordTable(isLetter: char -> bool)
    requires isLetter('x')
    ensures Validate("(x)", isLetter) == Ok(Brackets([2, 0, 0], []))
  {
    var q, zeros: seq<int> := "(x)", [0, 0, 0];
    assert seq(|q|, _ => 0) == zeros;
    assert q[0] == '(' && q[1] == 'x' && q[2] == ')';
    assert [] + [0] == [0];
    assert Scan(q, isLetter, 1) == Step(q, isLetter, Brackets(zeros, []), 0) == Ok(Brackets(zeros, [0]));
    assert Scan(q, isLetter, 2) == Ok(Brackets(zeros, [0]));
    assert zeros[0 := 2][2 := 0] == [2, 0, 0];
    assert Scan(q, isLetter, 3) == Step(q, isLetter, Brackets(zeros, [0]), 2) == Ok(Brackets([2, 0, 0], []));
  }

  // ---------------------------------------------------------------- the merge loop

  /** The loop that merges into the chosen set: `a` combined with each of `s` in turn. */
  function FoldWith<V>(op: Op, a: set<V>, s: seq<set<V>>): set<V>
    decreases |s|
  {
    if s == [] then a else Combine(op, FoldWith(op, a, s[..|s| - 1]), s[|s| - 1])
  }

  lemma {:induction false} FoldWithMeaning<V>(op: Op, a: set<V>, s: seq<set<V>>, x: V)
    ensures op == And ==> (x in FoldWith(op, a, s) <==> x in a && forall k :: 0 <= k < |s| ==> x in s[k])
    ensures op == Or ==> (x in FoldWith(op, a, s) <==> x in a || exists k :: 0 <= k < |s| && x in s[k])
    decreases |s|
  {
    if s != [] {
      var p := s[..|s| - 1];
      FoldWithMeaning(op, a, p, x);
      assert forall k :: 0 <= k < |p| ==> p[k] == s[k];
    }
  }

  /** Combining with the chosen set itself changes nothing. */
  lemma SkipChosen<V>(op: Op, sets: seq<set<V>>, k: nat)
    requires k < |sets|
    ensures FoldWith(op, sets[k], sets[..k + 1]) == FoldWith(op, sets[k], sets[..k])
  {
    var f := FoldWith(op, sets[k], sets[..k]);
    assert sets[..k + 1][..k] == sets[..k];
    forall x ensures x in Combine(op, f, sets[k]) <==> x in f {
      FoldWithMeaning(op, sets[k], sets[..k], x);
    }
  }

  /** A document is in the AND merge iff every segment has it, and in the OR
      merge iff some segment has it. */
  lemma MergeMeaning<V>(op: Op, sets: seq<set<V>>, x: V)
    requires |sets| > 0
    ensures op == And ==> (x in Merge(op, sets) <==> forall k :: 0 <= k < |sets| ==> x in sets[k])
    ensures op == Or ==> (x in Merge(op, sets) <==> exists k :: 0 <= k < |sets| && x in sets[k])
  {
    if op == Or && exists k :: 0 <= k < |sets| && x in sets[k] {
      var k :| 0 <= k < |sets| && x in sets[k];
      assert x in Merge(op, sets);
    }
  }

  /** Starting from any of the sets, folding over all of them gives their merge. */
  lemma FoldWithMerge<V>(op: Op, sets: seq<set<V>>, c: nat)
    requires c < |sets|
    ensures FoldWith(op, sets[c], sets) == Merge(op, sets)
  {
    var folded, merged := FoldWith(op, sets[c], sets), Merge(op, sets);
    forall x | x in folded ensures x in merged {
      FoldWithMeaning(op, sets[c], sets, x);
      MergeMeaning(op, sets, x);
    }
    forall x | x in merged ensures x in folded {
      FoldWithMeaning(op, sets[c], sets, x);
      MergeMeaning(op, sets, x);
    }
  }

  /** When the segments from the `k`-th operator on all succeed, their results are
      the evaluations of the ranges from `from` up to each operator, then of the
      range after the last operator. */
  lemma {:induction false} SegmentsOk<V>(rule: StripRule, q: string, pb: seq<int>, idx: Lookup<V>, op: Op, ops: seq<nat>, from: nat, to: int, k: nat)
    requires ForwardJumps(q, pb) && to <= |q|
    requires |ops| > 0 && (forall j :: 0 <= j < |ops| ==> from <= ops[j] < to) && k <= |ops|
    requires Segments(rule, q, pb, idx, op, ops, from, to, k).Ok?
    ensures var sets := Segments(rule, q, pb, idx, op, ops, from, to, k).value;
      && (forall j :: k <= j < |ops| ==> Eval(rule, q, pb, idx, from, ops[j]) == Ok(sets[j - k]))
      && Eval(rule, q, pb, idx, ops[|ops| - 1] + |OpText(op)|, to) == Ok(sets[|ops| - k])
    decreases |ops| - k
  {
    if k < |ops| {
      SegmentsStep(rule, q, pb, idx, op, ops, from, to, k);
      SegmentsOk(rule, q, pb, idx, op, ops, from, to, k + 1);
    } else {
      SegmentsLast(rule, q, pb, idx, op, ops, from, to);
    }
  }

  /** `x` is among the documents that the range from `from` to `to` evaluates to. */
  predicate Finds<V>(rule: StripRule, q: string, pb: seq<int>, idx: Lookup<V>, from: nat, to: int, x: V)
    requires ForwardJumps(q, pb) && to <= |q|
  {
    Eval(rule, q, pb, idx, from, to).Ok? && x in Eval(rule, q, pb, idx, from, to).value
  }

  /** A successful AND junction holds a document iff every segment finds it. */
  lemma JunctionAndMeaning<V>(rule: StripRule, q: string, pb: seq<int>, idx: Lookup<V>, ops: seq<nat>, from: nat, to: int, x: V)
    requires ForwardJumps(q, pb) && to <= |q|
    requires |ops| > 0 && forall j :: 0 <= j < |ops| ==> from <= ops[j] < to
    requires Junction(rule, q, pb, idx, And, ops, from, to).Ok?
    ensures x in Junction(rule, q, pb, idx, And, ops, from, to).value <==>
      (forall j :: 0 <= j < |ops| ==> Finds(rule, q, pb, idx, from, ops[j], x))
      && Finds(rule, q, pb, idx, ops[|ops| - 1] + |OpText(And)|, to, x)
  {
    var sets := Segments(rule, q, pb, idx, And, ops, from, to, 0).value;
    SegmentsOk(rule, q, pb, idx, And, ops, from, to, 0);
    MergeMeaning(And, sets, x);
    if (forall j :: 0 <= j < |ops| ==> Finds(rule, q, pb, idx, from, ops[j], x))
       && Finds(rule, q, pb, idx, ops[|ops| - 1] + |OpText(And)|, to, x) {
      forall k | 0 <= k < |sets| ensures x in sets[k] {
        if k < |ops| {
          assert Finds(rule, q, pb, idx, from, ops[k], x);
        }
      }
    }
  }

  /** A successful OR junction holds a document iff some segment finds it. */
  lemma JunctionOrMeaning<V>(rule: StripRule, q: string, pb: seq<int>, idx: Lookup<V>, ops: seq<nat>, from: nat, to: int, x: V)
    requires ForwardJumps(q, pb) && to <= |q|
    requires |ops| > 0 && forall j :: 0 <= j < |ops| ==> from <= ops[j] < to
    requires Junction(rule, q, pb, idx, Or, ops, from, to).Ok?
    ensures x in Junction(rule, q, pb, idx, Or, ops, from, to).value <==>
      (exists j :: 0 <= j < |ops| && Finds(rule, q, pb, idx, from, ops[j], x))
      || Finds(rule, q, pb, idx, ops[|ops| - 1] + |OpText(Or)|, to, x)
  {
    var sets := Segments(rule, q, pb, idx, Or, ops, from, to, 0).value;
    SegmentsOk(rule, q, pb, idx, Or, ops, from, to, 0);
    MergeMeaning(Or, sets, x);
    if x in Merge(Or, sets) {
      var k :| 0 <= k < |sets| && x in sets[k];
      if k < |ops| {
        assert Finds(rule, q, pb, idx, from, ops[k], x);
      }
    }
    if exists j :: 0 <= j < |ops| && Finds(rule, q, pb, idx, from, ops[j], x) {
      var j :| 0 <= j < |ops| && Finds(rule, q, pb, idx, from, ops[j], x);
      assert x in sets[j];
    }
  }

  /** A successful evaluation of a range with top-level ANDs holds exactly the
      documents every AND segment finds, whatever ORs the range contains. */
  lemma EvalAndMeaning<V>(rule: StripRule, q: string, pb: seq<int>, idx: Lookup<V>, from: nat, to: int, x: V)
    requires ForwardJumps(q, pb) && to <= |q|
    ensures var ands := TopOps(q, pb, And, from, to);
      ands != [] && Eval(rule, q, pb, idx, from, to).Ok? ==>
        (Finds(rule, q, pb, idx, from, to, x) <==>
           (forall j :: 0 <= j < |ands| ==> Finds(rule, q, pb, idx, from, ands[j], x))
           && Finds(rule, q, pb, idx, ands[|ands| - 1] + |OpText(And)|, to, x))
  {
    var ands := TopOps(q, pb, And, from, to);
    if ands != [] && Eval(rule, q, pb, idx, from, to).Ok? {
      assert Eval(rule, q, pb, idx, from, to) == Junction(rule, q, pb, idx, And, ands, from, to);
      JunctionAndMeaning(rule, q, pb, idx, ands, from, to, x);
    }
  }

  /** A successful evaluation of a range without top-level ANDs but with
      top-level ORs holds exactly the documents some OR segment finds. */
  lemma EvalOrMeaning<V>(rule: StripRule, q: string, pb: seq<int>, idx: Lookup<V>, from: nat, to: int, x: V)
    requires ForwardJumps(q, pb) && to <= |q|
    ensures var ands, ors := TopOps(q, pb, And, from, to), TopOps(q, pb, Or, from, to);
      ands == [] && ors != [] && Eval(rule, q, pb, idx, from, to).Ok? ==>
        (Finds(rule, q, pb, idx, from, to, x) <==>
           (exists j :: 0 <= j < |ors| && Finds(rule, q, pb, idx, from, ors[j], x))
           || Finds(rule, q, pb, idx, ors[|ors| - 1] + |OpText(Or)|, to, x))
  {
    var ands, ors := TopOps(q, pb, And, from, to), TopOps(q, pb, Or, from, to);
    if ands == [] && ors != [] && Eval(rule, q, pb, idx, from, to).Ok? {
      assert Eval(rule, q, pb, idx, from, to) == Junction(rule, q, pb, idx, Or, ors, from, to);
      JunctionOrMeaning(rule, q, pb, idx, ors, from, to, x);
    }
  }

  // ---------------------------------------------------------------- the methods

  /** `find(pairBracket, str, from, to)`: AND first, then OR, then a bracketed
      range, then a single word. With `rule == AsWritten` the bracket test is the
      one the source performs; with `ByChar` it is the corrected one. */
  method FindRange<V>(rule: StripRule, pairBracket: seq<int>, q: string, idx: Lookup<V>, from: nat, to: int)
    returns (r: Result<set<V>, QueryError>)
    requires ForwardJumps(q, pairBracket) && to <= |q|
    ensures r == Eval(rule, q, pairBracket, idx, from, to)
    decreases Max0(to - from), 1 + Flag(rule, q, from, to), 0
  {
    EvalCases(rule, q, pairBracket, idx, from, to);
    var and := FindJunction(rule, And, pairBracket, q, idx, from, to);
    if and.Some? {
      return and.value;
    }
    var or := FindJunction(rule, Or, pairBracket, q, idx, from, to);
    if or.Some? {
      return or.value;
    }
    var strip := IsBracketed(rule, q, from, to);
    if strip {
      r := FindRange(rule, pairBracket, q, idx, from + 1, to - 1);
      return;
    }
    r := FindWord(q, idx, from, to);
  }

  /** The test of line 91 for a bracketed range: as written it compares the
      positions returned by `indexOf(int)` with the codes of '(' and ')'; the
      corrected test compares the characters at `from` and `to - 1`. */
  method IsBracketed(rule: StripRule, q: string, from: nat, to: int) returns (r: bool)
    requires to <= |q|
    ensures r <==> StripCond(rule, q, from, to)
    ensures r && to - from < 1 ==> !StripCond(rule, q, from + 1, to - 1)
  {
    match rule
    case AsWritten =>
      var open := IndexOf(q, from);
      var close := IndexOf(q, to - 1);
      r := open == '(' as int && close == ')' as int;
    case ByChar =>
      r := from < to && q[from] == '(' && q[to - 1] == ')';
  }

  /** The last case of `find(pairBracket, str, from, to)`: every character of the
      range must be a letter, and the range is then looked up as one word. */
  method FindWord<V>(q: string, idx: Lookup<V>, from: nat, to: int) returns (r: Result<set<V>, QueryError>)
    requires to <= |q|
    ensures r == Leaf(q, idx, from, to)
  {
    var i := from;
    while i < to
      invariant from <= i
      invariant FirstNonLetter(q, idx.isLetter, from, to) == FirstNonLetter(q, idx.isLetter, i, to)
    {
      if !idx.isLetter(q[i]) {
        return Err(IncorrectSymbol(q[i], i + 1));
      }
      i := i + 1;
    }
    if from > to {
      return Err(BadRange);
    }
    r := Ok(idx.get(q[from..to]));
  }

  /** `findAnd` (`op == And`) and `findOr` (`op == Or`): nothing when the range has
      no top-level operator, otherwise the merge of its segments or the first
      error met while evaluating them. */
  method FindJunction<V>(rule: StripRule, op: Op, pairBracket: seq<int>, q: string, idx: Lookup<V>, from: nat, to: int)
    returns (r: Option<Result<set<V>, QueryError>>)
    requires ForwardJumps(q, pairBracket) && to <= |q|
    ensures TopOps(q, pairBracket, op, from, to) == [] ==> r == None
    ensures TopOps(q, pairBracket, op, from, to) != [] ==>
              r == Some(Junction(rule, q, pairBracket, idx, op, TopOps(q, pairBracket, op, from, to), from, to))
    decreases Max0(to - from), 0, 3
  {
    ghost var pb := pairBracket;
    ghost var ops := TopOps(q, pb, op, from, to);
    ghost var expected := seq(|ops|, k requires 0 <= k < |ops| => Eval(rule, q, pb, idx, from, ops[k]));
    var collected, chosen, lastOp, done := CollectSegments(rule, op, pairBracket, q, idx, from, to, expected);
    if collected.Err? {
      SegmentsFail(rule, q, pb, idx, op, ops, from, to, expected, done);
      return Some(Err(collected.error));
    }
    if collected.value == [] {
      return None;
    }
    var result := FinishJunction(rule, op, pairBracket, q, idx, from, to, collected.value, chosen, lastOp, ops, expected);
    return Some(result);
  }

  /** The end of `findAnd`/`findOr` once the scan met operators: the segment after
      the last operator is evaluated and becomes the chosen set when it is
      strictly smaller, then all the sets are merged. */
  method FinishJunction<V>(rule: StripRule, op: Op, pairBracket: seq<int>, q: string, idx: Lookup<V>, from: nat, to: int,
                           sets: seq<set<V>>, chosen: nat, lastOp: nat,
                           ghost ops: seq<nat>, ghost expected: seq<Result<set<V>, QueryError>>)
    returns (r: Result<set<V>, QueryError>)
    requires ForwardJumps(q, pairBracket) && to <= |q|
    requires ops == TopOps(q, pairBracket, op, from, to) && ops != []
    requires SegmentsAre(rule, q, pairBracket, idx, from, ops, expected)
    requires |sets| == |ops| && lastOp == ops[|ops| - 1] && chosen < |ops|
    requires forall k :: 0 <= k < |ops| ==> expected[k] == Ok(sets[k])
    ensures r == Junction(rule, q, pairBracket, idx, op, ops, from, to)
    decreases Max0(to - from), 0, 2
  {
    SegmentsPrefix(rule, q, pairBracket, idx, op, ops, from, to, expected, sets);
    SegmentsLast(rule, q, pairBracket, idx, op, ops, from, to);
    var lastSet := FindRange(rule, pairBracket, q, idx, lastOp + |OpText(op)|, to);
    if lastSet.Err? {
      return lastSet;
    }
    var smallest := chosen;
    if |sets[chosen]| > |lastSet.value| {
      smallest := |sets|;
    }
    var result := MergeInto(op, sets + [lastSet.value], smallest);
    r := Ok(result);
  }

  /** The scan of `findAnd`/`findOr`: each top-level operator met ends a segment
      that starts at `from`, and that segment is evaluated at once; `chosen` is the
      first of the fewest-element results, `lastOp` the last operator's position. */
  method CollectSegments<V>(rule: StripRule, op: Op, pairBracket: seq<int>, q: string, idx: Lookup<V>, from: nat, to: int,
                            ghost expected: seq<Result<set<V>, QueryError>>)
    returns (collected: Result<seq<set<V>>, QueryError>, chosen: nat, lastOp: nat, ghost done: seq<set<V>>)
    requires ForwardJumps(q, pairBracket) && to <= |q|
    requires SegmentsAre(rule, q, pairBracket, idx, from, TopOps(q, pairBracket, op, from, to), expected)
    ensures TopOps(q, pairBracket, op, from, to) == [] ==> collected == Ok([])
    ensures collected.Err? ==>
      && |done| < |expected| && expected[|done|] == Err(collected.error)
      && forall k :: 0 <= k < |done| ==> expected[k] == Ok(done[k])
    ensures var ops := TopOps(q, pairBracket, op, from, to);
      collected.Ok? ==>
        && |collected.value| == |ops|
        && (forall k :: 0 <= k < |ops| ==> expected[k] == Ok(collected.value[k]))
        && (ops != [] ==> lastOp == ops[|ops| - 1] && chosen < |ops|)
    decreases Max0(to - from), 0, 2
  {
    ghost var ops := TopOps(q, pairBracket, op, from, to);
    var sets: seq<set<V>> := [];
    chosen, lastOp := 0, 0;
    var i: nat := from;
    while i < to
      invariant from <= i
      invariant Scanned(q, pairBracket, op, i, to, ops, expected, sets, chosen, lastOp)
      decreases Max0(to - i)
    {
      var failed;
      failed, i, sets, chosen, lastOp := ScanStep(rule, op, pairBracket, q, idx, from, to, i, sets, chosen, lastOp, ops, expected);
      if failed.Some? {
        return Err(failed.value), chosen, lastOp, sets;
      }
    }
    collected, done := Ok(sets), sets;
  }

  /** The scan has met `ops[..|sets|]` before `i`, and evaluated their segments to `sets`. */
  predicate Scanned<V>(q: string, pb: seq<int>, op: Op, i: nat, to: int, ops: seq<nat>,
                       expected: seq<Result<set<V>, QueryError>>, sets: seq<set<V>>, chosen: nat, lastOp: nat)
    requires ForwardJumps(q, pb) && to <= |q|
  {
    && |sets| <= |ops| == |expected|
    && TopOps(q, pb, op, i, to) == ops[|sets|..]
    && (sets != [] ==> lastOp == ops[|sets| - 1] && chosen < |sets|)
    && forall k :: 0 <= k < |sets| ==> expected[k] == Ok(sets[k])
  }

  /** One turn of the scan at `i`: a '(' jumps past its partner; an operator ends
      the next segment, which is evaluated. */
  method ScanStep<V>(rule: StripRule, op: Op, pairBracket: seq<int>, q: string, idx: Lookup<V>, from: nat, to: int,
                     i: nat, sets: seq<set<V>>, chosen: nat, lastOp: nat,
                     ghost ops: seq<nat>, ghost expected: seq<Result<set<V>, QueryError>>)
    returns (failed: Option<QueryError>, i': nat, sets': seq<set<V>>, chosen': nat, lastOp': nat)
    requires ForwardJumps(q, pairBracket) && to <= |q| && from <= i < to
    requires ops == TopOps(q, pairBracket, op, from, to)
    requires SegmentsAre(rule, q, pairBracket, idx, from, ops, expected)
    requires Scanned(q, pairBracket, op, i, to, ops, expected, sets, chosen, lastOp)
    ensures failed.Some? ==>
      && |sets'| < |expected| && expected[|sets'|] == Err(failed.value)
      && forall k :: 0 <= k < |sets'| ==> expected[k] == Ok(sets'[k])
    ensures failed.None? ==> i < i' && Scanned(q, pairBracket, op, i', to, ops, expected, sets', chosen', lastOp')
    decreases Max0(to - from), 0, 1
  {
    OpsAdvance(q, pairBracket, op, i, to, ops, |sets|);
    failed, sets', chosen', lastOp' := None, sets, chosen, lastOp;
    if q[i] == '(' {
      i' := pairBracket[i] + 1;
      ScannedSkip(q, pairBracket, op, i, i', to, ops, expected, sets, chosen, lastOp);
      return;
    }
    i' := i + 1;
    var hit := IsContainSubstringAt(q, i, OpText(op));
    if hit {
      lastOp' := i;
      failed, sets', chosen' := AddSegment(rule, op, pairBracket, q, idx, from, i, to, sets, chosen, lastOp, ops, expected);
    } else {
      ScannedSkip(q, pairBracket, op, i, i', to, ops, expected, sets, chosen, lastOp);
    }
  }

  /** Moving past a position that holds no operator keeps what was scanned. */
  lemma ScannedSkip<V>(q: string, pb: seq<int>, op: Op, i: nat, i': nat, to: int, ops: seq<nat>,
                       expected: seq<Result<set<V>, QueryError>>, sets: seq<set<V>>, chosen: nat, lastOp: nat)
    requires ForwardJumps(q, pb) && to <= |q|
    requires Scanned(q, pb, op, i, to, ops, expected, sets, chosen, lastOp)
    requires TopOps(q, pb, op, i', to) == TopOps(q, pb, op, i, to)
    ensures Scanned(q, pb, op, i', to, ops, expected, sets, chosen, lastOp)
  {
  }

  /** An operator met at `i` ends the next segment: the range from `from` up to
      `i` is evaluated, and on success its result is appended to `sets` and
      becomes the chosen set when it is strictly smaller than the chosen one. */
  method AddSegment<V>(rule: StripRule, op: Op, pairBracket: seq<int>, q: string, idx: Lookup<V>, from: nat, i: nat, to: int,
                       sets: seq<set<V>>, chosen: nat, lastOp: nat,
                       ghost ops: seq<nat>, ghost expected: seq<Result<set<V>, QueryError>>)
    returns (failed: Option<QueryError>, sets': seq<set<V>>, chosen': nat)
    requires ForwardJumps(q, pairBracket) && to <= |q| && from <= i < to
    requires forall j :: 0 <= j < |ops| ==> ops[j] <= |q|
    requires SegmentsAre(rule, q, pairBracket, idx, from, ops, expected)
    requires Scanned(q, pairBracket, op, i, to, ops, expected, sets, chosen, lastOp)
    requires |sets| < |ops| && ops[|sets|] == i && TopOps(q, pairBracket, op, i + 1, to) == ops[|sets| + 1..]
    ensures failed.Some? ==>
      && sets' == sets && |sets| < |expected| && expected[|sets|] == Err(failed.value)
    ensures failed.None? ==> Scanned(q, pairBracket, op, i + 1, to, ops, expected, sets', chosen', i)
    decreases Max0(to - from), 0, 0
  {
    var segment := FindRange(rule, pairBracket, q, idx, from, i);
    assert segment == expected[|sets|];
    if segment.Err? {
      return Some(segment.error), sets, chosen;
    }
    PrefixSnoc(expected, sets, segment.value);
    chosen' := chosen;
    if sets == [] || |sets[chosen]| > |segment.value| {
      chosen' := |sets|;
    }
    sets' := sets + [segment.value];
    failed := None;
  }

  /** The results met so far, then one more. */
  lemma PrefixSnoc<T, E>(expected: seq<Result<T, E>>, found: seq<T>, x: T)
    requires |found| < |expected| && expected[|found|] == Ok(x)
    requires forall k :: 0 <= k < |found| ==> expected[k] == Ok(found[k])
    ensures forall k :: 0 <= k < |found| + 1 ==> expected[k] == Ok((found + [x])[k])
  {
  }

  /** The merge loop of `findAnd`/`findOr`: starting from the chosen set, every
      other set is intersected (`retainAll`) or united (`addAll`) into it. */
  method MergeInto<V>(op: Op, sets: seq<set<V>>, chosen: nat) returns (result: set<V>)
    requires chosen < |sets|
    ensures result == Merge(op, sets)
  {
    result := sets[chosen];
    for k := 0 to |sets|
      invariant result == FoldWith(op, sets[chosen], sets[..k])
    {
      if k == chosen {
        SkipChosen(op, sets, k);
        continue;
      }
      assert sets[..k + 1][..k] == sets[..k];
      result := Combine(op, result, sets[k]);
    }
    assert sets[..|sets|] == sets;
    FoldWithMerge(op, sets, chosen);
  }

  /** `find(String)`: the query is validated, filling the pair table, then it is
      evaluated as a whole under the bracket test `rule`. */
  method Find<V>(rule: StripRule, q: string, idx: Lookup<V>) returns (r: Result<set<V>, QueryError>)
    requires NoStrayOpen(q, idx.isLetter)
    ensures r == SearchWith(rule, q, idx)
  {
    var table := PairBrackets(q, idx.isLetter);
    if table.Err? {
      return Err(table.error);
    }
    ValidatedTable(q, idx.isLetter);
    r := FindRange(rule, table.value[..], q, idx, 0, |q|);
  }

  /** The validation loop of `find(String)`: a stack of pending '(' positions
      fills the pair table, and the first character out of place stops it. */
  method PairBrackets(q: string, isLetter: char -> bool) returns (r: Result<array<int>, QueryError>)
    ensures r.Err? <==> Validate(q, isLetter).Err?
    ensures r.Err? ==> r.error == Validate(q, isLetter).error
    ensures r.Ok? ==> r.value[..] == Validate(q, isLetter).value.pairBracket
  {
    var pairBracket := new int[|q|](_ => 0);
    var opens := new int[|q|](_ => 0);
    var lastOpen := -1;
    assert pairBracket[..] == seq(|q|, _ => 0);
    ghost var b := Brackets(pairBracket[..], []);
    for i := 0 to |q|
      invariant -1 <= lastOpen < i
      invariant Scan(q, isLetter, i) == Ok(b)
      invariant pairBracket[..] == b.pairBracket && opens[..lastOpen + 1] == b.opens
    {
      assert Scan(q, isLetter, i + 1) == Step(q, isLetter, b, i);
      var c := q[i];
      if c == '(' {
        lastOpen := lastOpen + 1;
        opens[lastOpen] := i;
        b := Brackets(b.pairBracket, b.opens + [i]);
      } else if c == ')' {
        if lastOpen < 0 {
          ScanStops(q, isLetter, i + 1, |q|);
          return Err(NoMatchingOpen);
        }
        lastOpen, b := CloseBracket(pairBracket, opens, lastOpen, i, b);
      } else if !IsOperatorChar(c) && !isLetter(c) {
        ScanStops(q, isLetter, i + 1, |q|);
        return Err(IncorrectSymbol(c, i + 1));
      }
    }
    return Ok(pairBracket);
  }

  /** A ')' at `i` closes the latest pending '(': the two get each other's
      position in the table, and the stack entry is cleared. */
  method CloseBracket(pairBracket: array<int>, opens: array<int>, lastOpen: int, i: nat, ghost b: Brackets)
    returns (lastOpen': int, ghost b': Brackets)
    requires pairBracket != opens && 0 <= lastOpen < opens.Length && i < pairBracket.Length
    requires pairBracket[..] == b.pairBracket && opens[..lastOpen + 1] == b.opens
    requires forall k :: 0 <= k < |b.opens| ==> 0 <= b.opens[k] < i
    modifies pairBracket, opens
    ensures lastOpen' == lastOpen - 1
    ensures b' == Brackets(b.pairBracket[b.opens[lastOpen] := i][i := b.opens[lastOpen]], b.opens[..lastOpen])
    ensures pairBracket[..] == b'.pairBracket && opens[..lastOpen' + 1] == b'.opens
  {
    var o := opens[lastOpen];
    pairBracket[o] := i;
    pairBracket[i] := o;
    opens[lastOpen] := -1;
    lastOpen' := lastOpen - 1;
    b' := Brackets(b.pairBracket[o := i][i := o], b.opens[..lastOpen]);
  }
}
