/** `bulk_string_to_double` of src/simd/streaming_simd.cpp: the blocked AVX2 path against the
scalar one. `std::stod` and `std::from_chars` are two abstract parsers. */
module BulkConvert {

  import opened Common

  datatype Json = Number(num: real) | Text(text: string) | Other

  /** A parser rejects with None, as an exception or an error code does. */
  type Parser = string -> Option<real>

  const WIDTH: nat := 4

  /** What one element contributes under a given parser. */
  function Convert(j: Json, parse: Parser): Option<real> {
    match j
    case Number(x) => Some(x)
    case Text(s) => if s == "" then None else parse(s)
    case Other => None
  }

  /** Length of the part that whole blocks cover. */
  function Blocked(n: nat): nat { WIDTH * (n / WIDTH) }

  /** The values of js[..n]: indices below `split` use `low`, the rest `high`. */
  function Values(js: seq<Json>, n: nat, split: nat, low: Parser, high: Parser): (r: seq<real>)
    requires n <= |js|
    ensures |r| <= n
  {
    if n == 0 then []
    else
      var front := Values(js, n - 1, split, low, high);
      match Convert(js[n - 1], if n - 1 < split then low else high)
      case Some(x) => front + [x]
      case None => front
  }

  function Scalar(js: seq<Json>, stod: Parser): seq<real> { Values(js, |js|, 0, stod, stod) }

  function Avx2(js: seq<Json>, fromChars: Parser, stod: Parser): seq<real> {
    Values(js, |js|, Blocked(|js|), fromChars, stod)
  }

  lemma {:induction false} ValuesGrow(js: seq<Json>, m: nat, n: nat, split: nat, low: Parser, high: Parser)
    requires m <= n <= |js|
    ensures Values(js, m, split, low, high) <= Values(js, n, split, low, high)
  {
    if m < n { ValuesGrow(js, m, n - 1, split, low, high); }
  }

  /** The two paths give the same values whenever the parsers agree on the strings that
      whole blocks cover. */
  lemma {:induction false} AgreeOnInput(js: seq<Json>, n: nat, fromChars: Parser, stod: Parser)
    requires n <= |js|
    requires forall i :: 0 <= i < Blocked(|js|) && js[i].Text? && js[i].text != "" ==> fromChars(js[i].text) == stod(js[i].text)
    ensures Values(js, n, Blocked(|js|), fromChars, stod) == Values(js, n, 0, stod, stod)
  {
    if n > 0 { AgreeOnInput(js, n - 1, fromChars, stod); }
  }

  /** Four copies of one string tell two parsers apart. */
  lemma Witness(s: string, fromChars: Parser, stod: Parser)
    requires s != "" && fromChars(s) != stod(s)
    ensures var js := [Text(s), Text(s), Text(s), Text(s)]; Avx2(js, fromChars, stod) != Scalar(js, stod)
  {
    var js := [Text(s), Text(s), Text(s), Text(s)];
    FirstValue(js, Blocked(4), fromChars, stod);
    FirstValue(js, 0, stod, stod);
  }

  lemma FirstValue(js: seq<Json>, split: nat, low: Parser, high: Parser)
    requires |js| == 4 && js[0].Text? && js[0].text != ""
    requires forall i :: 0 <= i < 4 ==> js[i] == js[0]
    requires split >= 4 || low == high
    ensures var v := Values(js, 4, split, low, high);
      if low(js[0].text).Some? then |v| == 4 && v[0] == low(js[0].text).value else v == []
  {
    var one := Values(js, 1, split, low, high);
    var two := Values(js, 2, split, low, high);
    var three := Values(js, 3, split, low, high);
    assert one == if low(js[0].text).Some? then [low(js[0].text).value] else [];
    assert |two| == 2 * |one| && |three| == 3 * |one|;
    ValuesGrow(js, 1, 4, split, low, high);
  }

  /** The blocked path refines the scalar one on every input exactly when the two parsers
      agree on every non-empty string. */
  lemma EquivalentIffParsersAgree(fromChars: Parser, stod: Parser)
    ensures (forall js :: Avx2(js, fromChars, stod) == Scalar(js, stod))
       <==> (forall s :: s != "" ==> fromChars(s) == stod(s))
  {
    if forall s :: s != "" ==> fromChars(s) == stod(s) {
      forall js ensures Avx2(js, fromChars, stod) == Scalar(js, stod) {
        AgreeOnInput(js, |js|, fromChars, stod);
      }
    } else {
      var s :| s != "" && fromChars(s) != stod(s);
      Witness(s, fromChars, stod);
    }
  }

  /** Element j contributes x: a number itself, a non-empty text what it parses to. */
  predicate Gives(j: Json, parse: Parser, x: real) {
    j == Number(x) || (j.Text? && j.text != "" && parse(j.text) == Some(x))
  }

  /** The parser in charge of index i. */
  function ParserAt(i: nat, split: nat, low: Parser, high: Parser): Parser { if i < split then low else high }

  /** `values` are what the elements at the indices `picks` give, in order, and no other
      element among the first n gives anything. */
  ghost predicate Picked(js: seq<Json>, n: nat, split: nat, low: Parser, high: Parser, values: seq<real>, picks: seq<nat>) {
    && n <= |js| && |picks| == |values|
    && (forall k :: 0 <= k < |picks| ==> picks[k] < n && Gives(js[picks[k]], ParserAt(picks[k], split, low, high), values[k]))
    && (forall k, l :: 0 <= k < l < |picks| ==> picks[k] < picks[l])
    && (forall i, x :: 0 <= i < n && i !in picks ==> !Gives(js[i], ParserAt(i, split, low, high), x))
  }

  lemma ConvertGives(j: Json, parse: Parser, x: real)
    ensures Convert(j, parse) == Some(x) <==> Gives(j, parse, x)
  {
  }

  lemma {:induction false} ValuesPicked(js: seq<Json>, n: nat, split: nat, low: Parser, high: Parser) returns (picks: seq<nat>)
    requires n <= |js|
    ensures Picked(js, n, split, low, high, Values(js, n, split, low, high), picks)
  {
    picks := [];
    if n > 0 {
      var i, parse := n - 1, ParserAt(n - 1, split, low, high);
      picks := ValuesPicked(js, i, split, low, high);
      forall x { ConvertGives(js[i], parse, x); }
      if Convert(js[i], parse).Some? {
        picks := picks + [i];
      }
    }
  }

  /** The output holds the given values, and what it held before after them. */
  ghost predicate Holds(now: seq<real>, before: seq<real>, values: seq<real>) {
    |values| <= |now| == |before| && now == values + before[|values|..]
  }

  lemma OutputPicked(now: seq<real>, before: seq<real>, js: seq<Json>, split: nat, low: Parser, high: Parser)
    requires Holds(now, before, Values(js, |js|, split, low, high))
    ensures exists picks ::
      Picked(js, |js|, split, low, high, now[..|Values(js, |js|, split, low, high)|], picks)
  {
    var values := Values(js, |js|, split, low, high);
    var picks := ValuesPicked(js, |js|, split, low, high);
    assert now[..|values|] == values;
  }

  lemma HoldsOneMore(now: seq<real>, before: seq<real>, values: seq<real>, x: real)
    requires Holds(now, before, values) && |values| < |now|
    ensures Holds(now[|values| := x], before, values + [x])
  {
  }

  /** The scalar loop over js[from..]; whatever precedes has been converted already. */
  method ScalarLoop(js: seq<Json>, from: nat, output: array<real>, start: nat, stod: Parser,
                    ghost before: seq<real>, ghost split: nat, ghost low: Parser) returns (converted: nat)
    requires split <= from <= |js| && start == |Values(js, from, split, low, stod)|
    requires Holds(output[..], before, Values(js, from, split, low, stod))
    requires |Values(js, |js|, split, low, stod)| <= output.Length
    modifies output
    ensures Holds(output[..], before, Values(js, |js|, split, low, stod))
    ensures converted == |Values(js, |js|, split, low, stod)|
  {
    converted := start;
    for i := from to |js|
      invariant converted == |Values(js, i, split, low, stod)|
      invariant Holds(output[..], before, Values(js, i, split, low, stod))
    {
      ValuesGrow(js, i + 1, |js|, split, low, stod);
      ghost var so, now := Values(js, i, split, low, stod), output[..];
      if js[i].Number? {
        HoldsOneMore(now, before, so, js[i].num);
        output[converted] := js[i].num;
        converted := converted + 1;
      } else if js[i].Text? && js[i].text != "" {
        var x := stod(js[i].text);
        if x.Some? {
          HoldsOneMore(now, before, so, x.value);
          output[converted] := x.value;
          converted := converted + 1;
        }
      }
    }
  }

  /** The scalar path. The output needs room for the values that convert. */
  method BulkScalar(js: seq<Json>, output: array<real>, stod: Parser) returns (converted: nat)
    requires |Scalar(js, stod)| <= output.Length
    modifies output
    ensures Holds(output[..], old(output[..]), Scalar(js, stod))
    ensures converted == |Scalar(js, stod)|
    ensures exists picks :: Picked(js, |js|, 0, stod, stod, output[..][..converted], picks)
  {
    converted := ScalarLoop(js, 0, output, 0, stod, output[..], 0, stod);
    OutputPicked(output[..], old(output[..]), js, 0, stod, stod);
  }

  /** The packing loop of one block. */
  method Pack(js: seq<Json>, from: nat, output: array<real>, start: nat, fromChars: Parser,
              ghost before: seq<real>, ghost split: nat, ghost stod: Parser) returns (converted: nat)
    requires from + WIDTH <= split <= |js| && start == |Values(js, from, split, fromChars, stod)|
    requires Holds(output[..], before, Values(js, from, split, fromChars, stod))
    requires |Values(js, |js|, split, fromChars, stod)| <= output.Length
    modifies output
    ensures Holds(output[..], before, Values(js, from + WIDTH, split, fromChars, stod))
    ensures converted == |Values(js, from + WIDTH, split, fromChars, stod)|
  {
    converted := start;
    var valid, values := Extract(js, from, fromChars);
    for i := 0 to WIDTH
      modifies output
      invariant converted == |Values(js, from + i, split, fromChars, stod)|
      invariant Holds(output[..], before, Values(js, from + i, split, fromChars, stod))
    {
      ValuesGrow(js, from + i + 1, |js|, split, fromChars, stod);
      ghost var so, now := Values(js, from + i, split, fromChars, stod), output[..];
      if valid[i] {
        HoldsOneMore(now, before, so, values[i]);
        output[converted] := values[i];
        converted := converted + 1;
      }
    }
  }

  /** The AVX2 path: whole blocks of four through local buffers, then the scalar loop. */
  method BulkAvx2(js: seq<Json>, output: array<real>, fromChars: Parser, stod: Parser) returns (converted: nat)
    requires |Avx2(js, fromChars, stod)| <= output.Length
    modifies output
    ensures Holds(output[..], old(output[..]), Avx2(js, fromChars, stod))
    ensures converted == |Avx2(js, fromChars, stod)|
    ensures exists picks :: Picked(js, |js|, 4 * (|js| / 4), fromChars, stod, output[..][..converted], picks)
  {
    ghost var before, split := output[..], Blocked(|js|);
    converted := 0;
    var processed := 0;
    ghost var blocks := 0;
    while processed + WIDTH <= |js|
      invariant processed == WIDTH * blocks && blocks <= |js| / WIDTH
      invariant converted == |Values(js, processed, split, fromChars, stod)|
      invariant Holds(output[..], before, Values(js, processed, split, fromChars, stod))
    {
      converted := Pack(js, processed, output, converted, fromChars, before, split, stod);
      processed := processed + WIDTH;
      blocks := blocks + 1;
    }
    assert processed == split;
    converted := ScalarLoop(js, processed, output, converted, stod, before, split, fromChars);
    OutputPicked(output[..], before, js, split, fromChars, stod);
  }

  /** The extraction loop of one block. */
  method Extract(js: seq<Json>, from: nat, fromChars: Parser) returns (valid: array<bool>, values: array<real>)
    requires from + WIDTH <= |js|
    ensures fresh(valid) && fresh(values) && valid.Length == values.Length == WIDTH
    ensures forall i :: 0 <= i < WIDTH ==>
      (if valid[i] then Some(values[i]) else None) == Convert(js[from + i], fromChars)
  {
    valid, values := new bool[WIDTH](_ => false), new real[WIDTH](_ => 0.0);
    for i := 0 to WIDTH
      invariant forall k :: 0 <= k < i ==>
        (if valid[k] then Some(values[k]) else None) == Convert(js[from + k], fromChars)
      invariant forall k :: i <= k < WIDTH ==> !valid[k]
    {
      if js[from + i].Number? {
        values[i] := js[from + i].num;
        valid[i] := true;
      } else if js[from + i].Text? && js[from + i].text != "" {
        var x := fromChars(js[from + i].text);
        valid[i] := x.Some?;
        if x.Some? {
          values[i] := x.value;
        }
      }
    }
  }
}
