/** Source coordinates and the tokens the tokenizer hands to the plugin. */
module Tokens {
  import opened PyBuiltins

  /** A `(line, column)` position: lines count from 1, columns from 0. */
  datatype Pos = Pos(line: int, col: int)

  /** The position as the Python tuple `(line, col)`. */
  function AsTuple(p: Pos): seq<int>
  {
    [p.line, p.col]
  }

  /** `p <= q` on the tuples. */
  predicate PosLe(p: Pos, q: Pos)
  {
    TupleCompare(AsTuple(p), AsTuple(q)) <= 0
  }

  /** `p < q` on the tuples. */
  predicate PosLt(p: Pos, q: Pos)
  {
    TupleCompare(AsTuple(p), AsTuple(q)) < 0
  }

  /** `p >= q` on the tuples. */
  predicate PosGe(p: Pos, q: Pos)
  {
    TupleCompare(AsTuple(p), AsTuple(q)) >= 0
  }

  /** Tuple order on positions is the lexicographic order: first by line,
      then by column. */
  lemma PosOrderIsLexicographic(p: Pos, q: Pos)
    ensures PosLe(p, q) <==> p.line < q.line || (p.line == q.line && p.col <= q.col)
    ensures PosLt(p, q) <==> p.line < q.line || (p.line == q.line && p.col < q.col)
    ensures PosGe(q, p) <==> PosLe(p, q)
  {
    TupleCompareAntisymmetric(AsTuple(p), AsTuple(q));
    var a, b := AsTuple(p), AsTuple(q);
    if a[0] == b[0] {
      assert a[1..] == [p.col] && b[1..] == [q.col];
      assert TupleCompare(a, b) == TupleCompare([p.col], [q.col]);
      if p.col == q.col {
        assert TupleCompare([p.col], [q.col]) == 0;
      } else {
        assert TupleCompare([p.col], [q.col]) == if p.col < q.col then -1 else 1;
      }
    }
  }

  /** A lexical token: `type`, `string`, `start`, `end` and the physical
      `line` it was read from (normally ending in its line break). */
  datatype Token = Token(kind: int, text: string, start: Pos, end: Pos, line: string)

  /** The token type number of operators and punctuation. */
  const OP: int := 54

  const OpenList: seq<string> := ["[", "{", "("]
  const CloseList: seq<string> := ["]", "}", ")"]

  predicate IsOpener(t: Token)
  {
    t.kind == OP && t.text in OpenList
  }

  predicate IsCloser(t: Token)
  {
    t.kind == OP && t.text in CloseList
  }

  /** `list.index(s)`: the first position of `s` in `list`. */
  function IndexOf(list: seq<string>, s: string): (r: nat)
    requires s in list
    ensures r < |list| && list[r] == s
    ensures forall k :: 0 <= k < r ==> list[k] != s
  {
    if list[0] == s then 0 else 1 + IndexOf(list[1..], s)
  }

  /** The opening and closing symbols sit at the same position of their lists. */
  predicate Agree(open: string, close: string)
    requires open in OpenList && close in CloseList
  {
    IndexOf(OpenList, open) == IndexOf(CloseList, close)
  }

  /** The symbols that agree are exactly `[]`, `{}` and `()`. */
  lemma AgreeingSymbols(open: string, close: string)
    requires open in OpenList && close in CloseList
    ensures Agree(open, close) <==>
              (open == "[" && close == "]") || (open == "{" && close == "}") ||
              (open == "(" && close == ")")
  {
    assert OpenList[0] == "[" && OpenList[1] == "{" && OpenList[2] == "(";
    assert CloseList[0] == "]" && CloseList[1] == "}" && CloseList[2] == ")";
  }

  /** No symbol both opens and closes. */
  lemma OpenerIsNotCloser(t: Token)
    ensures !(IsOpener(t) && IsCloser(t))
  {
  }
}
