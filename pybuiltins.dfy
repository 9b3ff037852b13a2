/** The few pieces of Python's built-in semantics the checker relies on:
    failure-carrying results, tuple comparison, slicing with clamped and
    negative bounds, list indexing with negative indexes, and
    `str.split("\n")` / `"\n".join(...)`. */
module PyBuiltins {

  datatype Option<T> = None | Some(value: T)

  datatype Result<T, E> = Ok(value: T) | Err(error: E)

  // ---------------------------------------------------------------------
  // Tuple comparison

  /** Python's comparison of two tuples of ints: the first position where
      the items differ decides; when one tuple is a prefix of the other,
      the shorter one is smaller. Returns -1, 0 or 1. */
  function TupleCompare(a: seq<int>, b: seq<int>): (r: int)
    ensures -1 <= r <= 1
    ensures r == 0 <==> a == b
    decreases |a|
  {
    if |a| == 0 || |b| == 0 then
      (if |a| == |b| then 0 else if |a| == 0 then -1 else 1)
    else if a[0] != b[0] then
      (if a[0] < b[0] then -1 else 1)
    else
      assert a == [a[0]] + a[1..] && b == [b[0]] + b[1..];
      TupleCompare(a[1..], b[1..])
  }

  /** Swapping the operands negates the comparison. */
  lemma {:induction false} TupleCompareAntisymmetric(a: seq<int>, b: seq<int>)
    ensures TupleCompare(b, a) == -TupleCompare(a, b)
    decreases |a|
  {
    if |a| > 0 && |b| > 0 && a[0] == b[0] {
      TupleCompareAntisymmetric(a[1..], b[1..]);
    }
  }

  // ---------------------------------------------------------------------
  // Slicing and indexing

  /** The position a slice bound `i` denotes in a sequence of length `n`:
      a negative bound counts from the end, and the result is clamped to
      `0..n`. */
  function SliceBound(n: nat, i: int): (r: nat)
    ensures r <= n
  {
    if i < 0 then (if n + i < 0 then 0 else n + i)
    else if i > n then n
    else i
  }

  /** `s[:i]` */
  function Prefix<T>(s: seq<T>, i: int): seq<T>
  {
    s[..SliceBound(|s|, i)]
  }

  /** `s[i:]` */
  function Suffix<T>(s: seq<T>, i: int): seq<T>
  {
    s[SliceBound(|s|, i)..]
  }

  /** Whether `xs[i]` is defined for a list of length `n`; a negative
      index counts from the end. Otherwise Python raises IndexError. */
  predicate ValidIndex(n: nat, i: int)
  {
    -(n as int) <= i < n
  }

  /** The position that a valid (possibly negative) index denotes. */
  function NormIndex(n: nat, i: int): (r: nat)
    requires ValidIndex(n, i)
    ensures r < n
    ensures 0 <= i ==> r == i
  {
    if i < 0 then n + i else i
  }

  // ---------------------------------------------------------------------
  // Splitting and joining on line breaks

  /** `s.split("\n")`: the pieces of `s` between line breaks; there is
      always one more piece than there are line breaks. */
  function Split(s: string): (r: seq<string>)
    ensures |r| >= 1
    ensures forall k :: 0 <= k < |r| ==> '\n' !in r[k]
  {
    if |s| == 0 then [""]
    else
      var rest := Split(s[1..]);
      if s[0] == '\n' then [""] + rest
      else [[s[0]] + rest[0]] + rest[1..]
  }

  /** `"\n".join(lines)` */
  function Join(lines: seq<string>): string
  {
    if |lines| == 0 then ""
    else if |lines| == 1 then lines[0]
    else lines[0] + "\n" + Join(lines[1..])
  }

  /** Joining the pieces of a split gives back the text. */
  lemma {:induction false} JoinSplit(s: string)
    ensures Join(Split(s)) == s
  {
    if |s| > 0 {
      var rest := Split(s[1..]);
      JoinSplit(s[1..]);
      if s[0] == '\n' {
        assert Join([""] + rest) == "" + "\n" + Join(rest);
      } else if |rest| == 1 {
        assert Join([[s[0]] + rest[0]] + rest[1..]) == [s[0]] + rest[0];
      } else {
        var first := [s[0]] + rest[0];
        assert Join([first] + rest[1..]) == first + "\n" + Join(rest[1..]);
        assert Join(rest) == rest[0] + "\n" + Join(rest[1..]);
      }
      assert s == [s[0]] + s[1..];
    }
  }

  /** A line without line breaks splits into itself. */
  lemma {:induction false} SplitPlainLine(a: string)
    requires '\n' !in a
    ensures Split(a) == [a]
  {
    if |a| > 0 {
      SplitPlainLine(a[1..]);
      assert a == [a[0]] + a[1..];
    }
  }

  /** Splitting `a + "\n" + b` cuts at the first line break when `a` has none. */
  lemma {:induction false} SplitAtFirstBreak(a: string, b: string)
    requires '\n' !in a
    ensures Split(a + "\n" + b) == [a] + Split(b)
  {
    if |a| == 0 {
      assert a + "\n" + b == "\n" + b;
      assert ("\n" + b)[1..] == b;
    } else {
      SplitAtFirstBreak(a[1..], b);
      assert (a + "\n" + b)[1..] == a[1..] + "\n" + b;
      assert a == [a[0]] + a[1..];
    }
  }

  /** Splitting the join of lines that hold no line break gives back the
      lines: the number of lines is preserved. */
  lemma {:induction false} SplitJoin(lines: seq<string>)
    requires |lines| >= 1
    requires forall k :: 0 <= k < |lines| ==> '\n' !in lines[k]
    ensures Split(Join(lines)) == lines
  {
    if |lines| == 1 {
      SplitPlainLine(lines[0]);
    } else {
      SplitJoin(lines[1..]);
      SplitAtFirstBreak(lines[0], Join(lines[1..]));
      assert lines == [lines[0]] + lines[1..];
    }
  }
}
