/** The matcher on a concrete token list: `x([])`, a name followed by a
    bracket pair nested in another. */
module MatcherExamples {
  import opened PyBuiltins
  import opened Tokens
  import opened BracketMatcher
  import opened MatcherProperties

  const NestedLine: string := "x([])\n"

  /** The tokens of `x([])`, all on line 1. */
  const Nested: seq<Token> := [
    Token(1, "x", Pos(1, 0), Pos(1, 1), NestedLine),
    Token(OP, "(", Pos(1, 1), Pos(1, 2), NestedLine),
    Token(OP, "[", Pos(1, 2), Pos(1, 3), NestedLine),
    Token(OP, "]", Pos(1, 3), Pos(1, 4), NestedLine),
    Token(OP, ")", Pos(1, 4), Pos(1, 5), NestedLine)]

  /** Which tokens of `x([])` are brackets. */
  lemma NestedKinds()
    ensures !IsOpener(Nested[0]) && !IsCloser(Nested[0])
    ensures IsOpener(Nested[1]) && IsOpener(Nested[2])
    ensures IsCloser(Nested[3]) && IsCloser(Nested[4])
    ensures !IsCloser(Nested[1]) && !IsCloser(Nested[2])
  {
  }

  /** The openers and closers before the `]`. */
  lemma NestedBracketsBeforeClose()
    ensures Closers(Nested, 3) == [] && Openers(Nested, 3) == [1, 2]
  {
    NestedKinds();
    assert Closers(Nested, 1) == Closers(Nested, 0) + [] == [];
    assert Closers(Nested, 2) == Closers(Nested, 1) + [] == [];
    assert Closers(Nested, 3) == Closers(Nested, 2) + [] == [];
    assert Openers(Nested, 1) == Openers(Nested, 0) + [] == [];
    assert Openers(Nested, 2) == Openers(Nested, 1) + [1] == [1];
    assert Openers(Nested, 3) == Openers(Nested, 2) + [2] == [1, 2];
  }

  /** Two increasing opener indexes below 3 that cover both openers are
      those openers. */
  lemma NestedStack(stack: seq<nat>)
    requires StackBelow(Nested, 3, stack) && |stack| == 2 && 1 in stack && 2 in stack
    ensures stack == [1, 2]
  {
    NestedKinds();
    assert stack[0] < stack[1] < 3;
    assert stack[0] != 0 by {
      assert IsOpener(Nested[stack[0]]);
    }
  }

  /** Before the `]` the only state meeting the scan invariant has both
      openers waiting, with `[` on top. */
  lemma NestedStateBeforeClose(stack: seq<nat>, pairs: seq<Match>)
    requires ScanInv(Nested, 3, stack, pairs)
    ensures stack == [1, 2] && pairs == []
  {
    NestedKinds();
    NestedBracketsBeforeClose();
    assert |pairs| == |Closes(pairs)| == 0;
    assert Covered(Nested, 3, stack, pairs);
    assert 1 in stack && 2 in stack;
    NestedStack(stack);
  }

  /** The `]` agrees with the `[` waiting on top, so the closer is no
      kind mismatch. */
  lemma NestedNoMismatch()
    ensures !FailedAt(Nested, KindMismatch(3))
  {
    forall stack, pairs | ScanInv(Nested, 3, stack, pairs)
      ensures !StopsAt(Nested, KindMismatch(3), stack)
    {
      NestedStateBeforeClose(stack, pairs);
      AgreeingSymbols("[", "]");
    }
  }

  /** The scan steps over the name and pushes both openers. */
  lemma NestedOpens()
    ensures Scan(Nested, 0, [], []) == Scan(Nested, 3, [1, 2], [])
  {
    NestedKinds();
    assert !LacksNext(Nested, 1) && !LacksNext(Nested, 2);
    assert Scan(Nested, 0, [], []) == Scan(Nested, 1, [], []);
    assert [] + [1] == [1] && [1] + [2] == [1, 2];
    assert Scan(Nested, 1, [], []) == Scan(Nested, 2, [1], []);
  }

  /** The `]` pops the `[`. */
  lemma NestedClosesBracket()
    ensures Scan(Nested, 3, [1, 2], []) == Scan(Nested, 4, [1], [Match(2, 3)])
  {
    NestedKinds();
    AgreeingSymbols("[", "]");
    assert [1, 2][..1] == [1] && [] + [Match(2, 3)] == [Match(2, 3)];
  }

  /** The `)` pops the `(`, which ends the scan. */
  lemma NestedClosesParen()
    ensures Scan(Nested, 4, [1], [Match(2, 3)]) == Ok([Match(2, 3), Match(1, 4)])
  {
    NestedKinds();
    AgreeingSymbols("(", ")");
    assert [1][..0] == [] && [Match(2, 3)] + [Match(1, 4)] == [Match(2, 3), Match(1, 4)];
  }

  /** The scan of `x([])` matches both pairs, inner first. */
  lemma NestedMatches()
    ensures MatchTokens(Nested) == Ok([Match(2, 3), Match(1, 4)])
  {
    NestedOpens();
    NestedClosesBracket();
    NestedClosesParen();
  }
}
