/** What the bracket matcher guarantees: each closer is paired with the
    most recent unmatched opener of the same kind, one pair per closer in
    closer order, and the pairs nest properly. */
module MatcherProperties {
  import opened PyBuiltins
  import opened Tokens
  import opened BracketMatcher

  /** The opener indexes of a list of matches. */
  function Opens(ms: seq<Match>): (r: seq<nat>)
    ensures |r| == |ms|
  {
    seq(|ms|, k requires 0 <= k < |ms| => ms[k].open)
  }

  /** The closer indexes of a list of matches. */
  function Closes(ms: seq<Match>): (r: seq<nat>)
    ensures |r| == |ms|
  {
    seq(|ms|, k requires 0 <= k < |ms| => ms[k].close)
  }

  /** The indexes below `n` of the closing bracket tokens, in order. */
  function Closers(tokens: seq<Token>, n: nat): seq<nat>
    requires n <= |tokens|
  {
    if n == 0 then [] else Closers(tokens, n - 1) + (if IsCloser(tokens[n - 1]) then [n - 1] else [])
  }

  /** The indexes below `n` of the opening bracket tokens, in order. */
  function Openers(tokens: seq<Token>, n: nat): seq<nat>
    requires n <= |tokens|
  {
    if n == 0 then [] else Openers(tokens, n - 1) + (if IsOpener(tokens[n - 1]) then [n - 1] else [])
  }

  ghost predicate Increasing(s: seq<nat>)
  {
    forall a, b :: 0 <= a < b < |s| ==> s[a] < s[b]
  }

  ghost predicate Distinct(s: seq<nat>)
  {
    forall a, b :: 0 <= a < b < |s| ==> s[a] != s[b]
  }

  /** A match joins an opener to a later closer of the same kind. */
  predicate Agreeing(tokens: seq<Token>, m: Match)
  {
    m.open < m.close < |tokens| && IsOpener(tokens[m.open]) && IsCloser(tokens[m.close]) &&
    Agree(tokens[m.open].text, tokens[m.close].text)
  }

  /** Every opener strictly inside a match is matched by a closer that
      comes before the match's own closer: the match took the most recent
      opener still unmatched. */
  ghost predicate Innermost(tokens: seq<Token>, ms: seq<Match>)
  {
    forall k, o :: 0 <= k < |ms| && ms[k].open < o < ms[k].close && o < |tokens| && IsOpener(tokens[o]) ==>
      MatchedBefore(ms, o, ms[k].close)
  }

  /** The opener at `o` is matched by a closer before `c`. */
  ghost predicate MatchedBefore(ms: seq<Match>, o: nat, c: nat)
  {
    exists n :: 0 <= n < |ms| && ms[n].open == o && ms[n].close < c
  }

  lemma MatchedBeforeAppend(ms: seq<Match>, m: Match, o: nat, c: nat)
    requires MatchedBefore(ms, o, c)
    ensures MatchedBefore(ms + [m], o, c)
  {
    var n :| 0 <= n < |ms| && ms[n].open == o && ms[n].close < c;
    assert (ms + [m])[n] == ms[n];
  }

  /** The waiting openers are increasing indexes below `i`. */
  ghost predicate StackBelow(tokens: seq<Token>, i: nat, stack: seq<nat>)
  {
    i <= |tokens| &&
    (forall k :: 0 <= k < |stack| ==>
       stack[k] < i && IsOpener(tokens[stack[k]]) && !LacksNext(tokens, stack[k])) &&
    Increasing(stack)
  }

  /** The matches found pair agreeing tokens below `i`. */
  ghost predicate PairsBelow(tokens: seq<Token>, i: nat, pairs: seq<Match>)
  {
    forall k :: 0 <= k < |pairs| ==>
      Agreeing(tokens, pairs[k]) && pairs[k].close < i && Readable(tokens, pairs[k])
  }

  /** Every opener below `i` is waiting or matched. */
  ghost predicate Covered(tokens: seq<Token>, i: nat, stack: seq<nat>, pairs: seq<Match>)
    requires i <= |tokens|
  {
    forall o :: 0 <= o < i && IsOpener(tokens[o]) ==> o in stack || o in Opens(pairs)
  }

  /** No opener is both waiting and matched. */
  ghost predicate Apart(stack: seq<nat>, pairs: seq<Match>)
  {
    forall k :: 0 <= k < |stack| ==> stack[k] !in Opens(pairs)
  }

  /** What holds of the scan's state after the first `i` tokens. */
  ghost predicate ScanInv(tokens: seq<Token>, i: nat, stack: seq<nat>, pairs: seq<Match>)
  {
    StackBelow(tokens, i, stack) &&
    PairsBelow(tokens, i, pairs) &&
    Closes(pairs) == Closers(tokens, i) &&
    |stack| + |pairs| == |Openers(tokens, i)| &&
    Covered(tokens, i, stack, pairs) &&
    Distinct(Opens(pairs)) &&
    Apart(stack, pairs) &&
    Innermost(tokens, pairs)
  }

  /** What a successful scan produced. */
  ghost predicate MatchedWell(tokens: seq<Token>, ms: seq<Match>)
  {
    (forall k :: 0 <= k < |ms| ==> Agreeing(tokens, ms[k])) &&
    Closes(ms) == Closers(tokens, |tokens|) &&
    Distinct(Opens(ms)) &&
    Innermost(tokens, ms)
  }

  /** Why the scan stops at token `e.at`, given the waiting openers
      `stack`: an opener first on its line that is the last token, a
      closer with no opener waiting, or a closer whose most recent waiting
      opener has another kind. */
  ghost predicate StopsAt(tokens: seq<Token>, e: MatchError, stack: seq<nat>)
    requires forall k :: 0 <= k < |stack| ==> stack[k] < |tokens| && IsOpener(tokens[stack[k]])
  {
    e.at < |tokens| &&
    match e
    case MissingNextToken(at) => IsOpener(tokens[at]) && LacksNext(tokens, at)
    case UnmatchedClose(at) => IsCloser(tokens[at]) && stack == []
    case KindMismatch(at) =>
      IsCloser(tokens[at]) && |stack| > 0 &&
      var top := stack[|stack| - 1];
      assert IsOpener(tokens[top]);
      !Agree(tokens[top].text, tokens[at].text)
  }

  /** Where and why a failed scan stopped: the tokens before `e.at` were
      matched without a fault, leaving a state that satisfies the
      invariant, and from that state token `e.at` makes the scan raise.
      A closer that raises has as many openers as closers before it when
      nothing waits, and more openers otherwise. */
  ghost predicate FailedAt(tokens: seq<Token>, e: MatchError)
  {
    e.at < |tokens| &&
    (exists stack, pairs :: ScanInv(tokens, e.at, stack, pairs) && StopsAt(tokens, e, stack)) &&
    match e
    case MissingNextToken(at) => true
    case UnmatchedClose(at) => |Openers(tokens, at)| == |Closers(tokens, at)|
    case KindMismatch(at) => |Openers(tokens, at)| > |Closers(tokens, at)|
  }

  lemma ScanStartInv(tokens: seq<Token>)
    ensures ScanInv(tokens, 0, [], [])
  {
  }

  /** A token that is neither opener nor closer leaves the state alone. */
  lemma ScanSkipInv(tokens: seq<Token>, i: nat, stack: seq<nat>, pairs: seq<Match>)
    requires ScanInv(tokens, i, stack, pairs) && i < |tokens|
    requires !IsOpener(tokens[i]) && !IsCloser(tokens[i])
    ensures ScanInv(tokens, i + 1, stack, pairs)
  {
  }

  /** An opener is pushed. */
  lemma ScanPushInv(tokens: seq<Token>, i: nat, stack: seq<nat>, pairs: seq<Match>)
    requires ScanInv(tokens, i, stack, pairs) && i < |tokens|
    requires IsOpener(tokens[i]) && !LacksNext(tokens, i)
    ensures ScanInv(tokens, i + 1, stack + [i], pairs)
  {
    OpenerIsNotCloser(tokens[i]);
    var stack' := stack + [i];
    forall o | 0 <= o < i + 1 && IsOpener(tokens[o])
      ensures o in stack' || o in Opens(pairs)
    {
      if o == i {
        assert stack'[|stack|] == i;
      }
    }
    assert forall n :: 0 <= n < |pairs| ==> Opens(pairs)[n] < i;
    assert forall k :: 0 <= k < |stack| ==> stack'[k] == stack[k];
  }

  lemma PopStackInv(tokens: seq<Token>, i: nat, stack: seq<nat>)
    requires StackBelow(tokens, i, stack) && i < |tokens| && |stack| > 0
    ensures StackBelow(tokens, i + 1, stack[..|stack| - 1])
    ensures forall k :: 0 <= k < |stack| - 1 ==> stack[k] < stack[|stack| - 1]
  {
  }

  lemma PopPairsInv(tokens: seq<Token>, i: nat, stack: seq<nat>, pairs: seq<Match>)
    requires StackBelow(tokens, i, stack) && PairsBelow(tokens, i, pairs) && i < |tokens|
    requires IsCloser(tokens[i]) && |stack| > 0
    requires Agree(tokens[stack[|stack| - 1]].text, tokens[i].text)
    ensures PairsBelow(tokens, i + 1, pairs + [Match(stack[|stack| - 1], i)])
  {
    var m := Match(stack[|stack| - 1], i);
    assert Agreeing(tokens, m) && Readable(tokens, m);
    assert forall k :: 0 <= k < |pairs| ==> (pairs + [m])[k] == pairs[k];
  }

  lemma PopCoveredInv(tokens: seq<Token>, i: nat, stack: seq<nat>, pairs: seq<Match>)
    requires i < |tokens| && Covered(tokens, i, stack, pairs) && IsCloser(tokens[i]) && |stack| > 0
    ensures Covered(tokens, i + 1, stack[..|stack| - 1], pairs + [Match(stack[|stack| - 1], i)])
  {
    OpenerIsNotCloser(tokens[i]);
    var top := stack[|stack| - 1];
    var stack' := stack[..|stack| - 1];
    var pairs' := pairs + [Match(top, i)];
    assert Opens(pairs') == Opens(pairs) + [top];
    forall o | 0 <= o < i + 1 && IsOpener(tokens[o])
      ensures o in stack' || o in Opens(pairs')
    {
      if o in stack {
        var k :| 0 <= k < |stack| && stack[k] == o;
        if k < |stack'| {
          assert stack'[k] == o;
        }
      }
    }
  }

  lemma PopApartInv(tokens: seq<Token>, i: nat, stack: seq<nat>, pairs: seq<Match>)
    requires StackBelow(tokens, i, stack) && |stack| > 0
    requires Distinct(Opens(pairs)) && Apart(stack, pairs)
    ensures Distinct(Opens(pairs + [Match(stack[|stack| - 1], i)]))
    ensures Apart(stack[..|stack| - 1], pairs + [Match(stack[|stack| - 1], i)])
  {
    var top := stack[|stack| - 1];
    var stack' := stack[..|stack| - 1];
    var pairs' := pairs + [Match(top, i)];
    assert Opens(pairs') == Opens(pairs) + [top];
    assert top !in Opens(pairs);
    forall k | 0 <= k < |stack'|
      ensures stack'[k] !in Opens(pairs')
    {
      assert stack'[k] == stack[k] && stack[k] < top;
    }
  }

  /** An opener between the top of the stack and the current closer has
      already been matched. */
  lemma MatchedAboveTop(tokens: seq<Token>, i: nat, stack: seq<nat>, pairs: seq<Match>, o: nat)
    requires StackBelow(tokens, i, stack) && PairsBelow(tokens, i, pairs) && |stack| > 0
    requires Covered(tokens, i, stack, pairs)
    requires stack[|stack| - 1] < o < i && IsOpener(tokens[o])
    ensures MatchedBefore(pairs, o, i)
  {
    var top := stack[|stack| - 1];
    assert o !in stack by {
      forall j | 0 <= j < |stack| ensures stack[j] != o {
        if j < |stack| - 1 {
          assert stack[j] < top;
        }
      }
    }
    var n :| 0 <= n < |pairs| && Opens(pairs)[n] == o;
    assert pairs[n].open == o && pairs[n].close < i;
  }

  lemma PopInnermostInv(tokens: seq<Token>, i: nat, stack: seq<nat>, pairs: seq<Match>)
    requires StackBelow(tokens, i, stack) && PairsBelow(tokens, i, pairs) && i < |tokens| && |stack| > 0
    requires Covered(tokens, i, stack, pairs) && Innermost(tokens, pairs)
    ensures Innermost(tokens, pairs + [Match(stack[|stack| - 1], i)])
  {
    var top := stack[|stack| - 1];
    var m := Match(top, i);
    var pairs' := pairs + [m];
    forall k, o | 0 <= k < |pairs'| && pairs'[k].open < o < pairs'[k].close && o < |tokens| && IsOpener(tokens[o])
      ensures MatchedBefore(pairs', o, pairs'[k].close)
    {
      if k < |pairs| {
        assert pairs'[k] == pairs[k];
        MatchedBeforeAppend(pairs, m, o, pairs[k].close);
      } else {
        assert pairs'[k] == m;
        MatchedAboveTop(tokens, i, stack, pairs, o);
        MatchedBeforeAppend(pairs, m, o, i);
      }
    }
  }

  /** A closer pops the most recent unmatched opener and records the match. */
  lemma ScanPopInv(tokens: seq<Token>, i: nat, stack: seq<nat>, pairs: seq<Match>)
    requires ScanInv(tokens, i, stack, pairs) && i < |tokens|
    requires IsCloser(tokens[i]) && |stack| > 0
    requires Agree(tokens[stack[|stack| - 1]].text, tokens[i].text)
    ensures ScanInv(tokens, i + 1, stack[..|stack| - 1], pairs + [Match(stack[|stack| - 1], i)])
  {
    OpenerIsNotCloser(tokens[i]);
    var m := Match(stack[|stack| - 1], i);
    assert Closes(pairs + [m]) == Closes(pairs) + [i];
    PopStackInv(tokens, i, stack);
    PopPairsInv(tokens, i, stack, pairs);
    PopCoveredInv(tokens, i, stack, pairs);
    PopApartInv(tokens, i, stack, pairs);
    PopInnermostInv(tokens, i, stack, pairs);
  }

  /** At the end of the tokens the invariant is a well-matched list. */
  lemma ScanEndWell(tokens: seq<Token>, stack: seq<nat>, pairs: seq<Match>)
    requires ScanInv(tokens, |tokens|, stack, pairs)
    ensures MatchedWell(tokens, pairs)
  {
  }

  /** An opener that is first on its line and the last token raises. */
  lemma MissingNextFailsAt(tokens: seq<Token>, i: nat, stack: seq<nat>, pairs: seq<Match>)
    requires ScanInv(tokens, i, stack, pairs) && i < |tokens|
    requires IsOpener(tokens[i]) && LacksNext(tokens, i)
    ensures FailedAt(tokens, MissingNextToken(i))
  {
    assert StopsAt(tokens, MissingNextToken(i), stack);
  }

  /** A closer met with an empty stack has as many closers as openers
      before it. */
  lemma UnmatchedCloseFailsAt(tokens: seq<Token>, i: nat, pairs: seq<Match>)
    requires ScanInv(tokens, i, [], pairs) && i < |tokens| && IsCloser(tokens[i])
    ensures FailedAt(tokens, UnmatchedClose(i))
  {
    assert StopsAt(tokens, UnmatchedClose(i), []);
  }

  /** A closer whose most recent opener has another kind. */
  lemma KindMismatchFailsAt(tokens: seq<Token>, i: nat, stack: seq<nat>, pairs: seq<Match>)
    requires ScanInv(tokens, i, stack, pairs) && i < |tokens| && IsCloser(tokens[i]) && |stack| > 0
    requires !Agree(tokens[stack[|stack| - 1]].text, tokens[i].text)
    ensures FailedAt(tokens, KindMismatch(i))
  {
    assert |Openers(tokens, i)| > |Closers(tokens, i)|;
    assert StopsAt(tokens, KindMismatch(i), stack);
  }

  /** What the scan from a state satisfying the invariant yields. */
  ghost predicate Outcome(tokens: seq<Token>, r: Result<seq<Match>, MatchError>)
  {
    (r.Ok? ==> MatchedWell(tokens, r.value)) && (r.Err? ==> FailedAt(tokens, r.error))
  }

  /** The scan, run from any state satisfying the invariant, either ends
      with well-matched pairs or stops at the token that makes it raise. */
  lemma {:induction false} ScanOutcome(tokens: seq<Token>, i: nat, stack: seq<nat>, pairs: seq<Match>)
    requires ScanInv(tokens, i, stack, pairs)
    ensures Scan(tokens, i, stack, pairs).Ok? ==> MatchedWell(tokens, Scan(tokens, i, stack, pairs).value)
    ensures Scan(tokens, i, stack, pairs).Err? ==> FailedAt(tokens, Scan(tokens, i, stack, pairs).error)
    decreases |tokens| - i, 2
  {
    if i == |tokens| {
      ScanEndWell(tokens, stack, pairs);
    } else if IsOpener(tokens[i]) {
      OpenerOutcome(tokens, i, stack, pairs);
    } else if IsCloser(tokens[i]) {
      CloserOutcome(tokens, i, stack, pairs);
    } else {
      ScanSkipInv(tokens, i, stack, pairs);
      ScanOutcome(tokens, i + 1, stack, pairs);
    }
  }

  /** The scan step at an opener: it raises when the opener is the last
      token and first on its line, and is pushed otherwise. */
  lemma {:induction false} OpenerOutcome(tokens: seq<Token>, i: nat, stack: seq<nat>, pairs: seq<Match>)
    requires ScanInv(tokens, i, stack, pairs) && i < |tokens| && IsOpener(tokens[i])
    ensures Outcome(tokens, Scan(tokens, i, stack, pairs))
    decreases |tokens| - i, 1
  {
    if LacksNext(tokens, i) {
      assert Scan(tokens, i, stack, pairs) == Err(MissingNextToken(i));
      MissingNextFailsAt(tokens, i, stack, pairs);
    } else {
      PushOutcome(tokens, i, stack, pairs);
    }
  }

  /** The scan step that pushes an opener. */
  lemma {:induction false} PushOutcome(tokens: seq<Token>, i: nat, stack: seq<nat>, pairs: seq<Match>)
    requires ScanInv(tokens, i, stack, pairs) && i < |tokens| && IsOpener(tokens[i]) && !LacksNext(tokens, i)
    ensures Outcome(tokens, Scan(tokens, i, stack, pairs))
    decreases |tokens| - i, 0
  {
    ScanPushInv(tokens, i, stack, pairs);
    ScanOutcome(tokens, i + 1, stack + [i], pairs);
  }

  /** The scan step at a closer. */
  lemma {:induction false} CloserOutcome(tokens: seq<Token>, i: nat, stack: seq<nat>, pairs: seq<Match>)
    requires ScanInv(tokens, i, stack, pairs) && i < |tokens| && IsCloser(tokens[i])
    ensures Outcome(tokens, Scan(tokens, i, stack, pairs))
    decreases |tokens| - i, 1
  {
    OpenerIsNotCloser(tokens[i]);
    if |stack| == 0 {
      assert Scan(tokens, i, stack, pairs) == Err(UnmatchedClose(i));
      UnmatchedCloseFailsAt(tokens, i, pairs);
    } else if Agree(tokens[stack[|stack| - 1]].text, tokens[i].text) {
      PopOutcome(tokens, i, stack, pairs);
    } else {
      assert Scan(tokens, i, stack, pairs) == Err(KindMismatch(i));
      KindMismatchFailsAt(tokens, i, stack, pairs);
    }
  }

  /** The scan step that pops the top opener for an agreeing closer. */
  lemma {:induction false} PopOutcome(tokens: seq<Token>, i: nat, stack: seq<nat>, pairs: seq<Match>)
    requires ScanInv(tokens, i, stack, pairs) && i < |tokens| && IsCloser(tokens[i]) && |stack| > 0
    requires Agree(tokens[stack[|stack| - 1]].text, tokens[i].text)
    ensures Outcome(tokens, Scan(tokens, i, stack, pairs))
    decreases |tokens| - i, 0
  {
    OpenerIsNotCloser(tokens[i]);
    var m := Match(stack[|stack| - 1], i);
    assert Scan(tokens, i, stack, pairs) == Scan(tokens, i + 1, stack[..|stack| - 1], pairs + [m]);
    ScanPopInv(tokens, i, stack, pairs);
    ScanOutcome(tokens, i + 1, stack[..|stack| - 1], pairs + [m]);
  }

  // ---------------------------------------------------------------------
  // What a whole run of the matcher guarantees

  /** A successful scan pairs each closer, in closer order, with the most
      recent unmatched opener, whose kind agrees with it; a failed scan
      names the token at which it raised. */
  lemma {:induction false} MatchTokensSound(tokens: seq<Token>)
    ensures MatchTokens(tokens).Ok? ==>
              var ms := MatchTokens(tokens).value;
              (forall k :: 0 <= k < |ms| ==> Agreeing(tokens, ms[k])) &&
              Closes(ms) == Closers(tokens, |tokens|) &&
              |ms| == |Closers(tokens, |tokens|)| &&
              Distinct(Opens(ms)) &&
              Innermost(tokens, ms)
    ensures MatchTokens(tokens).Err? ==> FailedAt(tokens, MatchTokens(tokens).error)
  {
    ScanStartInv(tokens);
    ScanOutcome(tokens, 0, [], []);
  }

  /** The closer indexes are increasing indexes of closers. */
  lemma {:induction false} ClosersIncreasing(tokens: seq<Token>, n: nat)
    requires n <= |tokens|
    ensures Increasing(Closers(tokens, n))
    ensures forall k :: 0 <= k < |Closers(tokens, n)| ==> Closers(tokens, n)[k] < n
  {
    if n > 0 {
      ClosersIncreasing(tokens, n - 1);
    }
  }

  /** Pairs nest: of two pairs, the one emitted later either encloses the
      earlier one or lies entirely after it. So inner pairs come before
      the pairs that enclose them. */
  lemma PairsNest(tokens: seq<Token>, a: nat, b: nat)
    requires MatchTokens(tokens).Ok?
    requires a < b < |MatchTokens(tokens).value|
    ensures var ms := MatchTokens(tokens).value;
            (ms[b].open < ms[a].open && ms[a].close < ms[b].close) || ms[a].close < ms[b].open
  {
    var ms := MatchTokens(tokens).value;
    MatchTokensSound(tokens);
    ClosersIncreasing(tokens, |tokens|);
    assert Closes(ms)[a] == ms[a].close && Closes(ms)[b] == ms[b].close;
    assert ms[a].close < ms[b].close;
    assert Opens(ms)[a] == ms[a].open && Opens(ms)[b] == ms[b].open;
    assert ms[a].open != ms[b].open;
    assert Agreeing(tokens, ms[a]) && Agreeing(tokens, ms[b]);
    forall n | 0 <= n < |ms| && n != b
      ensures ms[n].open != ms[b].open
    {
      assert Opens(ms)[n] == ms[n].open;
    }
    // `b`'s opener cannot sit inside `a`: it would be matched before `a` closes.
    assert !(ms[a].open < ms[b].open < ms[a].close);
    OpenerIsNotCloser(tokens[ms[b].open]);
  }

  /** The record emitted for each pair depends on where its opener sits:
      not first on its line, it is overwritten in place by one space up to
      its own end column; first with another token after it on the line,
      it is erased up to that token's start; alone on its line, it is
      erased up to column `len(line) - 2`. */
  lemma RecordLayout(tokens: seq<Token>, k: nat)
    requires PairsOf(tokens).Ok? && k < |PairsOf(tokens).value|
    ensures var ms := MatchTokens(tokens).value;
            |ms| == |PairsOf(tokens).value| &&
            var c, m := PairsOf(tokens).value[k], ms[k];
            var t := tokens[m.open];
            m.open < |tokens| && m.close < |tokens| &&
            c.open == t.start && c.close == tokens[m.close].start &&
            (!FirstInLine(tokens, m.open) ==>
               c.replacement == " " && c.space == t.end.col) &&
            (FirstInLine(tokens, m.open) ==> m.open + 1 < |tokens|) &&
            (FirstInLine(tokens, m.open) && m.open + 1 < |tokens| &&
             tokens[m.open + 1].start.line == t.end.line ==>
               c.replacement == "" && c.space == tokens[m.open + 1].start.col) &&
            (FirstInLine(tokens, m.open) && m.open + 1 < |tokens| &&
             tokens[m.open + 1].start.line != t.end.line ==>
               c.replacement == "" && c.space == |t.line| - 2)
  {
    var ms := MatchTokens(tokens).value;
    assert Readable(tokens, ms[k]);
  }

  lemma {:induction false} ScanWithoutBrackets(tokens: seq<Token>, i: nat)
    requires i <= |tokens|
    requires forall j :: 0 <= j < |tokens| ==> !IsOpener(tokens[j]) && !IsCloser(tokens[j])
    ensures Scan(tokens, i, [], []) == Ok([])
    decreases |tokens| - i
  {
    if i < |tokens| {
      ScanWithoutBrackets(tokens, i + 1);
    }
  }

  /** Without bracket tokens there are no pairs. */
  lemma NoBracketsNoPairs(tokens: seq<Token>)
    requires forall j :: 0 <= j < |tokens| ==> !IsOpener(tokens[j]) && !IsCloser(tokens[j])
    ensures PairsOf(tokens) == Ok([])
  {
    ScanWithoutBrackets(tokens, 0);
    assert CoordsOfAll(tokens, []) == [];
  }
}
