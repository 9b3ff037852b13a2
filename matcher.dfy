/** The bracket matcher `find_parens_coords`: pairs every closing bracket
    token with the most recent unmatched opening one and records, for each
    pair, how the opening bracket is to be erased. */
module BracketMatcher {
  import opened PyBuiltins
  import opened Tokens

  /** An entry of the opening stack: `[start, erase end column,
      replacement, symbol]`. */
  datatype Opening = Opening(start: Pos, space: int, replacement: string, symbol: string)

  /** An emitted pair: `[open_start, erase end column, replacement,
      close_start]`. */
  datatype ParenCoords = ParenCoords(open: Pos, space: int, replacement: string, close: Pos)

  /** The ways the scan stops by raising. */
  datatype MatchError =
    | MissingNextToken(at: nat)  // IndexError reading `token[i + 1]`
    | UnmatchedClose(at: nat)    // IndexError popping an empty stack
    | KindMismatch(at: nat)      // the assertion that the kinds agree fails

  /** The token indexes of an opener and of the closer paired with it. */
  datatype Match = Match(open: nat, close: nat)

  // ---------------------------------------------------------------------
  // Specification of the scan

  /** `first_in_line` at token `i`: the previous token (if any) ended on
      another line than the one token `i` starts on. */
  predicate FirstInLine(tokens: seq<Token>, i: nat)
    requires i < |tokens|
  {
    (if i == 0 then -1 else tokens[i - 1].end.line) != tokens[i].start.line
  }

  /** Reading `token[i + 1]` for an opener at `i` would run off the end. */
  predicate LacksNext(tokens: seq<Token>, i: nat)
    requires i < |tokens|
  {
    FirstInLine(tokens, i) && i + 1 == |tokens|
  }

  /** The stack entry pushed for the opener at `i`, by its place on its line. */
  function OpeningAt(tokens: seq<Token>, i: nat): Opening
    requires i < |tokens| && !LacksNext(tokens, i)
  {
    var t := tokens[i];
    if !FirstInLine(tokens, i) then Opening(t.start, t.end.col, " ", t.text)
    else if tokens[i + 1].start.line == t.end.line then
      Opening(t.start, tokens[i + 1].start.col, "", t.text)
    else
      Opening(t.start, |t.line| - 2, "", t.text)
  }

  /** A match whose record can be computed. */
  predicate Readable(tokens: seq<Token>, m: Match)
  {
    m.open < |tokens| && m.close < |tokens| && !LacksNext(tokens, m.open)
  }

  /** The scan from token `i` on, with the indexes of the unmatched
      openers in `stack` and the matches found so far in `pairs`. */
  function Scan(tokens: seq<Token>, i: nat, stack: seq<nat>, pairs: seq<Match>)
    : (r: Result<seq<Match>, MatchError>)
    requires i <= |tokens|
    requires forall k :: 0 <= k < |stack| ==>
               stack[k] < |tokens| && IsOpener(tokens[stack[k]]) && !LacksNext(tokens, stack[k])
    requires forall k :: 0 <= k < |pairs| ==> Readable(tokens, pairs[k])
    ensures r.Ok? ==> forall k :: 0 <= k < |r.value| ==> Readable(tokens, r.value[k])
    decreases |tokens| - i
  {
    if i == |tokens| then Ok(pairs)
    else
      var t := tokens[i];
      if IsOpener(t) then
        if LacksNext(tokens, i) then Err(MissingNextToken(i))
        else Scan(tokens, i + 1, stack + [i], pairs)
      else if IsCloser(t) then
        if |stack| == 0 then Err(UnmatchedClose(i))
        else
          var top := stack[|stack| - 1];
          assert IsOpener(tokens[top]);
          if !Agree(tokens[top].text, t.text) then Err(KindMismatch(i))
          else Scan(tokens, i + 1, stack[..|stack| - 1], pairs + [Match(top, i)])
      else Scan(tokens, i + 1, stack, pairs)
  }

  /** The matches of a whole token list. */
  function MatchTokens(tokens: seq<Token>): Result<seq<Match>, MatchError>
  {
    Scan(tokens, 0, [], [])
  }

  /** The record emitted for a match. */
  function CoordsOf(tokens: seq<Token>, m: Match): ParenCoords
    requires Readable(tokens, m)
  {
    var o := OpeningAt(tokens, m.open);
    ParenCoords(o.start, o.space, o.replacement, tokens[m.close].start)
  }

  function CoordsOfAll(tokens: seq<Token>, ms: seq<Match>): seq<ParenCoords>
    requires forall k :: 0 <= k < |ms| ==> Readable(tokens, ms[k])
  {
    seq(|ms|, k requires 0 <= k < |ms| => CoordsOf(tokens, ms[k]))
  }

  /** What `find_parens_coords` returns or raises. */
  function PairsOf(tokens: seq<Token>): Result<seq<ParenCoords>, MatchError>
  {
    match MatchTokens(tokens)
    case Err(e) => Err(e)
    case Ok(ms) => Ok(CoordsOfAll(tokens, ms))
  }

  lemma CoordsOfAllAppend(tokens: seq<Token>, ms: seq<Match>, m: Match)
    requires forall k :: 0 <= k < |ms| ==> Readable(tokens, ms[k])
    requires Readable(tokens, m)
    ensures forall k :: 0 <= k < |ms + [m]| ==> Readable(tokens, (ms + [m])[k])
    ensures CoordsOfAll(tokens, ms + [m]) == CoordsOfAll(tokens, ms) + [CoordsOf(tokens, m)]
  {
  }

  // ---------------------------------------------------------------------
  // The imperative scan

  /** The method's opening stack holds the entries of the openers whose
      indexes the ghost `stack` lists. */
  ghost predicate StackHolds(tokens: seq<Token>, openingStack: seq<Opening>, stack: seq<nat>)
  {
    |openingStack| == |stack| &&
    (forall k :: 0 <= k < |stack| ==>
       stack[k] < |tokens| && IsOpener(tokens[stack[k]]) && !LacksNext(tokens, stack[k])) &&
    (forall k :: 0 <= k < |stack| ==> openingStack[k] == OpeningAt(tokens, stack[k]))
  }

  /** Pushing the opener at `i` keeps the stack in step with the ghost
      index stack, and the scan continues from the next token. */
  lemma PushStep(tokens: seq<Token>, openingStack: seq<Opening>, stack: seq<nat>, pairs: seq<Match>, i: nat,
                  o: Opening)
    requires StackHolds(tokens, openingStack, stack)
    requires forall k :: 0 <= k < |pairs| ==> Readable(tokens, pairs[k])
    requires i < |tokens| && IsOpener(tokens[i]) && !LacksNext(tokens, i) && o == OpeningAt(tokens, i)
    ensures StackHolds(tokens, openingStack + [o], stack + [i])
    ensures Scan(tokens, i, stack, pairs) == Scan(tokens, i + 1, stack + [i], pairs)
  {
  }

  /** A token that is not a bracket leaves the scan's state alone. */
  lemma SkipStep(tokens: seq<Token>, stack: seq<nat>, pairs: seq<Match>, i: nat)
    requires forall k :: 0 <= k < |stack| ==>
               stack[k] < |tokens| && IsOpener(tokens[stack[k]]) && !LacksNext(tokens, stack[k])
    requires forall k :: 0 <= k < |pairs| ==> Readable(tokens, pairs[k])
    requires i < |tokens| && !IsOpener(tokens[i]) && !IsCloser(tokens[i])
    ensures Scan(tokens, i, stack, pairs) == Scan(tokens, i + 1, stack, pairs)
  {
  }

  /** Popping at a closer yields the entry of the top opener. */
  lemma PopStep(tokens: seq<Token>, openingStack: seq<Opening>, stack: seq<nat>, i: nat)
    requires StackHolds(tokens, openingStack, stack) && |stack| > 0 && i < |tokens|
    ensures var n, top := |stack| - 1, stack[|stack| - 1];
            StackHolds(tokens, openingStack[..n], stack[..n]) &&
            top < |tokens| && IsOpener(tokens[top]) && openingStack[n].symbol == tokens[top].text &&
            Readable(tokens, Match(top, i)) &&
            CoordsOf(tokens, Match(top, i)) ==
              ParenCoords(openingStack[n].start, openingStack[n].space, openingStack[n].replacement, tokens[i].start)
  {
    var n, top := |stack| - 1, stack[|stack| - 1];
    assert openingStack[n] == OpeningAt(tokens, top);
  }

  /** The scan at a closer with an opener waiting: a kind mismatch
      raises, otherwise the match is recorded. */
  lemma PopScan(tokens: seq<Token>, stack: seq<nat>, pairs: seq<Match>, i: nat)
    requires forall k :: 0 <= k < |stack| ==>
               stack[k] < |tokens| && IsOpener(tokens[stack[k]]) && !LacksNext(tokens, stack[k])
    requires forall k :: 0 <= k < |pairs| ==> Readable(tokens, pairs[k])
    requires |stack| > 0 && i < |tokens| && IsCloser(tokens[i]) && !IsOpener(tokens[i])
    requires IsOpener(tokens[stack[|stack| - 1]])
    ensures var top := stack[|stack| - 1];
            !Agree(tokens[top].text, tokens[i].text) ==> Scan(tokens, i, stack, pairs) == Err(KindMismatch(i))
    ensures var top := stack[|stack| - 1];
            Agree(tokens[top].text, tokens[i].text) ==>
              Scan(tokens, i, stack, pairs) == Scan(tokens, i + 1, stack[..|stack| - 1], pairs + [Match(top, i)])
  {
  }

  /** `find_parens_coords(token)`. */
  method FindParensCoords(tokens: seq<Token>) returns (r: Result<seq<ParenCoords>, MatchError>)
    ensures r == PairsOf(tokens)
  {
    var openingStack: seq<Opening> := [];
    var parenthesesPairs: seq<ParenCoords> := [];
    var lastLine := -1;
    ghost var stack: seq<nat> := [];
    ghost var pairs: seq<Match> := [];
    ghost var result := MatchTokens(tokens);
    for i := 0 to |tokens|
      invariant lastLine == if i == 0 then -1 else tokens[i - 1].end.line
      invariant StackHolds(tokens, openingStack, stack)
      invariant forall k :: 0 <= k < |pairs| ==> Readable(tokens, pairs[k])
      invariant parenthesesPairs == CoordsOfAll(tokens, pairs)
      invariant Scan(tokens, i, stack, pairs) == result
    {
      var t := tokens[i];
      var firstInLine := lastLine != t.start.line;
      assert firstInLine == FirstInLine(tokens, i);
      lastLine := t.end.line;
      if !IsOpener(t) && !IsCloser(t) {
        SkipStep(tokens, stack, pairs, i);
      }
      if t.kind == OP {
        if t.text in OpenList {
          var opening: Opening;
          if !firstInLine {
            opening := Opening(t.start, t.end.col, " ", t.text);
          } else {
            if i + 1 >= |tokens| {
              return Err(MissingNextToken(i));
            }
            if tokens[i + 1].start.line == t.end.line {
              opening := Opening(t.start, tokens[i + 1].start.col, "", t.text);
            } else {
              // the opener is the only token on its line
              opening := Opening(t.start, |t.line| - 2, "", t.text);
            }
          }
          PushStep(tokens, openingStack, stack, pairs, i, opening);
          openingStack := openingStack + [opening];
          stack := stack + [i];
          continue;
        }
        if t.text in CloseList {
          OpenerIsNotCloser(t);
          if |openingStack| == 0 {
            return Err(UnmatchedClose(i));
          }
          PopStep(tokens, openingStack, stack, i);
          PopScan(tokens, stack, pairs, i);
          var opening := openingStack[|openingStack| - 1];
          openingStack := openingStack[..|openingStack| - 1];
          if IndexOf(OpenList, opening.symbol) != IndexOf(CloseList, t.text) {
            return Err(KindMismatch(i));
          }
          var m := Match(stack[|stack| - 1], i);
          CoordsOfAllAppend(tokens, pairs, m);
          stack := stack[..|stack| - 1];
          parenthesesPairs := parenthesesPairs + [ParenCoords(opening.start, opening.space, opening.replacement, t.start)];
          pairs := pairs + [m];
        }
      }
    }
    r := Ok(parenthesesPairs);
  }
}
