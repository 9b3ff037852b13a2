/** The classifier `Checker`: walks the syntax tree once, collecting the
    redundant pairs that are excepted for readability, reports each
    parenthesised unpacking target, and finally reports every redundant
    pair that was not excepted. The walk order of `ast.walk` and each
    node's children are given as data. */
module Classifier {
  import opened PyBuiltins
  import opened Tokens
  import opened BracketMatcher

  /** The node classes the rules tell apart; every other class is `Other`. */
  datatype NodeKind = BinOp | BoolOp | UnaryOp | Compare | Await | Assign | Tuple | Other

  /** A syntax node: its class, its span `(lineno, col_offset)` to
      `(end_lineno, end_col_offset)`, its direct children in
      `ast.iter_child_nodes` order, and the `targets` (of an `Assign`) and
      `elts` (of a `Tuple`) fields. */
  datatype Node = Node(kind: NodeKind, start: Pos, end: Pos,
                       children: seq<Node>, targets: seq<Node>, elts: seq<Node>)

  /** The classes in `bin_exc`. */
  predicate IsOperator(k: NodeKind)
  {
    k.BinOp? || k.BoolOp? || k.UnaryOp? || k.Compare? || k.Await?
  }

  /** A report: line, column and message. */
  datatype Problem = Problem(line: int, col: int, msg: string)

  const Par001: string := "PAR001: Too many parentheses"
  const Par002: string := "PAR002: Dont use parentheses for unpacking"

  /** The exceptions and the problems gathered so far by the walk. */
  datatype WalkState = WalkState(exceptions: seq<ParenCoords>, problems: seq<Problem>)

  // ---------------------------------------------------------------------
  // Specification of the walk

  /** The operator-chain scan over `vals` for one operator `node` and one
      operator `child`: it stops at the first value that contains the
      node (adding nothing) or at the first not-yet-excepted value that
      contains the child (adding that one). */
  function ChainPick(vals: seq<ParenCoords>, exceptions: seq<ParenCoords>, node: Node, child: Node)
    : (r: Option<ParenCoords>)
    ensures r.Some? ==> r.value in vals && r.value !in exceptions &&
                        Checker.NodeInParens(child, r.value) && !Checker.NodeInParens(node, r.value)
  {
    if |vals| == 0 then None
    else if Checker.NodeInParens(node, vals[0]) then None
    else if Checker.NodeInParens(child, vals[0]) && vals[0] !in exceptions then Some(vals[0])
    else ChainPick(vals[1..], exceptions, node, child)
  }

  /** The first value opening at `at` that is not yet excepted. */
  function TuplePick(vals: seq<ParenCoords>, exceptions: seq<ParenCoords>, at: Pos)
    : (r: Option<ParenCoords>)
    ensures r.Some? ==> r.value in vals && r.value !in exceptions && r.value.open == at
    ensures r.None? <==> forall v :: v in vals && v.open == at ==> v in exceptions
    ensures r.Some? ==> exists k :: 0 <= k < |vals| && vals[k] == r.value &&
                          forall j :: 0 <= j < k ==> vals[j].open != at || vals[j] in exceptions
  {
    if |vals| == 0 then None
    else if vals[0].open == at && vals[0] !in exceptions then Some(vals[0])
    else
      var r := TuplePick(vals[1..], exceptions, at);
      assert r.Some? ==> exists k :: 0 <= k < |vals| && vals[k] == r.value &&
                          forall j :: 0 <= j < k ==> vals[j].open != at || vals[j] in exceptions by {
        if r.Some? {
          var k :| 0 <= k < |vals[1..]| && vals[1..][k] == r.value &&
                   forall j :: 0 <= j < k ==> vals[1..][j].open != at || vals[1..][j] in exceptions;
          assert forall j :: 0 <= j < k + 1 ==> vals[j].open != at || vals[j] in exceptions by {
            forall j | 0 <= j < k + 1 ensures vals[j].open != at || vals[j] in exceptions {
              if j > 0 {
                assert vals[j] == vals[1..][j - 1];
              }
            }
          }
        }
      }
      r
  }

  /** The first value that is not yet excepted, whatever its coordinates. */
  function FirstFresh(vals: seq<ParenCoords>, exceptions: seq<ParenCoords>): (r: Option<ParenCoords>)
    ensures r.Some? ==> r.value in vals && r.value !in exceptions
    ensures r.None? <==> forall v :: v in vals ==> v in exceptions
    ensures r.Some? ==> exists k :: 0 <= k < |vals| && vals[k] == r.value &&
                          forall j :: 0 <= j < k ==> vals[j] in exceptions
  {
    if |vals| == 0 then None
    else if vals[0] !in exceptions then Some(vals[0])
    else
      var r := FirstFresh(vals[1..], exceptions);
      assert r.Some? ==> exists k :: 0 <= k < |vals| && vals[k] == r.value &&
                          forall j :: 0 <= j < k ==> vals[j] in exceptions by {
        if r.Some? {
          var k :| 0 <= k < |vals[1..]| && vals[1..][k] == r.value &&
                   forall j :: 0 <= j < k ==> vals[1..][j] in exceptions;
          assert forall j :: 0 <= j < k + 1 ==> vals[j] in exceptions by {
            forall j | 0 <= j < k + 1 ensures vals[j] in exceptions {
              if j > 0 {
                assert vals[j] == vals[1..][j - 1];
              }
            }
          }
        }
      }
      r
  }

  /** Append the picked value, if any. */
  function Add(exceptions: seq<ParenCoords>, pick: Option<ParenCoords>): seq<ParenCoords>
  {
    match pick
    case None => exceptions
    case Some(v) => exceptions + [v]
  }

  /** The operator-chain rule over the first children of an operator node. */
  function OperatorRule(vals: seq<ParenCoords>, exceptions: seq<ParenCoords>, node: Node, children: seq<Node>)
    : seq<ParenCoords>
  {
    if |children| == 0 then exceptions
    else
      var e := OperatorRule(vals, exceptions, node, children[..|children| - 1]);
      var child := children[|children| - 1];
      if IsOperator(child.kind) then Add(e, ChainPick(vals, e, node, child)) else e
  }

  /** A target written as a tuple that starts before its first element:
      a parenthesised unpacking target. */
  predicate ParenthesisedTarget(targ: Node)
  {
    targ.kind == Tuple && |targ.elts| > 0 && PosLt(targ.start, targ.elts[0].start)
  }

  /** The unpacking rule over the first targets of an assignment `node`. */
  function UnpackRule(vals: seq<ParenCoords>, st: WalkState, node: Node, targets: seq<Node>): WalkState
  {
    if |targets| == 0 then st
    else
      var s := UnpackRule(vals, st, node, targets[..|targets| - 1]);
      var targ := targets[|targets| - 1];
      if ParenthesisedTarget(targ) then
        WalkState(Add(s.exceptions, TuplePick(vals, s.exceptions, targ.start)),
                  s.problems + [Problem(node.start.line, node.start.col, Par002)])
      else s
  }

  /** The unpacking rule only appends to the problems it is given. */
  lemma {:induction false} UnpackRuleFrame(vals: seq<ParenCoords>, e: seq<ParenCoords>, p: seq<Problem>,
                                           q: seq<Problem>, node: Node, targets: seq<Node>)
    ensures var u := UnpackRule(vals, WalkState(e, q), node, targets);
            UnpackRule(vals, WalkState(e, p + q), node, targets) == WalkState(u.exceptions, p + u.problems)
  {
    if |targets| > 0 {
      UnpackRuleFrame(vals, e, p, q, node, targets[..|targets| - 1]);
    }
  }

  /** A tuple child at the tail of its parent: the two end at the same
      column, whatever their lines. */
  predicate TailTupleOf(node: Node, child: Node)
  {
    child.kind == Tuple && child.end.col - node.end.col == 0
  }

  /** The first child that is a tuple at the tail of `node`. */
  function FirstTailTuple(node: Node, children: seq<Node>): (r: Option<Node>)
    ensures r.Some? ==> r.value in children && TailTupleOf(node, r.value)
    ensures r.None? <==> forall c :: c in children ==> !TailTupleOf(node, c)
  {
    if |children| == 0 then None
    else if TailTupleOf(node, children[0]) then Some(children[0])
    else FirstTailTuple(node, children[1..])
  }

  /** The tail-tuple rule: when some tuple child ends at the node's end
      column, the first value not yet excepted is excepted. */
  function TailRule(vals: seq<ParenCoords>, exceptions: seq<ParenCoords>, node: Node): seq<ParenCoords>
  {
    if FirstTailTuple(node, node.children).Some? then Add(exceptions, FirstFresh(vals, exceptions))
    else exceptions
  }

  /** The three rules applied to one node of the walk, in order. */
  function Visit(vals: seq<ParenCoords>, st: WalkState, node: Node): WalkState
  {
    var e1 := if IsOperator(node.kind) then OperatorRule(vals, st.exceptions, node, node.children)
              else st.exceptions;
    var s2 := if node.kind == Assign then UnpackRule(vals, WalkState(e1, st.problems), node, node.targets)
              else WalkState(e1, st.problems);
    WalkState(TailRule(vals, s2.exceptions, node), s2.problems)
  }

  /** The state after visiting `nodes` in order. */
  function WalkTree(vals: seq<ParenCoords>, nodes: seq<Node>): WalkState
  {
    if |nodes| == 0 then WalkState([], [])
    else Visit(vals, WalkTree(vals, nodes[..|nodes| - 1]), nodes[|nodes| - 1])
  }

  /** Walking one more node visits it after the nodes before it. */
  lemma WalkTreeStep(vals: seq<ParenCoords>, walk: seq<Node>, i: nat)
    requires i < |walk|
    ensures WalkTree(vals, walk[..i + 1]) == Visit(vals, WalkTree(vals, walk[..i]), walk[i])
  {
    assert walk[..i + 1][..i] == walk[..i];
  }

  /** The PAR001 report for a value. */
  function Par001At(v: ParenCoords): Problem
  {
    Problem(v.open.line, v.open.col, Par001)
  }

  /** One PAR001 report per value not excepted, in `vals` order. */
  function Report(vals: seq<ParenCoords>, exceptions: seq<ParenCoords>): seq<Problem>
  {
    if |vals| == 0 then []
    else
      var v := vals[|vals| - 1];
      Report(vals[..|vals| - 1], exceptions) + (if v in exceptions then [] else [Par001At(v)])
  }

  /** Everything `check` appends to the problems. */
  function Classify(vals: seq<ParenCoords>, walk: seq<Node>): seq<Problem>
  {
    var st := WalkTree(vals, walk);
    st.problems + Report(vals, st.exceptions)
  }

  // ---------------------------------------------------------------------
  // The checker

  class Checker {
    var problems: seq<Problem>
    const vals: seq<ParenCoords>
    /** The nodes of the tree in `ast.walk` order. */
    const walk: seq<Node>

    constructor (vals: seq<ParenCoords>, walk: seq<Node>)
      ensures this.vals == vals && this.walk == walk && problems == []
    {
      this.problems := [];
      this.vals := vals;
      this.walk := walk;
    }

    /** `_node_in_parens`: the node's span lies between the pair's opening
        position and the start of its closing bracket, in lexicographic
        `(line, column)` order. */
    static function NodeInParens(node: Node, parensCoords: ParenCoords): (r: bool)
      ensures r <==> (parensCoords.open.line < node.start.line ||
                      (parensCoords.open.line == node.start.line && parensCoords.open.col <= node.start.col)) &&
                     (node.end.line < parensCoords.close.line ||
                      (node.end.line == parensCoords.close.line && node.end.col <= parensCoords.close.col))
    {
      PosOrderIsLexicographic(parensCoords.open, node.start);
      PosOrderIsLexicographic(node.end, parensCoords.close);
      PosGe(node.start, parensCoords.open) && PosLe(node.end, parensCoords.close)
    }

    /** The operator-chain block of `check` for one node: for each child
        that is itself an operator, the pairs are scanned in order; the
        scan stops at the first pair holding the whole node, or excepts the
        first pair not yet excepted that holds the child. */
    method OperatorChains(node: Node, exceptions: seq<ParenCoords>) returns (e: seq<ParenCoords>)
      ensures e == OperatorRule(vals, exceptions, node, node.children)
    {
      e := exceptions;
      for j := 0 to |node.children|
        invariant e == OperatorRule(vals, exceptions, node, node.children[..j])
      {
        assert node.children[..j + 1][..j] == node.children[..j];
        var child := node.children[j];
        if !IsOperator(child.kind) {
          continue;
        }
        ghost var e0 := e;
        ghost var pick := ChainPick(vals, e0, node, child);
        for k := 0 to |vals|
          invariant e == e0
          invariant ChainPick(vals[k..], e0, node, child) == pick
        {
          assert vals[k..][1..] == vals[k + 1..];
          var val := vals[k];
          if NodeInParens(node, val) {
            break;
          }
          if NodeInParens(child, val) && val !in e {
            e := e + [val];
            break;
          }
        }
        assert e == Add(e0, pick);
      }
      assert node.children[..|node.children|] == node.children;
    }

    /** The unpacking block of `check` for an assignment: each target
        written as a parenthesised tuple is reported as PAR002 at the
        assignment, and the first pair not yet excepted that opens where
        the target starts is excepted. */
    method UnpackingTargets(node: Node, exceptions: seq<ParenCoords>) returns (e: seq<ParenCoords>)
      modifies this
      ensures WalkState(e, problems) == UnpackRule(vals, WalkState(exceptions, old(problems)), node, node.targets)
    {
      e := exceptions;
      for j := 0 to |node.targets|
        invariant WalkState(e, problems) ==
                  UnpackRule(vals, WalkState(exceptions, old(problems)), node, node.targets[..j])
      {
        assert node.targets[..j + 1][..j] == node.targets[..j];
        var targ := node.targets[j];
        if targ.kind != Tuple {
          continue;
        }
        // only the first element is looked at: the loop over `elts` always breaks
        if |targ.elts| > 0 {
          var elts := targ.elts[0];
          var tupleCoords := targ.start;
          var eltsCoords := elts.start;
          if PosLt(tupleCoords, eltsCoords) {
            ghost var e0 := e;
            ghost var pick := TuplePick(vals, e0, tupleCoords);
            for k := 0 to |vals|
              invariant e == e0
              invariant TuplePick(vals[k..], e0, tupleCoords) == pick
            {
              assert vals[k..][1..] == vals[k + 1..];
              var val := vals[k];
              if val.open == tupleCoords && val !in e {
                e := e + [val];
                break;
              }
            }
            assert e == Add(e0, pick);
            problems := problems + [Problem(node.start.line, node.start.col, Par002)];
          }
        }
      }
      assert node.targets[..|node.targets|] == node.targets;
    }

    /** The tail-tuple block of `check` for one node: when some tuple
        child ends at the node's end column, the first pair not yet
        excepted is excepted. */
    method TailTuple(node: Node, exceptions: seq<ParenCoords>) returns (e: seq<ParenCoords>)
      ensures e == TailRule(vals, exceptions, node)
    {
      e := exceptions;
      for j := 0 to |node.children|
        invariant e == exceptions
        invariant FirstTailTuple(node, node.children[j..]) == FirstTailTuple(node, node.children)
      {
        assert node.children[j..][1..] == node.children[j + 1..];
        var nodeTup := node.children[j];
        if nodeTup.kind == Tuple {
          if nodeTup.end.col - node.end.col == 0 {
            ghost var pick := FirstFresh(vals, exceptions);
            for k := 0 to |vals|
              invariant e == exceptions
              invariant FirstFresh(vals[k..], exceptions) == pick
            {
              assert vals[k..][1..] == vals[k + 1..];
              var val := vals[k];
              if val !in e {
                e := e + [val];
                break;
              }
            }
            assert e == Add(exceptions, pick);
            break;
          }
        }
      }
    }

    /** `check`: appends the PAR002 reports found on the walk, then one
        PAR001 report per pair not excepted. */
    method Check()
      modifies this
      ensures problems == old(problems) + Classify(vals, walk)
    {
      var exceptions: seq<ParenCoords> := [];
      for i := 0 to |walk|
        invariant exceptions == WalkTree(vals, walk[..i]).exceptions
        invariant problems == old(problems) + WalkTree(vals, walk[..i]).problems
      {
        var node := walk[i];
        ghost var st := WalkTree(vals, walk[..i]);
        WalkTreeStep(vals, walk, i);
        // The states between the rules, as `Visit` names them.
        ghost var e1 := if IsOperator(node.kind) then OperatorRule(vals, st.exceptions, node, node.children)
                        else st.exceptions;
        ghost var s2 := if node.kind == Assign then UnpackRule(vals, WalkState(e1, st.problems), node, node.targets)
                        else WalkState(e1, st.problems);
        if IsOperator(node.kind) {
          exceptions := OperatorChains(node, exceptions);
        }
        assert exceptions == e1;
        if node.kind == Assign {
          exceptions := UnpackingTargets(node, exceptions);
          UnpackRuleFrame(vals, e1, old(problems), st.problems, node, node.targets);
        }
        assert exceptions == s2.exceptions && problems == old(problems) + s2.problems;
        exceptions := TailTuple(node, exceptions);
      }
      assert walk[..|walk|] == walk;
      ReportRemaining(exceptions);
    }

    /** The final pass of `check`: one PAR001 report per pair not
        excepted, in pair order. */
    method ReportRemaining(exceptions: seq<ParenCoords>)
      modifies this
      ensures problems == old(problems) + Report(vals, exceptions)
    {
      var msg := Par001;
      for k := 0 to |vals|
        invariant problems == old(problems) + Report(vals[..k], exceptions)
      {
        assert vals[..k + 1][..k] == vals[..k];
        var val := vals[k];
        if val in exceptions {
          continue;
        }
        problems := problems + [Problem(val.open.line, val.open.col, msg)];
      }
      assert vals[..|vals|] == vals;
    }
  }
}
