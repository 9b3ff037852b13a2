/** Properties of the classifier: which pair the operator-chain scan
    picks, that the exceptions are always distinct redundant pairs, that
    the PAR002 reports do not depend on the pairs, what the final PAR001
    pass reports, and the outcome on a few concrete programs. */
module ClassifierProperties {
  import opened PyBuiltins
  import opened Tokens
  import opened BracketMatcher
  import opened Classifier

  // ---------------------------------------------------------------------
  // The operator-chain scan

  /** The pair at which the operator-chain scan over `vals` stops. */
  predicate ChainStop(exceptions: seq<ParenCoords>, node: Node, child: Node, v: ParenCoords)
  {
    Checker.NodeInParens(node, v) || (Checker.NodeInParens(child, v) && v !in exceptions)
  }

  /** The scan picks the pair at the first stop, unless that pair holds
      the whole operator node. */
  lemma {:induction false} ChainPickAtFirstStop(vals: seq<ParenCoords>, exceptions: seq<ParenCoords>,
                                                node: Node, child: Node, k: nat)
    requires k < |vals| && ChainStop(exceptions, node, child, vals[k])
    requires forall j :: 0 <= j < k ==> !ChainStop(exceptions, node, child, vals[j])
    ensures ChainPick(vals, exceptions, node, child) ==
            if Checker.NodeInParens(node, vals[k]) then None else Some(vals[k])
  {
    if k > 0 {
      assert !ChainStop(exceptions, node, child, vals[0]);
      assert forall j :: 0 <= j < k - 1 ==> vals[1..][j] == vals[j + 1];
      ChainPickAtFirstStop(vals[1..], exceptions, node, child, k - 1);
    }
  }

  /** Without a stop the scan picks nothing. */
  lemma {:induction false} ChainPickWithoutStop(vals: seq<ParenCoords>, exceptions: seq<ParenCoords>,
                                                node: Node, child: Node)
    requires forall j :: 0 <= j < |vals| ==> !ChainStop(exceptions, node, child, vals[j])
    ensures ChainPick(vals, exceptions, node, child) == None
  {
    if |vals| > 0 {
      assert !ChainStop(exceptions, node, child, vals[0]);
      assert forall j :: 0 <= j < |vals| - 1 ==> vals[1..][j] == vals[j + 1];
      ChainPickWithoutStop(vals[1..], exceptions, node, child);
    }
  }

  // ---------------------------------------------------------------------
  // The exceptions are distinct redundant pairs

  predicate Distinct(s: seq<ParenCoords>)
  {
    forall i, j :: 0 <= i < j < |s| ==> s[i] != s[j]
  }

  /** Every exception is one of the pairs, and none is excepted twice. */
  predicate Clean(vals: seq<ParenCoords>, exceptions: seq<ParenCoords>)
  {
    (forall v :: v in exceptions ==> v in vals) && Distinct(exceptions)
  }

  lemma AddClean(vals: seq<ParenCoords>, exceptions: seq<ParenCoords>, pick: Option<ParenCoords>)
    requires Clean(vals, exceptions)
    requires pick.Some? ==> pick.value in vals && pick.value !in exceptions
    ensures Clean(vals, Add(exceptions, pick))
  {
    if pick.Some? {
      var e := exceptions + [pick.value];
      forall i, j | 0 <= i < j < |e| ensures e[i] != e[j] {
        if j == |exceptions| {
          assert e[i] in exceptions;
        }
      }
    }
  }

  lemma {:induction false} OperatorRuleClean(vals: seq<ParenCoords>, exceptions: seq<ParenCoords>,
                                             node: Node, children: seq<Node>)
    requires Clean(vals, exceptions)
    ensures Clean(vals, OperatorRule(vals, exceptions, node, children))
  {
    if |children| > 0 {
      var e := OperatorRule(vals, exceptions, node, children[..|children| - 1]);
      OperatorRuleClean(vals, exceptions, node, children[..|children| - 1]);
      var child := children[|children| - 1];
      if IsOperator(child.kind) {
        AddClean(vals, e, ChainPick(vals, e, node, child));
      }
    }
  }

  lemma {:induction false} UnpackRuleClean(vals: seq<ParenCoords>, st: WalkState, node: Node, targets: seq<Node>)
    requires Clean(vals, st.exceptions)
    ensures Clean(vals, UnpackRule(vals, st, node, targets).exceptions)
  {
    if |targets| > 0 {
      var s := UnpackRule(vals, st, node, targets[..|targets| - 1]);
      UnpackRuleClean(vals, st, node, targets[..|targets| - 1]);
      var targ := targets[|targets| - 1];
      if ParenthesisedTarget(targ) {
        AddClean(vals, s.exceptions, TuplePick(vals, s.exceptions, targ.start));
      }
    }
  }

  lemma VisitClean(vals: seq<ParenCoords>, st: WalkState, node: Node)
    requires Clean(vals, st.exceptions)
    ensures Clean(vals, Visit(vals, st, node).exceptions)
  {
    var e1 := if IsOperator(node.kind) then OperatorRule(vals, st.exceptions, node, node.children)
              else st.exceptions;
    if IsOperator(node.kind) {
      OperatorRuleClean(vals, st.exceptions, node, node.children);
    }
    var s2 := if node.kind == Assign then UnpackRule(vals, WalkState(e1, st.problems), node, node.targets)
              else WalkState(e1, st.problems);
    if node.kind == Assign {
      UnpackRuleClean(vals, WalkState(e1, st.problems), node, node.targets);
    }
    AddClean(vals, s2.exceptions, FirstFresh(vals, s2.exceptions));
  }

  /** Whatever the walk, the exceptions stay distinct redundant pairs. */
  lemma {:induction false} WalkTreeClean(vals: seq<ParenCoords>, nodes: seq<Node>)
    ensures Clean(vals, WalkTree(vals, nodes).exceptions)
  {
    if |nodes| > 0 {
      WalkTreeClean(vals, nodes[..|nodes| - 1]);
      VisitClean(vals, WalkTree(vals, nodes[..|nodes| - 1]), nodes[|nodes| - 1]);
    }
  }

  // ---------------------------------------------------------------------
  // The PAR002 reports

  /** One PAR002 report at the assignment per parenthesised target. */
  function TargetReports(node: Node, targets: seq<Node>): seq<Problem>
  {
    if |targets| == 0 then []
    else
      TargetReports(node, targets[..|targets| - 1]) +
      (if ParenthesisedTarget(targets[|targets| - 1]) then [Problem(node.start.line, node.start.col, Par002)]
       else [])
  }

  /** The PAR002 reports of a walk, read off the nodes alone. */
  function UnpackReports(nodes: seq<Node>): seq<Problem>
  {
    if |nodes| == 0 then []
    else
      var node := nodes[|nodes| - 1];
      UnpackReports(nodes[..|nodes| - 1]) + (if node.kind == Assign then TargetReports(node, node.targets) else [])
  }

  lemma {:induction false} UnpackRuleProblems(vals: seq<ParenCoords>, st: WalkState, node: Node, targets: seq<Node>)
    ensures UnpackRule(vals, st, node, targets).problems == st.problems + TargetReports(node, targets)
  {
    if |targets| > 0 {
      UnpackRuleProblems(vals, st, node, targets[..|targets| - 1]);
    }
  }

  /** The walk's reports are the PAR002 reports of its assignments, in
      walk order, whatever the redundant pairs are. */
  lemma {:induction false} WalkProblemsIndependentOfPairs(vals: seq<ParenCoords>, nodes: seq<Node>)
    ensures WalkTree(vals, nodes).problems == UnpackReports(nodes)
  {
    if |nodes| > 0 {
      var st := WalkTree(vals, nodes[..|nodes| - 1]);
      WalkProblemsIndependentOfPairs(vals, nodes[..|nodes| - 1]);
      var node := nodes[|nodes| - 1];
      var e1 := if IsOperator(node.kind) then OperatorRule(vals, st.exceptions, node, node.children)
                else st.exceptions;
      if node.kind == Assign {
        UnpackRuleProblems(vals, WalkState(e1, st.problems), node, node.targets);
      }
    }
  }

  // ---------------------------------------------------------------------
  // The PAR001 reports

  /** The final pass reports a pair exactly when it was not excepted: a
      report for every such pair, and every report comes from one. */
  lemma {:induction false} ReportMembership(vals: seq<ParenCoords>, exceptions: seq<ParenCoords>)
    ensures forall v :: v in vals && v !in exceptions ==> Par001At(v) in Report(vals, exceptions)
    ensures forall p :: p in Report(vals, exceptions) ==>
              exists v :: v in vals && v !in exceptions && p == Par001At(v)
  {
    if |vals| > 0 {
      var init := vals[..|vals| - 1];
      ReportMembership(init, exceptions);
      assert vals == init + [vals[|vals| - 1]];
    }
  }

  /** Every pair excepted: nothing is reported. */
  lemma {:induction false} ReportAllExcepted(vals: seq<ParenCoords>, exceptions: seq<ParenCoords>)
    requires forall v :: v in vals ==> v in exceptions
    ensures Report(vals, exceptions) == []
  {
    if |vals| > 0 {
      ReportAllExcepted(vals[..|vals| - 1], exceptions);
    }
  }

  /** Nothing excepted: one report per pair, in order. */
  lemma {:induction false} ReportNoneExcepted(vals: seq<ParenCoords>)
    ensures |Report(vals, [])| == |vals|
    ensures forall k :: 0 <= k < |vals| ==> Report(vals, [])[k] == Par001At(vals[k])
  {
    if |vals| > 0 {
      ReportNoneExcepted(vals[..|vals| - 1]);
    }
  }

  /** What `check` reports: first the PAR002 reports of the assignments,
      which do not depend on the pairs, then one PAR001 report per pair
      not excepted, and every PAR001 report names a redundant pair. */
  lemma ClassifyShape(vals: seq<ParenCoords>, walk: seq<Node>)
    ensures var exceptions := WalkTree(vals, walk).exceptions;
            Clean(vals, exceptions) &&
            Classify(vals, walk) == UnpackReports(walk) + Report(vals, exceptions)
    ensures forall p :: p in Classify(vals, walk) && p.msg == Par001 ==>
              exists v :: v in vals && p == Par001At(v)
  {
    WalkTreeClean(vals, walk);
    WalkProblemsIndependentOfPairs(vals, walk);
    UnpackReportsArePar002(walk);
    Par001ComeFromReport(UnpackReports(walk), vals, WalkTree(vals, walk).exceptions);
  }

  /** Behind PAR002 reports, every PAR001 report names a pair. */
  lemma Par001ComeFromReport(unpack: seq<Problem>, vals: seq<ParenCoords>, exceptions: seq<ParenCoords>)
    requires forall p :: p in unpack ==> p.msg == Par002
    ensures forall p :: p in unpack + Report(vals, exceptions) && p.msg == Par001 ==>
              exists v :: v in vals && p == Par001At(v)
  {
    ReportMembership(vals, exceptions);
    MessagesDiffer();
    forall p | p in unpack + Report(vals, exceptions) && p.msg == Par001
      ensures exists v :: v in vals && p == Par001At(v)
    {
      assert p !in unpack;
      var v :| v in vals && v !in exceptions && p == Par001At(v);
    }
  }

  lemma MessagesDiffer()
    ensures Par001 != Par002
  {
    assert Par001[5] == '1' && Par002[5] == '2';
  }

  lemma {:induction false} TargetReportsArePar002(node: Node, targets: seq<Node>)
    ensures forall p :: p in TargetReports(node, targets) ==> p.msg == Par002
  {
    if |targets| > 0 {
      TargetReportsArePar002(node, targets[..|targets| - 1]);
    }
  }

  lemma {:induction false} UnpackReportsArePar002(nodes: seq<Node>)
    ensures forall p :: p in UnpackReports(nodes) ==> p.msg == Par002
  {
    if |nodes| > 0 {
      UnpackReportsArePar002(nodes[..|nodes| - 1]);
      TargetReportsArePar002(nodes[|nodes| - 1], nodes[|nodes| - 1].targets);
    }
  }
}
