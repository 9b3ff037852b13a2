/** The classifier on a few one-line and two-line programs, with the
    nodes of `ast.walk` that can affect the outcome (context and operator
    nodes carry no rule and are left out of the walks). */
module ClassifierExamples {
  import opened PyBuiltins
  import opened Tokens
  import opened BracketMatcher
  import opened Classifier

  function Leaf(line: int, col: int, endCol: int): Node
  {
    Node(Other, Pos(line, col), Pos(line, endCol), [], [], [])
  }

  /** A node on which no rule fires: no assignment, no operator with an
      operator child, no tuple child. */
  predicate Inert(node: Node)
  {
    node.kind != Assign &&
    (IsOperator(node.kind) ==> forall c :: c in node.children ==> !IsOperator(c.kind)) &&
    (forall c :: c in node.children ==> c.kind != Tuple)
  }

  /** An operator whose children are no operators excepts nothing. */
  lemma {:induction false} OperatorRuleWithoutOperands(vals: seq<ParenCoords>, exceptions: seq<ParenCoords>,
                                                       node: Node, children: seq<Node>)
    requires forall c :: c in children ==> !IsOperator(c.kind)
    ensures OperatorRule(vals, exceptions, node, children) == exceptions
  {
    if |children| > 0 {
      assert children[|children| - 1] in children;
      OperatorRuleWithoutOperands(vals, exceptions, node, children[..|children| - 1]);
    }
  }

  /** Visiting inert nodes changes nothing. */
  lemma {:induction false} InertWalk(vals: seq<ParenCoords>, nodes: seq<Node>, rest: seq<Node>)
    requires forall n :: n in rest ==> Inert(n)
    ensures WalkTree(vals, nodes + rest) == WalkTree(vals, nodes)
  {
    if |rest| > 0 {
      var last := rest[|rest| - 1];
      assert last in rest;
      assert (nodes + rest)[..|nodes + rest| - 1] == nodes + rest[..|rest| - 1];
      assert (nodes + rest)[|nodes + rest| - 1] == last;
      InertWalk(vals, nodes, rest[..|rest| - 1]);
      VisitInert(vals, WalkTree(vals, nodes), last);
    } else {
      assert nodes + rest == nodes;
    }
  }

  lemma VisitInert(vals: seq<ParenCoords>, st: WalkState, node: Node)
    requires Inert(node)
    ensures Visit(vals, st, node) == st
  {
    if IsOperator(node.kind) {
      OperatorRuleWithoutOperands(vals, st.exceptions, node, node.children);
    }
  }

  /** The walk visits its last node in the state the earlier ones leave. */
  lemma WalkStep(vals: seq<ParenCoords>, nodes: seq<Node>, node: Node)
    ensures WalkTree(vals, nodes + [node]) == Visit(vals, WalkTree(vals, nodes), node)
  {
    assert (nodes + [node])[..|nodes|] == nodes;
  }

  /** A walk in which only `node` is not inert ends in the state that
      visiting `node` first produces. */
  lemma WalkThrough(vals: seq<ParenCoords>, pre: seq<Node>, node: Node, rest: seq<Node>)
    requires forall n :: n in pre ==> Inert(n)
    requires forall n :: n in rest ==> Inert(n)
    ensures WalkTree(vals, pre + [node] + rest) == Visit(vals, WalkState([], []), node)
  {
    InertWalk(vals, [], pre);
    assert [] + pre == pre;
    InertWalk(vals, pre + [node], rest);
    assert (pre + [node])[..|pre|] == pre;
  }

  // `((a + b) + c)`
  const ChainA: Node := Leaf(1, 2, 3)
  const ChainB: Node := Leaf(1, 6, 7)
  const ChainC: Node := Leaf(1, 11, 12)
  const ChainInner: Node := Node(BinOp, Pos(1, 2), Pos(1, 7), [ChainA, ChainB], [], [])
  const ChainOuter: Node := Node(BinOp, Pos(1, 1), Pos(1, 12), [ChainInner, ChainC], [], [])
  const ChainExpr: Node := Node(Other, Pos(1, 0), Pos(1, 13), [ChainOuter], [], [])
  const ChainRoot: Node := Node(Other, Pos(1, 0), Pos(1, 13), [ChainExpr], [], [])
  const ChainInnerPair: ParenCoords := ParenCoords(Pos(1, 1), 2, " ", Pos(1, 7))
  const ChainOuterPair: ParenCoords := ParenCoords(Pos(1, 0), 1, "", Pos(1, 12))

  lemma ChainOuterVisit()
    ensures Visit([ChainInnerPair, ChainOuterPair], WalkState([], []), ChainOuter) ==
            WalkState([ChainInnerPair], [])
  {
    var vals := [ChainInnerPair, ChainOuterPair];
    assert ChainPick(vals, [], ChainOuter, ChainInner) == Some(ChainInnerPair);
    assert ChainOuter.children[..1] == [ChainInner];
    assert OperatorRule(vals, [], ChainOuter, [ChainInner]) == [ChainInnerPair];
  }

  lemma ChainWalk()
    ensures WalkTree([ChainInnerPair, ChainOuterPair],
                     [ChainRoot, ChainExpr, ChainOuter, ChainInner, ChainC, ChainA, ChainB])
            == WalkState([ChainInnerPair], [])
  {
    var vals := [ChainInnerPair, ChainOuterPair];
    var pre, rest := [ChainRoot, ChainExpr], [ChainInner, ChainC, ChainA, ChainB];
    assert Inert(ChainInner);
    WalkThrough(vals, pre, ChainOuter, rest);
    assert pre + [ChainOuter] + rest == [ChainRoot, ChainExpr, ChainOuter, ChainInner, ChainC, ChainA, ChainB];
    ChainOuterVisit();
  }

  /** `((a + b) + c)`: the inner pair holds an operand of the outer
      operator and is kept for readability; only the outer pair is
      reported, at column 0. */
  lemma NestedOperatorChain()
    ensures Classify([ChainInnerPair, ChainOuterPair],
                     [ChainRoot, ChainExpr, ChainOuter, ChainInner, ChainC, ChainA, ChainB])
            == [Problem(1, 0, Par001)]
  {
    ChainWalk();
    assert [ChainInnerPair, ChainOuterPair][..1] == [ChainInnerPair];
    assert Report([ChainInnerPair], [ChainInnerPair]) == [];
  }

  // `(a, b) = f()`
  const UnpackA: Node := Leaf(1, 1, 2)
  const UnpackB: Node := Leaf(1, 4, 5)
  const UnpackTarget: Node := Node(Tuple, Pos(1, 0), Pos(1, 6), [UnpackA, UnpackB], [], [UnpackA, UnpackB])
  const UnpackF: Node := Leaf(1, 9, 10)
  const UnpackCall: Node := Node(Other, Pos(1, 9), Pos(1, 12), [UnpackF], [], [])
  const UnpackAssign: Node := Node(Assign, Pos(1, 0), Pos(1, 12), [UnpackTarget, UnpackCall], [UnpackTarget], [])
  const UnpackRoot: Node := Node(Other, Pos(1, 0), Pos(1, 12), [UnpackAssign], [], [])
  const UnpackPair: ParenCoords := ParenCoords(Pos(1, 0), 1, "", Pos(1, 5))

  lemma UnpackAssignVisit()
    ensures Visit([UnpackPair], WalkState([], []), UnpackAssign) ==
            WalkState([UnpackPair], [Problem(1, 0, Par002)])
  {
    PosOrderIsLexicographic(UnpackTarget.start, UnpackA.start);
    assert ParenthesisedTarget(UnpackTarget);
    assert UnpackAssign.targets[..0] == [];
    assert TuplePick([UnpackPair], [], UnpackTarget.start) == Some(UnpackPair);
    assert UnpackRule([UnpackPair], WalkState([], []), UnpackAssign, UnpackAssign.targets) ==
           WalkState([UnpackPair], [Problem(1, 0, Par002)]);
    assert FirstTailTuple(UnpackAssign, UnpackAssign.children[1..]) == None;
    assert TailRule([UnpackPair], [UnpackPair], UnpackAssign) == [UnpackPair];
  }

  /** `(a, b) = f()`: the parenthesised target is reported as PAR002 and
      its pair is not reported again as PAR001. */
  lemma ParenthesisedUnpacking()
    ensures Classify([UnpackPair], [UnpackRoot, UnpackAssign, UnpackTarget, UnpackCall, UnpackA, UnpackB, UnpackF])
            == [Problem(1, 0, Par002)]
  {
    UnpackWalk();
    assert Report([UnpackPair], [UnpackPair]) == [];
  }

  lemma UnpackWalk()
    ensures WalkTree([UnpackPair], [UnpackRoot, UnpackAssign, UnpackTarget, UnpackCall, UnpackA, UnpackB, UnpackF])
            == WalkState([UnpackPair], [Problem(1, 0, Par002)])
  {
    var pre, rest := [UnpackRoot], [UnpackTarget, UnpackCall, UnpackA, UnpackB, UnpackF];
    WalkThrough([UnpackPair], pre, UnpackAssign, rest);
    assert pre + [UnpackAssign] + rest == [UnpackRoot, UnpackAssign, UnpackTarget, UnpackCall, UnpackA, UnpackB, UnpackF];
    UnpackAssignVisit();
  }

  // `x = (a, b)`
  const TailX: Node := Leaf(1, 0, 1)
  const TailA: Node := Leaf(1, 5, 6)
  const TailB: Node := Leaf(1, 8, 9)
  const TailValue: Node := Node(Tuple, Pos(1, 4), Pos(1, 10), [TailA, TailB], [], [TailA, TailB])
  const TailAssign: Node := Node(Assign, Pos(1, 0), Pos(1, 10), [TailX, TailValue], [TailX], [])
  const TailRoot: Node := Node(Other, Pos(1, 0), Pos(1, 10), [TailAssign], [], [])
  const TailPair: ParenCoords := ParenCoords(Pos(1, 4), 5, " ", Pos(1, 9))

  /** `x = (a, b)`: a tuple ending where its statement ends keeps its
      parentheses. */
  lemma TailTupleKept()
    ensures Classify([TailPair], [TailRoot, TailAssign, TailX, TailValue, TailA, TailB]) == []
  {
    var pre, rest := [TailRoot], [TailX, TailValue, TailA, TailB];
    WalkThrough([TailPair], pre, TailAssign, rest);
    assert pre + [TailAssign] + rest == [TailRoot, TailAssign, TailX, TailValue, TailA, TailB];
    assert TailAssign.targets[..0] == [];
    assert UnpackRule([TailPair], WalkState([], []), TailAssign, TailAssign.targets) == WalkState([], []);
    assert FirstTailTuple(TailAssign, TailAssign.children[1..]) == Some(TailValue);
    assert FirstFresh([TailPair], []) == Some(TailPair);
    assert TailRule([TailPair], [], TailAssign) == [TailPair];
    assert Visit([TailPair], WalkState([], []), TailAssign) == WalkState([TailPair], []);
    assert Report([TailPair], [TailPair]) == [];
  }

  // `y = (1)` then `x = (a, b)`
  const TwoY: Node := Leaf(1, 0, 1)
  const TwoOne: Node := Leaf(1, 5, 6)
  const TwoFirst: Node := Node(Assign, Pos(1, 0), Pos(1, 7), [TwoY, TwoOne], [TwoY], [])
  const TwoX: Node := Leaf(2, 0, 1)
  const TwoA: Node := Leaf(2, 5, 6)
  const TwoB: Node := Leaf(2, 8, 9)
  const TwoValue: Node := Node(Tuple, Pos(2, 4), Pos(2, 10), [TwoA, TwoB], [], [TwoA, TwoB])
  const TwoSecond: Node := Node(Assign, Pos(2, 0), Pos(2, 10), [TwoX, TwoValue], [TwoX], [])
  const TwoRoot: Node := Node(Other, Pos(1, 0), Pos(2, 10), [TwoFirst, TwoSecond], [], [])
  const TwoOnePair: ParenCoords := ParenCoords(Pos(1, 4), 5, " ", Pos(1, 6))
  const TwoTuplePair: ParenCoords := ParenCoords(Pos(2, 4), 5, " ", Pos(2, 9))

  lemma TwoFirstVisit(st: WalkState)
    requires st.exceptions == []
    ensures Visit([TwoOnePair, TwoTuplePair], st, TwoFirst) == st
  {
    var vals := [TwoOnePair, TwoTuplePair];
    assert TwoFirst.targets[..0] == [];
    assert UnpackRule(vals, st, TwoFirst, TwoFirst.targets) == st;
    assert TwoFirst.children[0].kind != Tuple && TwoFirst.children[1].kind != Tuple;
    assert FirstTailTuple(TwoFirst, TwoFirst.children[1..]) == None;
    assert TailRule(vals, [], TwoFirst) == [];
  }

  lemma TwoSecondVisit(st: WalkState)
    requires st.exceptions == []
    ensures Visit([TwoOnePair, TwoTuplePair], st, TwoSecond) == WalkState([TwoOnePair], st.problems)
  {
    var vals := [TwoOnePair, TwoTuplePair];
    assert TwoSecond.targets[..0] == [];
    assert UnpackRule(vals, st, TwoSecond, TwoSecond.targets) == st;
    assert FirstTailTuple(TwoSecond, TwoSecond.children[1..]) == Some(TwoValue);
    assert FirstFresh(vals, []) == Some(TwoOnePair);
    assert TailRule(vals, [], TwoSecond) == [TwoOnePair];
  }

  /** The nodes of the walk after the two assignments are inert. */
  lemma TwoRestInert()
    ensures forall n :: n in [TwoY, TwoOne, TwoX, TwoValue, TwoA, TwoB] ==> Inert(n)
  {
    assert Inert(TwoValue) by {
      assert TwoValue.children == [TwoA, TwoB];
    }
  }

  /** The two assignments: only the second excepts a pair. */
  lemma TwoStatements()
    ensures WalkTree([TwoOnePair, TwoTuplePair], [TwoRoot, TwoFirst, TwoSecond]) == WalkState([TwoOnePair], [])
  {
    var vals := [TwoOnePair, TwoTuplePair];
    var st0 := WalkState([], []);
    WalkStep(vals, [], TwoRoot);
    assert [] + [TwoRoot] == [TwoRoot];
    assert Inert(TwoRoot) by {
      assert TwoRoot.children == [TwoFirst, TwoSecond];
    }
    VisitInert(vals, st0, TwoRoot);
    WalkStep(vals, [TwoRoot], TwoFirst);
    assert [TwoRoot] + [TwoFirst] == [TwoRoot, TwoFirst];
    TwoFirstVisit(st0);
    WalkStep(vals, [TwoRoot, TwoFirst], TwoSecond);
    assert [TwoRoot, TwoFirst] + [TwoSecond] == [TwoRoot, TwoFirst, TwoSecond];
    TwoSecondVisit(st0);
  }

  lemma TwoWalk()
    ensures WalkTree([TwoOnePair, TwoTuplePair], [TwoRoot, TwoFirst, TwoSecond, TwoY, TwoOne, TwoX, TwoValue, TwoA, TwoB])
            == WalkState([TwoOnePair], [])
  {
    var vals := [TwoOnePair, TwoTuplePair];
    var rest := [TwoY, TwoOne, TwoX, TwoValue, TwoA, TwoB];
    TwoStatements();
    TwoRestInert();
    InertWalk(vals, [TwoRoot, TwoFirst, TwoSecond], rest);
    assert [TwoRoot, TwoFirst, TwoSecond] + rest == [TwoRoot, TwoFirst, TwoSecond, TwoY, TwoOne, TwoX, TwoValue, TwoA, TwoB];
  }

  /** `y = (1)` then `x = (a, b)`: the tail rule excepts the first pair
      not yet excepted, which is the one around `1`, so the report names
      the tuple's pair on line 2 and not the pair on line 1. */
  lemma TailRuleExceptsAnotherPair()
    ensures Classify([TwoOnePair, TwoTuplePair], [TwoRoot, TwoFirst, TwoSecond, TwoY, TwoOne, TwoX, TwoValue, TwoA, TwoB])
            == [Problem(2, 4, Par001)]
  {
    TwoWalk();
    assert [TwoOnePair, TwoTuplePair][..1] == [TwoOnePair];
    assert Report([TwoOnePair], [TwoOnePair]) == [];
    assert TwoTuplePair !in [TwoOnePair];
  }

  /** The tail rule compares end columns only: a tuple ending on an
      earlier line at the column where its parent ends still counts as
      a tail tuple. */
  lemma TailRuleIgnoresLines()
    ensures TailRule([TailPair], [], Node(Other, Pos(1, 0), Pos(3, 10), [TailValue], [], [])) == [TailPair]
  {
  }

  /** The tail rule looks past a tuple child that ends elsewhere: the
      second tuple child, ending where the parent ends, still counts. */
  lemma TailRuleSkipsOtherTuples()
    ensures TailRule([TailPair], [], Node(Other, Pos(1, 0), Pos(1, 10), [UnpackTarget, TailValue], [], []))
            == [TailPair]
  {
    var node := Node(Other, Pos(1, 0), Pos(1, 10), [UnpackTarget, TailValue], [], []);
    assert !TailTupleOf(node, UnpackTarget);
    assert FirstTailTuple(node, node.children[1..]) == Some(TailValue);
  }
}
