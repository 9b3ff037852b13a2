/** The flake8 entry point `Plugin`: on construction it matches the
    brackets of the token list and keeps, in the order of their closing
    brackets, the pairs whose erasure leaves the syntax tree unchanged;
    `run` hands those pairs and the tree to the classifier and relays its
    reports. */
module FlakePlugin {
  import opened PyBuiltins
  import opened Tokens
  import opened BracketMatcher
  import opened EquivalenceTester
  import opened Classifier

  /** The exceptions `Plugin(...)` can raise. */
  datatype PluginError =
    | MatchFailed(matchError: MatchError)  // raised by `find_parens_coords`
    | CheckFailed(checkError: CheckError)  // raised by `check_trees`

  /** `"".join(lines)`. */
  function Concat(lines: seq<string>): string
  {
    if |lines| == 0 then "" else Concat(lines[..|lines| - 1]) + lines[|lines| - 1]
  }

  /** Erasing the pair leaves text that parses to a tree with the same dump. */
  predicate Redundant<T>(parse: string -> Option<T>, dump: T -> string, source: string,
                         startDump: string, c: ParenCoords)
  {
    ErasedSource(source, c).Ok? && SameDump(parse, dump, ErasedSource(source, c).value, startDump)
  }

  /** The loop of `Plugin.__init__`: the pairs `check_trees` accepts, in
      order, or the IndexError of the first pair it raises on. */
  function RedundantPairs<T>(parse: string -> Option<T>, dump: T -> string, source: string,
                             startDump: string, coords: seq<ParenCoords>)
    : Result<seq<ParenCoords>, CheckError>
  {
    if |coords| == 0 then Ok([])
    else Keep(parse, dump, source, startDump,
              RedundantPairs(parse, dump, source, startDump, coords[..|coords| - 1]), coords[|coords| - 1])
  }

  /** One step of that loop: `c` is kept when it is redundant; an error
      raised so far, or by `check_trees` on `c`, stops the loop. */
  function Keep<T>(parse: string -> Option<T>, dump: T -> string, source: string, startDump: string,
                   sofar: Result<seq<ParenCoords>, CheckError>, c: ParenCoords)
    : Result<seq<ParenCoords>, CheckError>
  {
    match sofar
    case Err(e) => Err(e)
    case Ok(vs) =>
      match ErasedSource(source, c)
      case Err(e) => Err(e)
      case Ok(_) => Ok(vs + if Redundant(parse, dump, source, startDump, c) then [c] else [])
  }

  lemma KeepChecked<T>(parse: string -> Option<T>, dump: T -> string, source: string, startDump: string,
                       vs: seq<ParenCoords>, c: ParenCoords)
    requires ErasedSource(source, c).Ok?
    ensures Keep(parse, dump, source, startDump, Ok(vs), c) ==
            Ok(if Redundant(parse, dump, source, startDump, c) then vs + [c] else vs)
  {
    assert vs + [] == vs;
  }

  /** One step of the loop over the pairs. */
  lemma KeepStep<T>(parse: string -> Option<T>, dump: T -> string, source: string, startDump: string,
                    coords: seq<ParenCoords>, k: nat)
    requires k < |coords|
    ensures RedundantPairs(parse, dump, source, startDump, coords[..k + 1]) ==
            Keep(parse, dump, source, startDump, RedundantPairs(parse, dump, source, startDump, coords[..k]), coords[k])
  {
    assert coords[..k + 1][..k] == coords[..k];
  }

  /** The loop of `Plugin.__init__` over the pairs found: each pair
      `check_trees` accepts is kept, in order. */
  method KeepRedundant<T>(parse: string -> Option<T>, dump: T -> string, source: string, startDump: string,
                          coords: seq<ParenCoords>)
    returns (r: Result<seq<ParenCoords>, CheckError>)
    ensures r == RedundantPairs(parse, dump, source, startDump, coords)
  {
    var vals: seq<ParenCoords> := [];
    for k := 0 to |coords|
      invariant RedundantPairs(parse, dump, source, startDump, coords[..k]) == Ok(vals)
    {
      KeepStep(parse, dump, source, startDump, coords, k);
      var same := CheckTrees(parse, dump, source, startDump, coords[k]);
      if same.Err? {
        RedundantPairsError(parse, dump, source, startDump, coords, k);
        assert same.error == ErasedSource(source, coords[k]).error == LineIndexError;
        return Err(same.error);
      }
      assert same.value <==> Redundant(parse, dump, source, startDump, coords[k]);
      KeepChecked(parse, dump, source, startDump, vals, coords[k]);
      if same.value {
        vals := vals + [coords[k]];
      }
    }
    assert coords[..|coords|] == coords;
    return Ok(vals);
  }

  /** What `run` yields, without the plugin type that closes each report. */
  function Reports(vals: seq<ParenCoords>, walk: seq<Node>): seq<Problem>
  {
    if |vals| == 0 then [] else Classify(vals, walk)
  }

  class Plugin<Tree> {
    const tree: Tree
    /** The source text, `"".join(read_lines())`. */
    const linesList: string
    const fileToken: seq<Token>
    const dumpTree: string
    const parensCoords: seq<ParenCoords>
    /** The redundant pairs. */
    var vals: seq<ParenCoords>
    /** `ast.parse`, `None` where it raises `SyntaxError` or `ValueError`. */
    const parse: string -> Option<Tree>
    /** `ast.dump`. */
    const dump: Tree -> string
    /** The nodes of a tree in `ast.walk` order. */
    const walkOf: Tree -> seq<Node>

    /** The fields as `__init__` leaves them. */
    constructor (tree: Tree, linesList: string, fileToken: seq<Token>, parensCoords: seq<ParenCoords>,
                 vals: seq<ParenCoords>, parse: string -> Option<Tree>, dump: Tree -> string,
                 walkOf: Tree -> seq<Node>)
      ensures this.tree == tree && this.linesList == linesList && this.fileToken == fileToken
      ensures this.dumpTree == dump(tree) && this.parensCoords == parensCoords && this.vals == vals
      ensures this.parse == parse && this.dump == dump && this.walkOf == walkOf
    {
      this.tree := tree;
      this.linesList := linesList;
      this.fileToken := fileToken;
      this.dumpTree := dump(tree);
      this.parensCoords := parensCoords;
      this.vals := vals;
      this.parse := parse;
      this.dump := dump;
      this.walkOf := walkOf;
    }

    /** `Plugin(tree, read_lines, file_tokens)`: the new plugin, or the
        exception its construction raises. */
    static method Create(tree: Tree, readLines: seq<string>, fileTokens: seq<Token>,
                         parse: string -> Option<Tree>, dump: Tree -> string, walkOf: Tree -> seq<Node>)
      returns (r: Result<Plugin<Tree>, PluginError>)
      ensures PairsOf(fileTokens).Err? ==> r == Err(MatchFailed(PairsOf(fileTokens).error))
      ensures PairsOf(fileTokens).Ok? ==>
                var found := RedundantPairs(parse, dump, Concat(readLines), dump(tree), PairsOf(fileTokens).value);
                (found.Err? ==> r == Err(CheckFailed(found.error))) &&
                (found.Ok? ==> r.Ok? && fresh(r.value) && r.value.vals == found.value &&
                               r.value.parensCoords == PairsOf(fileTokens).value &&
                               r.value.tree == tree && r.value.linesList == Concat(readLines) &&
                               r.value.dumpTree == dump(tree) && r.value.fileToken == fileTokens &&
                               r.value.parse == parse && r.value.dump == dump && r.value.walkOf == walkOf)
    {
      var linesList := Concat(readLines);
      var dumpTree := dump(tree);
      var matched := FindParensCoords(fileTokens);
      if matched.Err? {
        return Err(MatchFailed(matched.error));
      }
      var parensCoords := matched.value;
      var kept := KeepRedundant(parse, dump, linesList, dumpTree, parensCoords);
      if kept.Err? {
        return Err(CheckFailed(kept.error));
      }
      var plugin := new Plugin(tree, linesList, fileTokens, parensCoords, kept.value, parse, dump, walkOf);
      return Ok(plugin);
    }

    /** `run`: nothing when no pair is redundant, otherwise the reports of
        the classifier over the tree's walk. */
    method Run() returns (problems: seq<Problem>)
      ensures problems == Reports(vals, walkOf(tree))
    {
      if |vals| == 0 {
        return [];
      }
      var checker := new Checker(vals, walkOf(tree));
      checker.Check();
      problems := checker.problems;
    }
  }

  /** The first pair on which `check_trees` raises decides the error. */
  lemma {:induction false} RedundantPairsError<T>(parse: string -> Option<T>, dump: T -> string, source: string,
                                                  startDump: string, coords: seq<ParenCoords>, k: nat)
    requires k < |coords|
    requires RedundantPairs(parse, dump, source, startDump, coords[..k]).Ok?
    requires ErasedSource(source, coords[k]).Err?
    ensures RedundantPairs(parse, dump, source, startDump, coords) == Err(ErasedSource(source, coords[k]).error)
  {
    var e := ErasedSource(source, coords[k]).error;
    if k + 1 < |coords| {
      var init := coords[..|coords| - 1];
      assert init[..k] == coords[..k] && init[k] == coords[k];
      RedundantPairsError(parse, dump, source, startDump, init, k);
      assert RedundantPairs(parse, dump, source, startDump, init) == Err(e);
    } else {
      assert coords[..|coords| - 1] == coords[..k];
    }
  }
}
