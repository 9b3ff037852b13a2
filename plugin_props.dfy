/** Properties of the plugin: the kept pairs are exactly the redundant
    ones, construction fails exactly when some pair cannot be erased, and
    every PAR001 report names a pair whose erasure keeps the tree. */
module PluginProperties {
  import opened PyBuiltins
  import opened Tokens
  import opened BracketMatcher
  import opened MatcherProperties
  import opened EquivalenceTester
  import opened Classifier
  import opened ClassifierProperties
  import opened FlakePlugin

  /** Every pair can be erased without an IndexError. */
  predicate AllErasable(source: string, coords: seq<ParenCoords>)
  {
    forall k :: 0 <= k < |coords| ==> ErasedSource(source, coords[k]).Ok?
  }

  /** The loop succeeds exactly when every pair can be erased, and then it
      keeps exactly the redundant pairs, none more than the pairs found. */
  lemma {:induction false} RedundantPairsExact<T>(parse: string -> Option<T>, dump: T -> string, source: string,
                                                  startDump: string, coords: seq<ParenCoords>)
    ensures RedundantPairs(parse, dump, source, startDump, coords).Ok? <==> AllErasable(source, coords)
    ensures RedundantPairs(parse, dump, source, startDump, coords).Ok? ==>
              var vs := RedundantPairs(parse, dump, source, startDump, coords).value;
              |vs| <= |coords| &&
              forall v :: v in vs <==> v in coords && Redundant(parse, dump, source, startDump, v)
  {
    if |coords| > 0 {
      var init, c := coords[..|coords| - 1], coords[|coords| - 1];
      RedundantPairsExact(parse, dump, source, startDump, init);
      assert coords == init + [c];
      if AllErasable(source, coords) {
        assert AllErasable(source, init) by {
          forall k | 0 <= k < |init| ensures ErasedSource(source, init[k]).Ok? {
            assert init[k] == coords[k];
          }
        }
        KeepChecked(parse, dump, source, startDump, RedundantPairs(parse, dump, source, startDump, init).value, c);
      } else if AllErasable(source, init) {
        assert ErasedSource(source, c).Err?;
      }
    }
  }

  /** What `run` yields once some pair is redundant: the PAR002 reports
      of the assignments, then one PAR001 report per redundant pair not
      excepted; every PAR001 report names a pair that was found, whose
      erasure leaves a text with the same tree dump. */
  lemma PluginReports<T>(parse: string -> Option<T>, dump: T -> string, source: string, startDump: string,
                         coords: seq<ParenCoords>, walk: seq<Node>)
    requires RedundantPairs(parse, dump, source, startDump, coords).Ok?
    ensures var vs := RedundantPairs(parse, dump, source, startDump, coords).value;
            |vs| > 0 ==> Reports(vs, walk) == UnpackReports(walk) + Report(vs, WalkTree(vs, walk).exceptions)
    ensures var vs := RedundantPairs(parse, dump, source, startDump, coords).value;
            forall p :: p in Reports(vs, walk) && p.msg == Par001 ==>
              exists v :: v in coords && Redundant(parse, dump, source, startDump, v) && p == Par001At(v)
  {
    var vs := RedundantPairs(parse, dump, source, startDump, coords).value;
    RedundantPairsExact(parse, dump, source, startDump, coords);
    ClassifyShape(vs, walk);
  }

  /** A token list without brackets: `find_parens_coords` finds no pair,
      no pair is kept, and the plugin reports nothing. */
  lemma NoBracketsNoReports<T>(tokens: seq<Token>, parse: string -> Option<T>, dump: T -> string,
                               source: string, startDump: string, walk: seq<Node>)
    requires forall k :: 0 <= k < |tokens| ==> !IsOpener(tokens[k]) && !IsCloser(tokens[k])
    ensures PairsOf(tokens) == Ok([])
    ensures RedundantPairs(parse, dump, source, startDump, PairsOf(tokens).value) == Ok([])
    ensures Reports(RedundantPairs(parse, dump, source, startDump, PairsOf(tokens).value).value, walk) == []
  {
    NoBracketsNoPairs(tokens);
  }
}
