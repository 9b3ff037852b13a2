# flake8-redundant-parentheses, modelled in Dafny

This project models the core of a flake8 plugin that reports redundant
parentheses, brackets and braces in Python source. The plugin works in
three stages:

1. The **bracket matcher** (`find_parens_coords`) pairs every closing
   bracket token with the most recent unmatched opening one. For each
   pair it records how the opening bracket is to be erased: from where
   to where, and with what replacement text.
2. The **equivalence tester** (`check_trees`) erases one pair from the
   source text and re-parses it. The pair is redundant when the new
   tree dumps the same as the original.
3. The **classifier** (`Checker.check`) walks the syntax tree once and
   builds a list of exceptions: redundant pairs kept for readability.
   There are three exception rules:
   - operator chains;
   - parenthesised unpacking targets, which are reported as PAR002
     instead;
   - tuples at the tail of their parent.

   At the end it reports every redundant pair that was not excepted as
   PAR001.

`Plugin` ties the stages together. Its construction keeps the redundant
pairs, in the order of their closing brackets. `run` reports nothing when there are none; otherwise
it relays the classifier's reports.

Layout, one module per file:

- `pybuiltins.dfy`, module `PyBuiltins`: the Python semantics the code
  relies on. This covers tuple comparison, slices with clamped and
  negative bounds, negative list indexes, `str.split("\n")` and
  `"\n".join`.
- `tokens.dfy`, module `Tokens`: positions, tokens, the operator token
  type `54` and the bracket lists.
- `matcher.dfy`, module `BracketMatcher`: the matcher.
  - `Scan` is its specification over token indexes.
  - `FindParensCoords` is the imperative stack loop proved equal to it.
- `matcher_props.dfy`, module `MatcherProperties`: what the matcher
  guarantees.
- `matcher_examples.dfy`, module `MatcherExamples`: the matcher on the
  tokens of `x([])`.
- `tester.dfy`, module `EquivalenceTester`: `CheckTrees` and the
  erasure it performs.
- `checker.dfy`, module `Classifier`: the `Checker` class.
  - Its `Check` method appends exactly the reports of the specification
    `Classify`.
  - The three rule blocks of the walk's loop body are the methods
    `OperatorChains`, `UnpackingTargets` and `TailTuple`, and the final
    pass over the pairs is `ReportRemaining`.
- `checker_props.dfy`, module `ClassifierProperties`: properties of the
  classifier.
- `checker_examples.dfy`, module `ClassifierExamples`: the classifier on
  concrete programs.
- `plugin.dfy`, module `FlakePlugin`: the `Plugin` class.
- `plugin_props.dfy`, module `PluginProperties`: end-to-end properties.

Where the code raises, the model returns an error value:

- `find_parens_coords` can raise an IndexError reading the next token or
  popping an empty stack. Its assertion that the bracket kinds agree can
  also fail. These become `BracketMatcher.MatchError`.
- `check_trees` can raise an IndexError on a line index out of range. This
  becomes `EquivalenceTester.CheckError`.
- Either error makes `Plugin.Create` return `FlakePlugin.PluginError`.
  This stands for `Plugin(...)` raising out of `__init__`.

`ast.parse`, `ast.dump` and `ast.walk` are not modelled. They are
function-valued parameters:

- `parse` yields `None` where Python raises `SyntaxError` or `ValueError`.
- `dump` gives the tree's dump.
- `walkOf` gives the nodes of the tree in walk order.

Behaviour of the code that is easy to misread:

- **PAR002 spelling.** The message reads
  `"PAR002: Dont use parentheses for unpacking"`, without an apostrophe.
- **PAR002 is not always reported.** It appears only when some pair is
  redundant, because `run` returns before the walk when there are none
  (`FlakePlugin.Reports`). It is reported only for a tuple target that
  starts before its first element.
- **Errors in the tester are not caught.** Only `ValueError` and
  `SyntaxError` from parsing count as "not redundant". An IndexError while
  editing the lines propagates out of `Plugin(...)`.
- **The tail rule compares end columns only.** The lines are not compared,
  so `ClassifierExamples.TailRuleIgnoresLines` holds. The rule excepts the
  first pair not yet excepted, whichever pair it is. In
  `ClassifierExamples.TailRuleExceptsAnotherPair` that is a pair on an
  earlier line, so the tuple's own pair is reported. The search over the
  children stops only at a tuple that passes this test
  (`ClassifierExamples.TailRuleSkipsOtherTuples`).
- **A lone opener is erased up to the line's last character.** When an
  opener starts its line and no token follows it on that line, its erasure
  ends at column `len(line) - 2`, not at the end of the line. After a
  bracket that ends a line the tokenizer emits a line-break token on the
  same line, so this case arises only when the line ends in a backslash
  continuation. Column `len(line) - 2` is then the backslash's column: the
  opener and the spaces after it are removed and the backslash is kept
  (`EquivalenceTester.AloneOpenerErasedToBackslash`). Were the token's line
  only the opener and a line break, the span would be empty
  (`EquivalenceTester.AloneOpenerEmptySpan`).
- **In-place erasure uses a space.** An opener that is not first on its line
  is overwritten in place by one space. It is not replaced by an empty
  string.
- **The operator-chain scan can stop early.** For each operator child, the
  scan over the pairs stops at the first pair that holds the whole parent
  node. Later pairs around the child are then not excepted.

## Model

| member | source | states |
|---|---|---|
| PyBuiltins.TupleCompare | flake8_plugins/flake8_redundant_parentheses/parentheses_checker/__init__.py:22-24 | Python tuple comparison yields -1, 0 or 1, and 0 exactly when the tuples are equal |
| PyBuiltins.TupleCompareAntisymmetric | flake8_plugins/flake8_redundant_parentheses/parentheses_checker/__init__.py:22-24 | swapping the operands of a tuple comparison negates it, so `a >= b` is `b <= a` |
| PyBuiltins.SliceBound | flake8_plugins/flake8_redundant_parentheses/parentheses_checker/__init__.py:149-156 | a slice bound, negative or past the end, denotes a position between 0 and the length |
| PyBuiltins.NormIndex | flake8_plugins/flake8_redundant_parentheses/parentheses_checker/__init__.py:149-156 | a valid list index, possibly negative, denotes a position inside the list, and a non-negative one denotes itself |
| PyBuiltins.Split | flake8_plugins/flake8_redundant_parentheses/parentheses_checker/__init__.py:148 | `split("\n")` yields at least one piece, and no piece holds a line break |
| PyBuiltins.JoinSplit | flake8_plugins/flake8_redundant_parentheses/parentheses_checker/__init__.py:148-157 | joining the pieces of a split with line breaks gives back the text |
| PyBuiltins.SplitJoin | flake8_plugins/flake8_redundant_parentheses/parentheses_checker/__init__.py:148-157 | splitting the join of one or more lines without line breaks gives back those lines |
| Tokens.PosOrderIsLexicographic | flake8_plugins/flake8_redundant_parentheses/parentheses_checker/__init__.py:22-24 | `<=`, `<` and `>=` on `(line, column)` tuples order first by line, then by column |
| Tokens.IndexOf | flake8_plugins/flake8_redundant_parentheses/parentheses_checker/__init__.py:132-133 | `list.index` returns the first position holding the symbol |
| Tokens.AgreeingSymbols | flake8_plugins/flake8_redundant_parentheses/parentheses_checker/__init__.py:107-108 | an opening and a closing symbol sit at the same list position exactly for `[]`, `{}` and `()` |
| BracketMatcher.Scan | flake8_plugins/flake8_redundant_parentheses/parentheses_checker/__init__.py:112-136 | every match a successful scan returns has an opener with a readable record, so its record can be built |
| BracketMatcher.FindParensCoords | flake8_plugins/flake8_redundant_parentheses/parentheses_checker/__init__.py:106-138 | the stack loop returns the records of the scan's matches in closing order, or fails at the token where the scan fails |
| MatcherProperties.ScanOutcome | flake8_plugins/flake8_redundant_parentheses/parentheses_checker/__init__.py:112-136 | from any state meeting the scan invariant, the scan ends with well-matched pairs, or it stops at a token reached in a state that meets the invariant and from which that token raises: an opener first on its line that is the last token, a closer with no opener waiting, or a closer whose most recent waiting opener has another kind |
| MatcherProperties.MatchTokensSound | flake8_plugins/flake8_redundant_parentheses/parentheses_checker/__init__.py:106-138 | success: each closer is matched once, in closer order, to an earlier opener of the same kind; no opener is used twice; every opener inside a pair is matched before it closes. Failure: the tokens before the error's token were matched without a fault, leaving a state that meets the scan invariant. From that state the token raises: an opener first on its line that is the last token; a closer with no opener waiting, after as many openers as closers; or a closer whose most recent waiting opener, the one `pop()` returns, has another kind |
| MatcherProperties.PairsNest | flake8_plugins/flake8_redundant_parentheses/parentheses_checker/__init__.py:130-136 | of two pairs, the later one either encloses the earlier one or lies entirely after it |
| MatcherProperties.RecordLayout | flake8_plugins/flake8_redundant_parentheses/parentheses_checker/__init__.py:116-128 | each record is the opener's start and the closer's start, plus the erase end and replacement for the opener's place on its line: not first gives its end column and `" "`; first with a follower gives the follower's column and `""`; alone gives `len(line) - 2` and `""` |
| MatcherProperties.NoBracketsNoPairs | flake8_plugins/flake8_redundant_parentheses/parentheses_checker/__init__.py:106-138 | a token list without brackets yields no pairs and no error |
| MatcherExamples.NestedStateBeforeClose | flake8_plugins/flake8_redundant_parentheses/parentheses_checker/__init__.py:112-125 | in `x([])`, the only state meeting the scan invariant before the `]` has `(` and `[` waiting, `[` on top, and no pairs yet |
| MatcherExamples.NestedNoMismatch | flake8_plugins/flake8_redundant_parentheses/parentheses_checker/__init__.py:130-133 | in `x([])` the `]` is no kind mismatch, since it agrees with the `[` that `pop()` returns |
| MatcherExamples.NestedMatches | flake8_plugins/flake8_redundant_parentheses/parentheses_checker/__init__.py:112-138 | the scan of `x([])` matches `[]` first and then `()` |
| EquivalenceTester.EditLines | flake8_plugins/flake8_redundant_parentheses/parentheses_checker/__init__.py:147-156 | the two edits give exactly the lines of `EraseLines`: the spliced opening line and the blanked, shifted closing bracket, or an IndexError when a line index is out of range |
| EquivalenceTester.CheckTrees | flake8_plugins/flake8_redundant_parentheses/parentheses_checker/__init__.py:141-165 | fails exactly when the erasure indexes a missing line. Otherwise it says false when the erased text does not parse, and when it parses, whether its dump equals the original dump |
| EquivalenceTester.EraseTouchesTwoLines | flake8_plugins/flake8_redundant_parentheses/parentheses_checker/__init__.py:148-156 | the erasure keeps the number of lines and changes only the opening and closing lines, with the splice and the blank |
| EquivalenceTester.BlankCloseInPlace | flake8_plugins/flake8_redundant_parentheses/parentheses_checker/__init__.py:155-156 | blanking a column inside the line overwrites exactly that character with a space |
| EquivalenceTester.ShiftTracksClose | flake8_plugins/flake8_redundant_parentheses/parentheses_checker/__init__.py:152-156 | on a shared line, the shifted column is the original closing character, and the result is the line with the span replaced and the closer blanked |
| EquivalenceTester.InPlaceErasure | flake8_plugins/flake8_redundant_parentheses/parentheses_checker/__init__.py:117-119 | for an in-place record, the shift is 0 and each bracket becomes one space, keeping every other column |
| EquivalenceTester.AloneOpenerErasedToBackslash | flake8_plugins/flake8_redundant_parentheses/parentheses_checker/__init__.py:126-128 | an opener that starts a line ending in a backslash continuation gets the backslash's column as its erase end, so the splice removes the opener and what follows it up to the backslash and keeps the backslash |
| EquivalenceTester.AloneOpenerEmptySpan | flake8_plugins/flake8_redundant_parentheses/parentheses_checker/__init__.py:126-128 | the erase end is the token line's length less two, so a token line holding only the opener and a line break gives an empty span and an unchanged line |
| EquivalenceTester.ErasedSourceKeepsLines | flake8_plugins/flake8_redundant_parentheses/parentheses_checker/__init__.py:148-157 | with a break-free replacement, the erased text splits back into exactly the edited lines, so no line is added or lost |
| Classifier.ChainPick | flake8_plugins/flake8_redundant_parentheses/parentheses_checker/__init__.py:37-43 | a pair picked by the operator-chain scan is redundant, not yet excepted, holds the child and does not hold the parent |
| Classifier.TuplePick | flake8_plugins/flake8_redundant_parentheses/parentheses_checker/__init__.py:53-59 | the picked pair opens at the target's start and was not excepted, and every pair before it in pair order opens elsewhere or is already excepted; nothing is picked exactly when every such pair is already excepted |
| Classifier.FirstFresh | flake8_plugins/flake8_redundant_parentheses/parentheses_checker/__init__.py:70-73 | the picked pair is not yet excepted and every pair before it in pair order is already excepted; nothing is picked exactly when all are excepted |
| Classifier.FirstTailTuple | flake8_plugins/flake8_redundant_parentheses/parentheses_checker/__init__.py:67-69 | the found child is a tuple ending at its parent's end column; nothing is found exactly when no child is such a tuple |
| Classifier.Checker.constructor | flake8_plugins/flake8_redundant_parentheses/parentheses_checker/__init__.py:13-16 | a new checker holds the pairs and the walk, with no problems |
| Classifier.Checker.NodeInParens | flake8_plugins/flake8_redundant_parentheses/parentheses_checker/__init__.py:19-24 | a node is in a pair exactly when its start is at or after the opening position and its end at or before the closing position, in line-then-column order |
| Classifier.Checker.OperatorChains | flake8_plugins/flake8_redundant_parentheses/parentheses_checker/__init__.py:33-43 | the loops over the children and the pairs add exactly the operator rule's picks to the exceptions |
| Classifier.Checker.UnpackingTargets | flake8_plugins/flake8_redundant_parentheses/parentheses_checker/__init__.py:45-65 | the loops over the targets add the unpacking rule's exceptions, and one PAR002 report per parenthesised target |
| Classifier.Checker.TailTuple | flake8_plugins/flake8_redundant_parentheses/parentheses_checker/__init__.py:67-74 | the loop over the children adds exactly the tail rule's exception |
| Classifier.Checker.ReportRemaining | flake8_plugins/flake8_redundant_parentheses/parentheses_checker/__init__.py:76-79 | appends one PAR001 report per pair not excepted, in pair order, exactly the reports of `Report` |
| Classifier.Checker.Check | flake8_plugins/flake8_redundant_parentheses/parentheses_checker/__init__.py:26-79 | appends to the problems exactly the walk's PAR002 reports followed by the final PAR001 reports |
| ClassifierProperties.ChainPickAtFirstStop | flake8_plugins/flake8_redundant_parentheses/parentheses_checker/__init__.py:37-43 | the scan decides at the first pair that holds the parent or holds the child unexcepted: nothing in the first case, that pair in the second |
| ClassifierProperties.ChainPickWithoutStop | flake8_plugins/flake8_redundant_parentheses/parentheses_checker/__init__.py:37-43 | without such a pair, the scan picks nothing |
| ClassifierProperties.WalkTreeClean | flake8_plugins/flake8_redundant_parentheses/parentheses_checker/__init__.py:30-74 | after any walk, every exception is a redundant pair and none is excepted twice |
| ClassifierProperties.WalkProblemsIndependentOfPairs | flake8_plugins/flake8_redundant_parentheses/parentheses_checker/__init__.py:45-65 | the walk's reports are one PAR002 per parenthesised target of each assignment, in walk order, whatever the pairs are |
| ClassifierProperties.ReportMembership | flake8_plugins/flake8_redundant_parentheses/parentheses_checker/__init__.py:76-79 | every pair not excepted is reported as PAR001 at its opening position, and every report comes from such a pair |
| ClassifierProperties.ReportAllExcepted | flake8_plugins/flake8_redundant_parentheses/parentheses_checker/__init__.py:76-79 | when every pair is excepted, the final pass reports nothing |
| ClassifierProperties.ReportNoneExcepted | flake8_plugins/flake8_redundant_parentheses/parentheses_checker/__init__.py:76-79 | with no exceptions, one report per pair, in pair order |
| ClassifierProperties.ClassifyShape | flake8_plugins/flake8_redundant_parentheses/parentheses_checker/__init__.py:26-79 | `check` reports the PAR002s first, then the PAR001s of the pairs not excepted, taken from a clean exception list; every PAR001 names a redundant pair |
| ClassifierExamples.NestedOperatorChain | flake8_plugins/flake8_redundant_parentheses/parentheses_checker/__init__.py:31-43 | in `((a + b) + c)` the inner pair is excepted and only the outer pair is reported, at column 0 |
| ClassifierExamples.ParenthesisedUnpacking | flake8_plugins/flake8_redundant_parentheses/parentheses_checker/__init__.py:45-65 | `(a, b) = f()` yields one PAR002 at the assignment and no PAR001 |
| ClassifierExamples.TailTupleKept | flake8_plugins/flake8_redundant_parentheses/parentheses_checker/__init__.py:67-74 | `x = (a, b)` yields no report |
| ClassifierExamples.TailRuleExceptsAnotherPair | flake8_plugins/flake8_redundant_parentheses/parentheses_checker/__init__.py:67-74 | in `y = (1)` then `x = (a, b)`, the tail rule excepts the pair on line 1, so the report names the tuple's pair on line 2 |
| ClassifierExamples.TailRuleSkipsOtherTuples | flake8_plugins/flake8_redundant_parentheses/parentheses_checker/__init__.py:67-74 | a tuple child that ends elsewhere does not stop the search: a later tuple child ending at the parent's end column still excepts a pair |
| ClassifierExamples.TailRuleIgnoresLines | flake8_plugins/flake8_redundant_parentheses/parentheses_checker/__init__.py:69 | a tuple ending on an earlier line, at the parent's end column, still triggers the tail rule |
| FlakePlugin.Plugin.constructor | flake8_plugins/flake8_redundant_parentheses/parentheses_checker/__init__.py:86-92 | the plugin's fields as `__init__` sets them, with the dump of the tree |
| FlakePlugin.Plugin.Create | flake8_plugins/flake8_redundant_parentheses/parentheses_checker/__init__.py:86-95 | construction fails with the matcher's error, or else with the first tester error; otherwise the new plugin keeps the tester's accepted pairs in order and stores the tree, the lines, the tokens, the tree's dump and the parse, dump and walk functions it was given |
| FlakePlugin.KeepRedundant | flake8_plugins/flake8_redundant_parentheses/parentheses_checker/__init__.py:93-95 | the loop over the found pairs keeps, in order, exactly the pairs `check_trees` accepts, or stops with the first error it raises |
| FlakePlugin.Plugin.Run | flake8_plugins/flake8_redundant_parentheses/parentheses_checker/__init__.py:97-103 | nothing when no pair is redundant; otherwise exactly the checker's reports over the tree's walk |
| FlakePlugin.RedundantPairsError | flake8_plugins/flake8_redundant_parentheses/parentheses_checker/__init__.py:93-95 | the first pair whose erasure raises decides the construction error |
| PluginProperties.RedundantPairsExact | flake8_plugins/flake8_redundant_parentheses/parentheses_checker/__init__.py:93-95 | the loop succeeds exactly when every pair can be erased. On success it keeps at most as many pairs as were found, and a pair is kept exactly when erasing it re-parses to the same dump |
| PluginProperties.PluginReports | flake8_plugins/flake8_redundant_parentheses/parentheses_checker/__init__.py:97-103 | with a redundant pair, `run` yields the PAR002s, then the PAR001s of the pairs not excepted; each PAR001 names a found pair whose erasure keeps the dump |
| PluginProperties.NoBracketsNoReports | flake8_plugins/flake8_redundant_parentheses/parentheses_checker/__init__.py:86-103 | a token list without brackets gives no pairs, keeps none, and `run` reports nothing |

## Left out

- Tokenizing, reading the file, and parsing, dumping and walking the tree
  are not modelled. They are supplied as data and function parameters.
  Whether the supplied walk matches `ast.walk`'s breadth-first order is
  not checked.
- The plugin's `name` and `version` attributes (lines 82-84) are left out.
  They read package metadata and play no part in the checks.
- `run` yields a generator, and each report carries `type(self)`. The model
  returns the list of `(line, column, message)` reports instead.
- The `isinstance(self.tree, ast.Module)` assertion in `Checker.__init__`
  is left out, because the tree is opaque here.
- Every node carries a position. In Python the tail rule reads
  `node.end_col_offset` (line 69) of every node that has a Tuple child, and
  a node without location attributes then raises AttributeError. This
  happens for the `comprehension` node of `[x for a, b in y]`, the
  `withitem` node of `with f() as (a, b):` and the `arguments` node of
  `def g(x=(1, 2)):`. That error is not modelled.
- `check_trees` guards with `tree is not False` (line 162). The model
  merges this into the comparison of dumps, since a parse result is never
  `False`.
- Classifier.Checker.Check: the three rule blocks of its loop body are the
  separate methods `OperatorChains`, `UnpackingTargets` and `TailTuple`,
  and `Check` calls them in order. The exceptions list is passed between
  them rather than shared as one local. The final loop over the pairs
  (lines 76-79) is the separate method `ReportRemaining`, which `Check`
  calls after the walk.
- EquivalenceTester.CheckTrees: the line edits of `check_trees` (lines
  147-156) are the separate method `EditLines`, which `CheckTrees` calls
  on the split source text.
- FlakePlugin.Plugin.Create: Python's `Plugin(...)` either returns the
  object or raises. The model is a static method that returns the new
  object or the error. Its loop over the found pairs is the separate
  method `FlakePlugin.KeepRedundant`.
