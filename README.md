# WPath query engine, modelled in Dafny

WPath is a small XPath-like language for finding one element in a UI
Automation tree, for example `/Edit[@id='txtId' and @enabled='true']` or
`//Text[@name='OK']`. This project models its engine and proves properties of
the model. The engine has two parts:

- **The path finder** (`WPathFinder`) does four things:
  - It splits a path at `/`, where `\/` stands for a literal slash.
  - It groups the pieces into steps. A non-empty piece is a Children step. An empty piece, written `//`, makes the next piece a Descendants step.
  - It parses each segment `type[clause]` into three parts:
    - a control-type condition, looked up in a table of 39 tags;
    - an `and`/`or` condition;
    - an optional positional selection.
  - It walks the tree one step at a time.
- **The clause object** (`UIProperty`) classifies one clause and converts it into a condition:
  - the classes are Empty, NameValue, Index, First, Last and Invalid;
  - a condition tests five attributes: name, id, class, framework and enabled.

Files, one module each:

| file | module | contents |
|---|---|---|
| `results.dfy` | `Results` | `Option`, `Result`, and one `Error` per exception the engine throws |
| `strings.dfy` | `Strings` | ASCII lower-casing, substring search, replace-all, split on a separator |
| `automation.dfy` | `Automation` | the host tree: elements, attributes, conditions, `FindAll`/`FindFirst` |
| `ui_property.dfy` | `UIProperties` | the clause classification and the `UIProperty` class with its imperative `Parse` |
| `path_finder.dfy` | `PathFinder` | the components listed below |
| `uia_extension.dfy` | `UiaExtension` | the `FindByWPath` entry point |
| `*_proofs.dfy`, `chain_terms.dfy` | | lemmas about the model |

`path_finder.dfy` holds:
- the control-type table;
- path splitting and step grouping;
- the segment and operator recognisers;
- `BuildPropertyCondition`, `ConvertFromPath`, `FindNode`;
- the `WPathFinder` class, whose constructor fills the table and whose `FindElement` has the source's loop.

Modelling choices:
- Every exception the source throws becomes an `Err` value, so the model covers error paths as well as results.
- A null element is `None`.
- The regular expressions are written as recognisers for exactly the patterns the source uses. Each has its own reference lemma:
  - the name/value pattern, the index pattern and the `first()`/`last()` patterns at `WPath/UIProperty.cs:23-26`;
  - the segment pattern at `WPath/WPathFinder.cs:141`;
  - the operator pattern at `WPath/WPathFinder.cs:202`.
- Path splitting is modelled as the source writes it: textual replacement through the marker `#|#`, then a split. It is proved equal to an independent character-by-character scanner (`Pieces`) on every path without `#`. A literal `#|#` is shown to split a piece, as the source's marker does.
- `BuildPropertyCondition` keeps the source's grouping:
  - `p1 o1 p2 o2 p3` builds `o2(o1(p1, p2), Build("p2 o2 p3"))`;
  - so a chain of `and`s means "every term holds" and a chain of `or`s means "some term holds";
  - but `p1 or p2 and p3` means `p2 and p3`: the first term is absorbed (`ChainProofs.OrThenAnd`, `ChainProofs.AndThenOr`).

Behaviour of the code that the model keeps as written:
- **Table size.** The constructor registers 39 control types.
- **Grouping.** `a or b and c` builds `(a or b) and (b and c)`, which is equivalent to `b and c`.
- **No match without a selection.** A step without a positional selection uses `FindFirst`. When nothing matches, it yields null, and the next step fails with `NullElement`.
- **No match with a selection.** With `first()`, `last()` or an empty clause, a step that matches nothing fails with `NoElements`, since `First()`/`Last()` of an empty sequence throws.
- **Empty path.** An empty path fails with `IndexOutOfRange`.
- **Trailing `/`.** A trailing `/` fails with `IndexOutOfRange`, but only after every step before it has succeeded.
- **Operator text inside a value.** The first operand is cut at the first occurrence of the operator's text, even inside a value. `@id='b or c' or @name='e'` fails with `InvalidProperty` (`ChainProofs.CutInsideValue`).

## Model

| member | source | states |
|---|---|---|
| PathFinder.WPathFinder.constructor | WPath/WPathFinder.cs:15-57 | The table is the registration of the 39 control types in source order, and it lists every control type under its lower-case tag and nothing else |
| PathFinder.Registration | WPath/WPathFinder.cs:17-56 | Adding control types one by one: a control type is registered exactly when its tag maps to it, and every tag maps to the type it names |
| PathFinder.StandardTableLemma | WPath/WPathFinder.cs:18-56 | The registered table is the standard one: each of the 39 control types is present under its tag, and no other tag is present |
| PathFinder.WPathFinder.FindElement | WPath/WPathFinder.cs:65-96 | The loop over the pieces, with the index bumped past the piece a Descendants step uses, returns what the specification `Evaluate` gives. An empty path fails with IndexOutOfRange; a path not starting with `/` fails with BadPath |
| PathFinder.RunDescendantStep | WPath/WPathFinder.cs:82-87 | An empty piece followed by a piece runs one Descendants step on that piece, then the rest of the plan from where that step went (or stops on its error) |
| PathFinder.RunChildStep | WPath/WPathFinder.cs:88-92 | A non-empty piece runs one Children step, then the rest of the plan |
| UiaExtension.FindByWPath | WPath/UiaExtension.cs:68-72 | A fresh finder asked for the path gives `Evaluate` over the standard table |
| SplitProofs.SplitPathIsPieces | WPath/WPathFinder.cs:74-76 | On paths without `#`, replacing `/` by the marker, turning an escaped marker back into `/`, and splitting at the marker gives the pieces of the reference scanner: `\/` is a literal slash and every other `/` separates |
| SplitProofs.MarkerInPathSeparates | WPath/WPathFinder.cs:74-76 | A literal `#|#` in a path separates pieces like `/` does: `/a#|#b` splits into `["", "a", "b"]`, while the scanner keeps `a#|#b` as one piece |
| SplitProofs.SplitPathRender | WPath/WPathFinder.cs:74-76 | Pieces without `\` or `#`, each written after a `/` with its slashes escaped, split back into the same pieces after an empty first piece |
| SplitProofs.RenderSplitPath | WPath/WPathFinder.cs:74-76 | The other direction: a path starting with `/` and holding no `#` is rendered back exactly from the pieces it splits into |
| SplitProofs.PiecesRender | WPath/WPathFinder.cs:74-76 | Rendering the scanner's pieces of any string, with a piece already begun, gives back that string behind a separator and the escaped beginning |
| PlanProofs.UnplanPlanSteps | WPath/WPathFinder.cs:80-93 | Grouping uses every piece exactly once, in order: reading the steps back gives the pieces |
| PlanProofs.PlanStepsUnplan | WPath/WPathFinder.cs:80-93 | Every well-formed plan is the grouping of its own pieces, so grouping and reading back are inverse |
| PlanProofs.PlanStepsWellFormed | WPath/WPathFinder.cs:82-92 | A Children step never holds an empty piece |
| PlanProofs.DanglingLastPiece | WPath/WPathFinder.cs:82-86 | The plan dangles only when the last piece is empty and has nothing after it to pair with |
| PlanProofs.PlanStepsAppend | WPath/WPathFinder.cs:80-93 | After pieces that leave nothing dangling, grouping starts afresh: the steps of a concatenation are the steps of each part in turn |
| PlanProofs.TrailingEmptyPieceDangles | WPath/WPathFinder.cs:82-86 | A trailing empty piece leaves the plan dangling, and it adds no step |
| WalkProofs.WalkAppend | WPath/WPathFinder.cs:80-95 | Walking a sequence of steps walks the first part, then the second part from the element the first part reached; an error in the first part stops the walk |
| WalkProofs.EvaluateAppend | WPath/WPathFinder.cs:80-95 | When `p1` starts with `/` and does not end with `/` or `\`, `p2` starts with `/`, and neither holds `#`: evaluating `p1 + p2` evaluates `p1`, then `p2` from the element reached, with no backtracking; an error in `p1` is the result |
| WalkProofs.TrailingSlashFails | WPath/WPathFinder.cs:82-86 | `p + "/"` fails with IndexOutOfRange when `p` succeeds, and with `p`'s own error otherwise |
| WalkProofs.ChildStep | WPath/WPathFinder.cs:88-92 | For a non-empty segment without `/`, `\` or `#`, `/segment` is exactly one Children step on the segment |
| WalkProofs.DescendantStep | WPath/WPathFinder.cs:82-87 | For a non-empty segment without `/`, `\` or `#`, `//segment` is exactly one Descendants step on the segment |
| WalkProofs.PathPlan | WPath/WPathFinder.cs:74-80 | A path starting with `/` and holding no `#` splits into an empty piece followed by the scanner's pieces of the rest |
| FindProofs.StepWithoutSelection | WPath/WPathFinder.cs:102-105 | Without a selection, a step yields the first candidate that satisfies the condition, or null when none does |
| FindProofs.StepWithSelection | WPath/WPathFinder.cs:106-129 | With a selection, a step never yields null and never reaches the unsupported branch: it yields a candidate that satisfies the condition, or fails with NoElements or IndexOutOfRange |
| FindProofs.StepFirst | WPath/WPathFinder.cs:109-124 | `first()` and the empty clause pick the first match, and fail with NoElements when there is none |
| FindProofs.StepIndex | WPath/WPathFinder.cs:113-116 | `[n]` picks the n-th match, counting from one: a candidate that satisfies the condition with exactly n-1 matching candidates before it. It fails with IndexOutOfRange when there are fewer than n |
| Automation.FilterNth | WPath/WPathFinder.cs:108 | `FindAll` keeps the candidates' order: the match at index m is a candidate that satisfies the condition with exactly m matches before it |
| FindProofs.StepLast | WPath/WPathFinder.cs:117-120 | `last()` succeeds exactly when some candidate matches; it then picks a match after which no candidate matches, and otherwise fails with NoElements |
| FindProofs.FilterHead | WPath/WPathFinder.cs:108-111 | The match list is non-empty exactly when some candidate satisfies the condition, and its head is the first candidate that does |
| FindProofs.FilterLast | WPath/WPathFinder.cs:108-120 | The last element of the match list is a candidate that satisfies the condition, with no match after it |
| Automation.FilterKeepsMatches | WPath/WPathFinder.cs:108 | `FindAll` keeps exactly the candidates that satisfy the condition |
| PathFinder.MatchSegment | WPath/WPathFinder.cs:141-142 | The segment pattern gives a type without brackets and a clause without line breaks. The segment is the type alone, or the type followed by the bracketed clause (optionally followed by one line break). |
| FindProofs.MatchWrittenSegment | WPath/WPathFinder.cs:141-147 | A type without brackets, possibly empty, followed by a bracketed one-line clause is read back as that type and that clause |
| FindProofs.MatchBareSegment | WPath/WPathFinder.cs:141-147 | The converse for bare segments: a segment without brackets is read as a type alone with an empty clause |
| FindProofs.MatchWrittenSegmentLine | WPath/WPathFinder.cs:141-147 | The same, with one line break after the closing bracket |
| PathFinder.ConvertFromPath | WPath/WPathFinder.cs:139-173 | A segment the pattern rejects fails with InvalidUiPath. The clause's error comes before the type lookup's. A kept selection is never a name/value or an invalid clause. The condition is the control-type condition, or a conjunction with it on the left |
| FindProofs.ConvertFromPathFilter | WPath/WPathFinder.cs:139-186 | Every element a converted segment's condition accepts has the control type the segment names |
| FindProofs.SingleClauseSegment | WPath/WPathFinder.cs:149-167 | A clause without an operator is classified. An invalid clause fails with InvalidProperty before the type is looked up, a name/value clause that does not convert fails with its error, and otherwise an unknown type fails with UnknownControlType. A name/value clause is joined to the type condition with no selection; a positional or empty clause leaves the type condition alone and is kept as the selection |
| FindProofs.ChainSegment | WPath/WPathFinder.cs:152-166 | A clause with an operator is joined to the type condition, and there is no selection |
| PathFinder.BuildControlCondition | WPath/WPathFinder.cs:175-186 | The empty tag accepts every element. Any other tag succeeds exactly when it is in the table, and then accepts exactly the elements of that control type. An unknown tag fails with UnknownControlType |
| PathFinder.OperatorAt | WPath/WPathFinder.cs:202 | After the spaces from `j`, `and` (any case) gives an And match and otherwise `or` gives an Or match. The match ends after the spaces that follow the word, right before an `f`, `l` or `@`. There is no match exactly when the word found is not followed by spaces and one of those characters |
| PathFinder.FindOperatorFrom | WPath/WPathFinder.cs:202-203 | The result is the leftmost index at which an operator follows a quote or `)`. No match means no such index |
| PathFinder.TextBeforeOperator | WPath/WPathFinder.cs:210 | The first operand ends where the operator's text first occurs in the clause, which is at or before the matched operator: no earlier position holds that text |
| PathFinder.BuildPropertyCondition | WPath/WPathFinder.cs:199-275 | A clause without an operator gives its own condition and is kept as the selection. A clause with an operator keeps no selection |
| ChainTerms.FirstOperator | WPath/WPathFinder.cs:202-203 | For a simple term (`@name='value'` with a word name and a non-empty value without quotes, `)`, spaces or line breaks, not starting with `a`, `o`, `A` or `O`) followed by an operator and text that starts with `@`, the operator pattern first matches right after the term |
| ChainTerms.FirstOperand | WPath/WPathFinder.cs:210-213 | For a simple term followed by an operator and any text, the first operand is cut right at the end of the term |
| ChainTerms.BuildLastPair | WPath/WPathFinder.cs:236-268 | When the operator pattern first matches `op` right after `first` in `first op second` and the first operand is cut there, `second` holds no further operator, and both operands convert: the clause builds `op(first, second)` and keeps no selection |
| ChainTerms.BuildPairThenRest | WPath/WPathFinder.cs:213-262 | When `s` splits that way into `first op sub` and `sub` splits that way into `second op2 rest`, both operands convert and `sub` builds `tail`: `s` builds `op2(op(first, second), tail)` with the selection of `tail` |
| ChainProofs.BuildTwoTerms | WPath/WPathFinder.cs:205-268 | Two simple terms whose name/value pairs convert, joined by one operator, build that operator over their two conditions |
| ChainProofs.BuildTermThenChain | WPath/WPathFinder.cs:213-262 | A simple term and an operator in front of `t1 op1 rest`, where `t1` is a simple term, `rest` starts with `@`, both terms convert and `t1 op1 rest` builds: the pair is combined with the condition built again from the second term onwards |
| ChainProofs.BuildChain | WPath/WPathFinder.cs:199-275 | Any chain of two or more simple terms whose name/value pairs convert builds the source's grouping of their conditions, with no selection |
| ChainProofs.AllAndChain | WPath/WPathFinder.cs:249-262 | A chain of `and`s holds exactly when every term holds |
| ChainProofs.AllOrChain | WPath/WPathFinder.cs:249-262 | A chain of `or`s holds exactly when some term holds |
| ChainProofs.OrThenAnd | WPath/WPathFinder.cs:249-262 | `p1 or p2 and p3` holds exactly when `p2` and `p3` hold |
| ChainProofs.AndThenOr | WPath/WPathFinder.cs:249-262 | `p1 and p2 or p3` holds exactly when `p2` or `p3` holds |
| ChainProofs.CutExampleOperator | WPath/WPathFinder.cs:202-203 | In `@id='b or c' or @name='e'` the operator pattern skips the ` or ` inside the value and matches the one after the closing quote |
| ChainProofs.CutExampleOperand | WPath/WPathFinder.cs:210 | The first operand of that clause is cut at the ` or ` inside the value: it is `@id='b` |
| ChainProofs.CutInsideValue | WPath/WPathFinder.cs:210-236 | That clause fails with InvalidProperty, because the cut operand is no name/value pair |
| UIProperties.UIProperty.constructor | WPath/UIProperty.cs:32-36 | The new clause object keeps its text, describes `Classify(text)`, and sets SelectFirst/SelectLast exactly when the text reaches the positional checks and contains `first()`/`last()` |
| UIProperties.UIProperty.Parse | WPath/UIProperty.cs:104-144 | The fields describe the classification of the text. The flags are set once the positional checks are reached; name, value and index change only for their own class |
| UIProperties.Classify | WPath/UIProperty.cs:104-144 | A clause is Empty exactly when the text is empty, and an index clause has a single digit's value, 0 to 9 |
| UIProperties.MatchNameValueAt | WPath/UIProperty.cs:23 | A name/value match has a non-empty word as its name and a non-empty value on one line |
| UIProperties.MatchNameValueFrom | WPath/UIProperty.cs:23 | A match has a non-empty name and a non-empty one-line value; no match means the pattern matches at no `@` |
| UIProperties.MatchNameValueLeftmost | WPath/UIProperty.cs:23 | A pair found is the match at the leftmost `@` at which the pattern matches |
| UIProperties.TrimStart | WPath/UIProperty.cs:93 | The result is a suffix of the text, every character removed is white space or NUL, and the result does not start with either |
| UIProperties.TrimEnd | WPath/UIProperty.cs:93 | The result is a prefix of the text, every character removed is white space or NUL, and the result does not end with either |
| UIProperties.FirstDigitFrom | WPath/UIProperty.cs:24 | The index pattern finds the first decimal digit, and none means the text holds no digit |
| UIProperties.ParseBoolean | WPath/UIProperty.cs:93 | `true`/`false` in any case, with surrounding white space ignored, give the boolean; anything else gives none |
| UIProperties.ConvertNameValueProperty | WPath/UIProperty.cs:76-99 | The name is matched without regard to case. name, id, class and framework give conditions that accept exactly the elements whose attribute equals the value. enabled accepts exactly the elements whose flag equals the parsed boolean, and fails with NotBoolean otherwise. Any other name fails with UnknownProperty |
| UIProperties.ConvertToCondition | WPath/UIProperty.cs:52-74 | An invalid clause fails with InvalidProperty. A name/value clause converts its name and value. Every other clause gives the always-true condition |
| ClauseProofs.MatchWrittenPair | WPath/UIProperty.cs:23 | `@name = 'value'`, with any number of spaces around `=` and followed by any text without a quote before its first line break, is matched back to the name and the value |
| ClauseProofs.ClassifyWrittenPair | WPath/UIProperty.cs:114-121 | Such a text, with such a suffix, is classified as that name/value pair |
| ClauseProofs.SpaceAfterPair | WPath.Tests/UiaTests.cs:160-163 | `[@name = 'OK' ]`, with a space after the closing quote, is the pair name/OK |
| ClauseProofs.QuoteInsideValue | WPath/UIProperty.cs:23 | The value runs to the last quote: `@name='it's'` has the value `it's` |
| ClauseProofs.NoAtNoPair | WPath/UIProperty.cs:23 | Text without `@` holds no name/value pair |
| ClauseProofs.IndexIsFirstDigit | WPath/UIProperty.cs:123-129 | Text in which no name/value pair matches, and whose first digit is at `k`, is an index clause with that one digit's value |
| ClauseProofs.UnquotedPairFails | WPath/UIProperty.cs:23 | `@id=` followed by text that starts with neither a quote nor a space, and holds no further `@`, matches no name/value pair |
| ClauseProofs.UnquotedPairWithDigit | WPath/UIProperty.cs:114-129 | `[@id=txt2]` falls through the failed pair to its digit and is the index 2 |
| ClauseProofs.UnquotedPairNoDigit | WPath/UIProperty.cs:114-143 | `@id=` followed by text that starts with neither a quote nor a space and holds no `@`, digit or `(` is Invalid |
| ClauseProofs.UnquotedPairInvalid | WPath/UIProperty.cs:114-143 | `[@id=abc]` is Invalid |
| ClauseProofs.TwelveReadsAsOne | WPath/UIProperty.cs:123-129 | `[12]` is the index 1 |
| ClauseProofs.LastOverridesFirst | WPath/UIProperty.cs:131-143 | Text in which no name/value pair matches, with no digit, that contains `last()` is Last, whether or not it contains `first()` |
| ClauseProofs.FirstWithoutLast | WPath/UIProperty.cs:131-136 | Such text with `first()` but without `last()` is First |
| ClauseProofs.InvalidFailsConversion | WPath/UIProperty.cs:52-74 | Non-empty text in which no name/value pair matches, with no digit and neither `first()` nor `last()`, is Invalid and fails conversion with InvalidProperty |
| ClauseProofs.BothFunctions | WPath/UIProperty.cs:131-143 | Parsing `first() last()` leaves Type Last with both SelectFirst and SelectLast set |
| FixtureProofs.EditByIndex | WPath.Tests/UiaTests.cs:122-138 | In a window holding three edit boxes, `/Edit[1]`, `/Edit[2]` and `/Edit[3]` reach txtId, txtPassword and txtPlace; a larger single digit fails with IndexOutOfRange |
| FixtureProofs.EditByLast | WPath.Tests/UiaTests.cs:113-120 | `/Edit[last()]` reaches txtPlace |

## Left out

- The live UI Automation host is not modelled; elements are values. Descendants are taken in preorder, and nothing is claimed about the host's own traversal order. `FindFirst` is the first element of `FindAll`.
- Regular expressions are modelled only for the six patterns the engine uses, and `\w`, `\d`, `ToLower` and `IgnoreCase` only on ASCII letters and digits. Unicode letters and digits are not modelled.
- Running time is not modelled. The segment pattern at WPath/WPathFinder.cs:141 nests a repetition inside a repetition (`([^\[\]]+)*`), so a backtracking matcher can take time exponential in the length of a long segment that fails to match. `PathFinder.MatchSegment` is a total function and cannot show this.
- `Convert.ToBoolean` white space is modelled for the ASCII and Latin-1 range only.
- `string.IndexOf` is culture-sensitive in .NET; the model uses ordinal comparison.
- Null strings are not modelled. Strings are values, and `IsNullOrEmpty` is `|s| == 0`.
- The exception messages, which use `FormatWith`, are not modelled; only which exception is thrown is kept.
- Apart from the one-line `FindByWPath(e, path)`, the following are not part of this model:
  - the rest of `WPath/UiaExtension.cs`: attribute lookup through stack frames, the `FindChild*`/`FindDescendants*` wrappers, click and keyboard input;
  - `WPath/NativeMethods.cs`, `WPath/WPathAttribute.cs`, `WPath/ExtensionMethods.cs` and `TestApp/MainWindow.xaml.cs`.
- Only the fixtures `/Edit[1]`, `/Edit[2]`, `/Edit[3]` and `/Edit[last()]` of `WPath.Tests/UiaTests.cs` are proved on a modelled window. The other cases are covered by the general lemmas but not proved as concrete fixtures; these include deep paths, `//Text[@name='OK']` and the multi-attribute chains.
- Automation.Filter: its own contract states only a bound on the length. What it keeps, and in which order, is stated by `Automation.FilterKeepsMatches`, `Automation.FilterNth`, `FindProofs.FilterHead` and `FindProofs.FilterLast`.
- PathFinder.FindNode: has no contract of its own. Its cases are stated by the `FindProofs.Step*` lemmas.
- ChainProofs.BuildChain: is proved only for terms of the shape `@name='value'`: a word name, and a non-empty value without quotes, `)`, spaces or line breaks that does not start with `a`, `o`, `A` or `O`. With other terms, the textual cut of the first operand can land inside an earlier term; this case is stated in general by `PathFinder.TextBeforeOperator`, and on one clause by `ChainProofs.CutInsideValue`. `ChainProofs.BuildTwoTerms`, `ChainProofs.BuildTermThenChain`, `ChainTerms.FirstOperator` and `ChainTerms.FirstOperand` carry the same restriction on their terms.
