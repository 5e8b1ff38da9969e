/**
 * Outcomes the repository's UI tests expect, on a small tree shaped like
 * the test application's window: three edit boxes, a label and an OK
 * button holding its own text.
 */
module FixtureProofs {
  import opened Results
  import opened Strings
  import opened Automation
  import opened UIProperties
  import opened PathFinder
  import opened ClauseProofs
  import opened WalkProofs
  import opened FindProofs

  function Leaf(k: ControlType, name: string, id: string): Node {
    Node(Attributes(name, id, "", "WPF", true, k), [])
  }

  function IdLabel(): Node { Leaf(Text, "ID: ", "") }
  function TxtId(): Node { Leaf(Edit, "", "txtId") }
  function TxtPassword(): Node { Leaf(Edit, "", "txtPassword") }
  function TxtPlace(): Node { Leaf(Edit, "", "txtPlace") }
  function OkText(): Node { Leaf(Text, "OK", "") }
  function OkButton(): Node { Node(Attributes("OK", "btnOK", "", "WPF", true, Button), [OkText()]) }

  function App(): Node {
    Node(Attributes("Generate User Key", "", "", "WPF", true, Window), [IdLabel(), TxtId(), TxtPassword(), TxtPlace(), OkButton()])
  }

  /** The edit boxes, in the order the window holds them. */
  function Edits(): seq<Node> { [TxtId(), TxtPassword(), TxtPlace()] }

  /** The segment `Edit[d]`. */
  function EditAt(d: char): string { "Edit" + "[" + [d] + "]" }

  lemma EditsOfApp()
    ensures FindAll(App(), Children, ControlTypeIs(Edit)) == Edits()
  {
    var c := ControlTypeIs(Edit);
    var ns := App().children;
    assert ns[1..][1..][1..][1..][1..] == [];
    assert Filter(ns[1..][1..][1..][1..], c) == [];
    assert Filter(ns[1..][1..][1..], c) == [TxtPlace()];
    assert Filter(ns[1..][1..], c) == [TxtPassword(), TxtPlace()];
    assert Filter(ns[1..], c) == [TxtId(), TxtPassword(), TxtPlace()];
  }

  /** The type tag `Edit` is in the table, once lower-cased. */
  lemma EditCondition(types: map<string, ControlType>)
    requires IsStandardTable(types)
    ensures BuildControlCondition(types, Lower("Edit")) == Ok(ControlTypeIs(Edit))
  {
    assert Lower("Edit") == "edit";
    assert TagOf(Edit) == "edit";
  }

  lemma EditIndexParts(d: char)
    requires '1' <= d <= '9'
    ensures MatchSegment(EditAt(d)) == Some(("Edit", [d]))
    ensures Plain(EditAt(d))
  {
    MatchWrittenSegment("Edit", [d]);
    assert EditAt(d) == ['E', 'd', 'i', 't', '[', d, ']'];
  }

  /** A lone digit other than zero holds no operator and is an index clause. */
  lemma DigitClause(d: char)
    requires '1' <= d <= '9'
    ensures FindOperator([d]).None?
    ensures Classify([d]) == IndexClause(d as int - '0' as int)
  {
    NoAtNoPair([d]);
    IndexIsFirstDigit([d], 0);
  }

  /** `Edit[d]` for a digit `d` other than zero: the edit boxes, and the d-th of them as the selection. */
  lemma EditIndexSegment(types: map<string, ControlType>, d: char, n: int)
    requires IsStandardTable(types) && '1' <= d <= '9' && n == d as int - '0' as int
    ensures ConvertFromPath(types, EditAt(d)) == Ok((ControlTypeIs(Edit), Some(IndexClause(n))))
  {
    EditIndexParts(d);
    DigitClause(d);
    EditCondition(types);
    SingleClauseSegment(types, EditAt(d));
  }

  /** A segment that is read as one piece. */
  predicate Plain(segment: string) {
    segment != "" && '/' !in segment && '\\' !in segment && '#' !in segment
  }

  /** A one-step path from the window, given what the step finds. */
  lemma ChildPath(types: map<string, ControlType>, path: string, segment: string, expected: Result<Option<Node>>)
    requires path == "/" + segment && Plain(segment)
    requires FindNode(types, Some(App()), Children, segment) == expected
    ensures Evaluate(types, App(), path) == expected
  {
    ChildStep(types, Some(App()), segment);
  }

  /** An index step among the window's children of type Edit. */
  lemma EditsSelection(types: map<string, ControlType>, segment: string, n: int)
    requires ConvertFromPath(types, segment) == Ok((ControlTypeIs(Edit), Some(IndexClause(n))))
    ensures FindNode(types, Some(App()), Children, segment) ==
      if 1 <= n <= 3 then Ok(Some(Edits()[n - 1])) else Err(IndexOutOfRange)
  {
    IndexSelection(types, App(), Children, segment, ControlTypeIs(Edit), n);
    EditsOfApp();
  }

  /** The step `Edit[d]` from the window, `n` being the digit's value. */
  lemma EditIndexStep(types: map<string, ControlType>, d: char, n: int)
    requires IsStandardTable(types) && '1' <= d <= '9' && n == d as int - '0' as int
    ensures FindNode(types, Some(App()), Children, EditAt(d)) ==
      if 1 <= n <= 3 then Ok(Some(Edits()[n - 1])) else Err(IndexOutOfRange)
  {
    EditIndexSegment(types, d, n);
    EditsSelection(types, EditAt(d), n);
  }

  /** The outcome of an index step, read off the digit instead of its value. */
  lemma DigitOutcome(d: char, n: int)
    requires '1' <= d <= '9' && n == d as int - '0' as int
    ensures (if 1 <= n <= 3 then Ok(Some(Edits()[n - 1])) else Err(IndexOutOfRange)) ==
      if d <= '3' then Ok(Some(Edits()[d as int - '1' as int])) else Err(IndexOutOfRange)
  {
  }

  lemma EditPath(d: char)
    ensures "/Edit[" + [d] + "]" == "/" + EditAt(d)
  {
  }

  /** `/Edit[1]`, `/Edit[2]` and `/Edit[3]` reach the three edit boxes in order; a larger index fails. */
  lemma EditByIndex(types: map<string, ControlType>, d: char)
    requires IsStandardTable(types) && '1' <= d <= '9'
    ensures Evaluate(types, App(), "/Edit[" + [d] + "]") ==
      if d <= '3' then Ok(Some(Edits()[d as int - '1' as int])) else Err(IndexOutOfRange)
  {
    var n := d as int - '0' as int;
    EditIndexStep(types, d, n);
    DigitOutcome(d, n);
    EditIndexParts(d);
    EditPath(d);
    ChildPath(types, "/Edit[" + [d] + "]", EditAt(d),
      if d <= '3' then Ok(Some(Edits()[d as int - '1' as int])) else Err(IndexOutOfRange));
  }

  lemma EditLastMatch()
    ensures MatchSegment("Edit[last()]") == Some(("Edit", "last()"))
  {
    assert "Edit[last()]" == "Edit" + "[" + "last()" + "]";
    MatchWrittenSegment("Edit", "last()");
  }

  lemma EditLastPlain()
    ensures Plain("Edit[last()]")
    ensures "/Edit[last()]" == "/" + "Edit[last()]"
  {
    var s := "Edit[last()]";
    assert s == ['E', 'd', 'i', 't', '[', 'l', 'a', 's', 't', '(', ')', ']'];
  }

  /** `last()` alone holds no operator and is a Last clause. */
  lemma LastClauseText()
    ensures FindOperator("last()").None?
    ensures Classify("last()") == LastClause
  {
    var s := "last()";
    assert s == ['l', 'a', 's', 't', '(', ')'];
    forall j | 1 <= j
      ensures !OperatorStartsAt(s, j)
    {
      if j == 6 {
        assert SpaceRunEnd(s, 6) == 6;
      }
    }
    assert HasAt(s, 0, "last()");
    forall j | 0 <= j < |s|
      ensures !IsDigit(s[j])
    {
    }
    NoAtNoPair(s);
    LastOverridesFirst(s);
  }

  /** `Edit[last()]`: the edit boxes, and the last of them as the selection. */
  lemma EditLastSegment(types: map<string, ControlType>)
    requires IsStandardTable(types)
    ensures ConvertFromPath(types, "Edit[last()]") == Ok((ControlTypeIs(Edit), Some(LastClause)))
  {
    EditLastMatch();
    LastClauseText();
    EditCondition(types);
    SingleClauseSegment(types, "Edit[last()]");
  }

  /** The step `Edit[last()]` from the window. */
  lemma EditLastStep(types: map<string, ControlType>)
    requires IsStandardTable(types)
    ensures FindNode(types, Some(App()), Children, "Edit[last()]") == Ok(Some(TxtPlace()))
  {
    EditLastSegment(types);
    LastSelection(types, App(), Children, "Edit[last()]", ControlTypeIs(Edit));
    EditsOfApp();
  }

  /** `/Edit[last()]` reaches the last edit box. */
  lemma EditByLast(types: map<string, ControlType>)
    requires IsStandardTable(types)
    ensures Evaluate(types, App(), "/Edit[last()]") == Ok(Some(TxtPlace()))
  {
    EditLastStep(types);
    EditLastPlain();
    ChildPath(types, "/Edit[last()]", "Edit[last()]", Ok(Some(TxtPlace())));
  }
}
