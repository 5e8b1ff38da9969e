/**
 * The WPath engine: splitting a path into pieces, grouping the pieces into
 * Children and Descendants steps, parsing each segment into a control-type
 * filter, an `and`/`or` condition and an optional positional selection, and
 * walking the element tree one step at a time.
 */
module PathFinder {
  import opened Results
  import opened Strings
  import opened Automation
  import opened UIProperties

  // ---------------------------------------------------------------------
  // Control-type table

  /** The lower-case tag under which the finder's table lists each control type. */
  function TagOf(k: ControlType): string {
    match k
    case Button => "button"
    case Calendar => "calendar"
    case CheckBox => "checkbox"
    case ComboBox => "combobox"
    case Custom => "custom"
    case DataGrid => "datagrid"
    case DataItem => "dataitem"
    case Document => "document"
    case Edit => "edit"
    case Group => "group"
    case Header => "header"
    case HeaderItem => "headeritem"
    case Hyperlink => "hyperlink"
    case Image => "image"
    case List => "list"
    case ListItem => "listitem"
    case Menu => "menu"
    case MenuBar => "menubar"
    case MenuItem => "menuitem"
    case Pane => "pane"
    case ProgressBar => "progressbar"
    case RadioButton => "radiobutton"
    case ScrollBar => "scrollbar"
    case Separator => "separator"
    case Slider => "slider"
    case Spinner => "spinner"
    case SplitButton => "splitbutton"
    case StatusBar => "statusbar"
    case Tab => "tab"
    case TabItem => "tabitem"
    case Table => "table"
    case Text => "text"
    case Thumb => "thumb"
    case TitleBar => "titlebar"
    case ToolBar => "toolbar"
    case ToolTip => "tooltip"
    case Tree => "tree"
    case TreeItem => "treeitem"
    case Window => "window"
  }

  /** The table lists every control type under its tag, and nothing else. */
  ghost predicate IsStandardTable(types: map<string, ControlType>) {
    && (forall k: ControlType :: TagOf(k) in types && types[TagOf(k)] == k)
    && (forall t :: t in types ==> TagOf(types[t]) == t)
  }

  /** Different control types have different tags, so no tag is added twice. */
  lemma TagOfInjective()
    ensures forall a, b :: TagOf(a) == TagOf(b) ==> a == b
  {
  }

  /** The control types the finder's constructor registers, in the order it adds them. */
  const Registered: seq<ControlType> := [Button, Calendar, CheckBox, ComboBox, Custom, DataGrid, DataItem, Document, Edit, Group, Header, HeaderItem, Hyperlink, Image, List, ListItem, Menu, MenuBar, MenuItem, Pane, ProgressBar, RadioButton, ScrollBar, Separator, Slider, Spinner, SplitButton, StatusBar, Tab, TabItem, Table, Text, Thumb, TitleBar, ToolBar, ToolTip, Tree, TreeItem, Window]

  /** Adding each control type of `ks` under its tag, one after another, to an empty table. */
  function Registration(ks: seq<ControlType>): (types: map<string, ControlType>)
    ensures forall t :: t in types ==> TagOf(types[t]) == t
    ensures forall k :: k in ks <==> TagOf(k) in types && types[TagOf(k)] == k
  {
    TagOfInjective();
    if |ks| == 0 then map[]
    else
      var types := Registration(ks[..|ks| - 1]);
      var k := ks[|ks| - 1];
      assert forall j :: j in ks <==> j in ks[..|ks| - 1] || j == k;
      types[TagOf(k) := k]
  }

  /** Each control type is registered. */
  lemma Registers(k: ControlType)
    ensures k in Registered
  {
    match k
    case Button => assert Registered[0] == Button;
    case Calendar => assert Registered[1] == Calendar;
    case CheckBox => assert Registered[2] == CheckBox;
    case ComboBox => assert Registered[3] == ComboBox;
    case Custom => assert Registered[4] == Custom;
    case DataGrid => assert Registered[5] == DataGrid;
    case DataItem => assert Registered[6] == DataItem;
    case Document => assert Registered[7] == Document;
    case Edit => assert Registered[8] == Edit;
    case Group => assert Registered[9] == Group;
    case Header => assert Registered[10] == Header;
    case HeaderItem => assert Registered[11] == HeaderItem;
    case Hyperlink => assert Registered[12] == Hyperlink;
    case Image => assert Registered[13] == Image;
    case List => assert Registered[14] == List;
    case ListItem => assert Registered[15] == ListItem;
    case Menu => assert Registered[16] == Menu;
    case MenuBar => assert Registered[17] == MenuBar;
    case MenuItem => assert Registered[18] == MenuItem;
    case Pane => assert Registered[19] == Pane;
    case ProgressBar => assert Registered[20] == ProgressBar;
    case RadioButton => assert Registered[21] == RadioButton;
    case ScrollBar => assert Registered[22] == ScrollBar;
    case Separator => assert Registered[23] == Separator;
    case Slider => assert Registered[24] == Slider;
    case Spinner => assert Registered[25] == Spinner;
    case SplitButton => assert Registered[26] == SplitButton;
    case StatusBar => assert Registered[27] == StatusBar;
    case Tab => assert Registered[28] == Tab;
    case TabItem => assert Registered[29] == TabItem;
    case Table => assert Registered[30] == Table;
    case Text => assert Registered[31] == Text;
    case Thumb => assert Registered[32] == Thumb;
    case TitleBar => assert Registered[33] == TitleBar;
    case ToolBar => assert Registered[34] == ToolBar;
    case ToolTip => assert Registered[35] == ToolTip;
    case Tree => assert Registered[36] == Tree;
    case TreeItem => assert Registered[37] == TreeItem;
    case Window => assert Registered[38] == Window;
  }

  /** Every control type is registered. */
  lemma RegisteredComplete()
    ensures forall k: ControlType :: k in Registered
  {
    forall k: ControlType
      ensures k in Registered
    {
      Registers(k);
    }
  }

  /** Registering a list that holds every control type yields the standard table. */
  lemma RegistrationComplete(ks: seq<ControlType>)
    requires forall k: ControlType :: k in ks
    ensures IsStandardTable(Registration(ks))
  {
  }

  /** The registered table lists every control type under its tag, and nothing else. */
  lemma StandardTableLemma()
    ensures IsStandardTable(Registration(Registered))
  {
    RegisteredComplete();
    RegistrationComplete(Registered);
  }

  // ---------------------------------------------------------------------
  // Splitting a path into pieces

  /**
   * `fullPath.Replace("/", "#|#").Replace(@"\#|#", "/").Split("#|#")`:
   * every `/` becomes the marker, an escaped marker becomes a literal `/`,
   * and the text is split at the markers that remain.
   */
  function SplitPath(fullPath: string): (r: seq<string>)
    ensures |r| >= 1
  {
    Split(ReplaceAll(ReplaceAll(fullPath, "/", "#|#"), "\\#|#", "/"), "#|#")
  }

  /**
   * Reference reading of a path, one character at a time, with `cur` the
   * piece gathered so far: `\/` adds a literal `/` to the piece, any other
   * `/` ends the piece, and every other character is kept.
   */
  function Pieces(s: string, cur: string): (r: seq<string>)
    ensures |r| >= 1
    decreases |s|
  {
    if |s| == 0 then [cur]
    else if s[0] == '\\' && |s| >= 2 && s[1] == '/' then Pieces(s[2..], cur + "/")
    else if s[0] == '/' then [cur] + Pieces(s[1..], "")
    else Pieces(s[1..], cur + [s[0]])
  }

  // ---------------------------------------------------------------------
  // Grouping pieces into steps

  datatype Step = Step(scope: Scope, nodePath: string)

  /** The steps the loop of `FindElement` takes; `dangling` when an empty piece has nothing after it. */
  datatype Plan = Plan(steps: seq<Step>, dangling: bool)

  /**
   * A non-empty piece is a Children step; an empty piece makes the next
   * piece, whatever it is, a Descendants step and both are used up.
   */
  function PlanSteps(pieces: seq<string>): (p: Plan)
    ensures |p.steps| <= |pieces|
    decreases |pieces|
  {
    if |pieces| == 0 then Plan([], false)
    else if pieces[0] == "" then
      if |pieces| == 1 then Plan([], true)
      else
        var rest := PlanSteps(pieces[2..]);
        Plan([Step(Descendants, pieces[1])] + rest.steps, rest.dangling)
    else
      var rest := PlanSteps(pieces[1..]);
      Plan([Step(Children, pieces[0])] + rest.steps, rest.dangling)
  }

  /** The pieces a plan was read from. */
  function Unplan(p: Plan): seq<string>
    decreases |p.steps|
  {
    if |p.steps| == 0 then (if p.dangling then [""] else [])
    else
      var s := p.steps[0];
      var rest := Unplan(Plan(p.steps[1..], p.dangling));
      if s.scope == Descendants then ["", s.nodePath] + rest else [s.nodePath] + rest
  }

  // ---------------------------------------------------------------------
  // Segments

  /** Index of the first bracket at or after `i` (or `|s|`). */
  function BracketFreeEnd(s: string, i: nat): (r: nat)
    requires i <= |s|
    ensures i <= r <= |s|
    ensures forall k :: i <= k < r ==> s[k] != '[' && s[k] != ']'
    ensures r < |s| ==> s[r] == '[' || s[r] == ']'
    decreases |s| - i
  {
    if i < |s| && s[i] != '[' && s[i] != ']' then BracketFreeEnd(s, i + 1) else i
  }

  /**
   * The segment pattern `^(?<type>[^\[\]]+)*(\[(?<property>.*)\])*$`: the
   * type is the text before the first bracket; what follows it must be one
   * bracketed clause without line breaks, optionally followed by one final
   * line break. Yields the type and the clause text.
   */
  function MatchSegment(s: string): (r: Option<(string, string)>)
    ensures r.Some? ==> '[' !in r.value.0 && ']' !in r.value.0 && '\n' !in r.value.1
    ensures r.Some? ==>
      || (s == r.value.0 && r.value.1 == "")
      || s == r.value.0 + "[" + r.value.1 + "]"
      || s == r.value.0 + "[" + r.value.1 + "]\n"
  {
    var t := BracketFreeEnd(s, 0);
    if t == |s| then Some((s, ""))
    else
      var rest := s[t..];
      var body := if rest[|rest| - 1] == '\n' then rest[..|rest| - 1] else rest;
      if |body| >= 2 && body[0] == '[' && body[|body| - 1] == ']' && '\n' !in body
      then Some((s[..t], body[1..|body| - 1]))
      else None
  }

  /** `BuildControlCondition`: the empty tag matches anything; any other must be in the table. */
  function BuildControlCondition(types: map<string, ControlType>, controlName: string): (r: Result<Condition>)
    ensures r.Ok? <==> controlName == "" || controlName in types
    ensures r.Err? ==> r.error == UnknownControlType
    ensures r.Ok? ==> forall a :: Eval(r.value, a) <==> controlName == "" || a.controlType == types[controlName]
  {
    if |controlName| > 0 then
      if controlName in types then Ok(ControlTypeIs(types[controlName])) else Err(UnknownControlType)
    else Ok(TrueCondition)
  }

  // ---------------------------------------------------------------------
  // Operators

  datatype Operator = AndOperator | OrOperator

  /** A match of the operator pattern; the operator text (`opfull`) is `s[start..end]`. */
  datatype OperatorMatch = OperatorMatch(start: nat, end: nat, op: Operator)

  /** `w` occurs at `k`, letters compared without regard to case. */
  predicate IgnoreCaseAt(s: string, k: nat, w: string) {
    k + |w| <= |s| && Lower(s[k..k + |w|]) == w
  }

  predicate IsOperatorFollower(c: char) {
    c == 'f' || c == 'F' || c == 'l' || c == 'L' || c == '@'
  }

  /**
   * `[ ]*(?<op>and|or)[ ]*` at index `j`, ignoring case, with one of
   * `f`, `l`, `@` right after it.
   */
  function OperatorAt(s: string, j: nat): (r: Option<OperatorMatch>)
    requires j <= |s|
    ensures r.Some? ==> r.value.start == j && j + 2 <= r.value.end < |s| && IsOperatorFollower(s[r.value.end])
    ensures var k := SpaceRunEnd(s, j);
      r.Some? && r.value.op == AndOperator ==> IgnoreCaseAt(s, k, "and") && r.value.end == SpaceRunEnd(s, k + 3)
    ensures var k := SpaceRunEnd(s, j);
      r.Some? && r.value.op == OrOperator ==>
        !IgnoreCaseAt(s, k, "and") && IgnoreCaseAt(s, k, "or") && r.value.end == SpaceRunEnd(s, k + 2)
    ensures var k := SpaceRunEnd(s, j);
      r.None? <==>
        && (IgnoreCaseAt(s, k, "and") ==>
              SpaceRunEnd(s, k + 3) == |s| || !IsOperatorFollower(s[SpaceRunEnd(s, k + 3)]))
        && (!IgnoreCaseAt(s, k, "and") && IgnoreCaseAt(s, k, "or") ==>
              SpaceRunEnd(s, k + 2) == |s| || !IsOperatorFollower(s[SpaceRunEnd(s, k + 2)]))
  {
    var k := SpaceRunEnd(s, j);
    if IgnoreCaseAt(s, k, "and") then
      var m := SpaceRunEnd(s, k + 3);
      if m < |s| && IsOperatorFollower(s[m]) then Some(OperatorMatch(j, m, AndOperator)) else None
    else if IgnoreCaseAt(s, k, "or") then
      var m := SpaceRunEnd(s, k + 2);
      if m < |s| && IsOperatorFollower(s[m]) then Some(OperatorMatch(j, m, OrOperator)) else None
    else None
  }

  /** An operator follows a quote or a closing parenthesis at index `j`. */
  predicate OperatorStartsAt(s: string, j: int) {
    1 <= j <= |s| && (s[j - 1] == '\'' || s[j - 1] == ')') && OperatorAt(s, j).Some?
  }

  /** The leftmost match of `[')]+(?<opfull>[ ]*(?<op>and|or)[ ]*)[fl@]+` at or after `j`. */
  function FindOperatorFrom(s: string, j: nat): (r: Option<OperatorMatch>)
    requires 1 <= j
    ensures r.Some? ==> j <= r.value.start && OperatorStartsAt(s, r.value.start) && r == OperatorAt(s, r.value.start)
    ensures r.Some? ==> forall i :: j <= i < r.value.start ==> !OperatorStartsAt(s, i)
    ensures r.None? ==> forall i :: j <= i ==> !OperatorStartsAt(s, i)
    decreases |s| + 1 - j
  {
    if j > |s| then None
    else if OperatorStartsAt(s, j) then OperatorAt(s, j)
    else FindOperatorFrom(s, j + 1)
  }

  function FindOperator(s: string): Option<OperatorMatch> {
    FindOperatorFrom(s, 1)
  }

  /**
   * The operand in front of a matched operator: the text before the first
   * occurrence of the operator's text, which may lie before the match.
   */
  function TextBeforeOperator(s: string, m: OperatorMatch): (r: string)
    requires m.start <= m.end <= |s|
    ensures |r| <= m.start && r == s[..|r|]
    ensures HasAt(s, |r|, s[m.start..m.end])
    ensures forall k :: 0 <= k < |r| ==> !HasAt(s, k, s[m.start..m.end])
  {
    s[..IndexOfFrom(s, s[m.start..m.end], 0, m.start)]
  }

  function Combine(op: Operator, left: Condition, right: Condition): Condition {
    match op
    case AndOperator => And(left, right)
    case OrOperator => Or(left, right)
  }

  /**
   * `BuildPropertyCondition`: the condition of a bracketed clause and, when
   * the clause has no operator, the clause itself (the `out UIProperty`).
   * With an operator, the first operand is cut at the first textual
   * occurrence of the operator text, the second operand ends at the first
   * occurrence of the next operator text, and a further operator combines the
   * pair with the condition built again from the text after the first operator.
   */
  function BuildPropertyCondition(property: string): (r: Result<(Condition, Option<Clause>)>)
    ensures FindOperator(property).None? ==> r.Ok? == ConvertToCondition(Classify(property)).Ok?
    ensures FindOperator(property).None? && r.Ok? ==>
      r.value == (ConvertToCondition(Classify(property)).value, Some(Classify(property)))
    ensures FindOperator(property).Some? && r.Ok? ==> r.value.1 == None
    decreases |property|
  {
    match FindOperator(property)
    case None =>
      var uip := Classify(property);
      var condition :- ConvertToCondition(uip);
      Ok((condition, Some(uip)))
    case Some(m) =>
      var opFullText := property[m.start..m.end];
      var firstProperty := TextBeforeOperator(property, m);
      var subProperty := property[|firstProperty + opFullText|..];
      var more := FindOperator(subProperty);
      var secondProperty :=
        match more
        case None => subProperty
        case Some(m2) => TextBeforeOperator(subProperty, m2);
      var firstCondition :- ConvertToCondition(Classify(firstProperty));
      var secondCondition :- ConvertToCondition(Classify(secondProperty));
      var currentCondition := Combine(m.op, firstCondition, secondCondition);
      match more
      case None => Ok((currentCondition, None))
      case Some(m2) =>
        var tail :- BuildPropertyCondition(subProperty);
        Ok((Combine(m2.op, currentCondition, tail.0), tail.1))
  }

  /** The control-type condition of a segment that matches the segment pattern. */
  function ControlConditionOf(types: map<string, ControlType>, nodePath: string): Result<Condition>
    requires MatchSegment(nodePath).Some?
  {
    BuildControlCondition(types, Lower(MatchSegment(nodePath).value.0))
  }

  /** `c` is the control-type condition `cc` itself, or a conjunction with `cc` on the left. */
  predicate RestrictedBy(c: Condition, cc: Condition) {
    c == cc || (c.And? && c.left == cc)
  }

  /**
   * `ConvertFromPath`: the search condition of a segment and its positional
   * selection, if any. The clause is built before the type is looked up.
   */
  function ConvertFromPath(types: map<string, ControlType>, nodePath: string): (r: Result<(Condition, Option<Clause>)>)
    ensures MatchSegment(nodePath).None? ==> r == Err(InvalidUiPath)
    ensures MatchSegment(nodePath).Some? && BuildPropertyCondition(MatchSegment(nodePath).value.1).Err? ==>
      r == Err(BuildPropertyCondition(MatchSegment(nodePath).value.1).error)
    ensures MatchSegment(nodePath).Some? && BuildPropertyCondition(MatchSegment(nodePath).value.1).Ok? ==>
      (r.Ok? <==> BuildControlCondition(types, Lower(MatchSegment(nodePath).value.0)).Ok?)
    ensures r.Ok? && r.value.1.Some? ==> !r.value.1.value.NameValueClause? && !r.value.1.value.InvalidClause?
    ensures r.Ok? ==> MatchSegment(nodePath).Some? && ControlConditionOf(types, nodePath).Ok?
    ensures r.Ok? ==> RestrictedBy(r.value.0, ControlConditionOf(types, nodePath).value)
  {
    match MatchSegment(nodePath)
    case None => Err(InvalidUiPath)
    case Some(parts) =>
      var controlName := Lower(parts.0);
      var built :- BuildPropertyCondition(parts.1);
      var controlCondition :- BuildControlCondition(types, controlName);
      match built.1
      case Some(uip) =>
        if uip.NameValueClause? then Ok((And(controlCondition, built.0), None))
        else Ok((controlCondition, built.1))
      case None => Ok((And(controlCondition, built.0), None))
  }

  // ---------------------------------------------------------------------
  // Walking the tree

  /**
   * `FindNode`: one step from `current` (`None` is a null element). Without a
   * selection the step takes `FindFirst`, which may be null; otherwise it
   * takes `FindAll` and picks by position.
   */
  function FindNode(types: map<string, ControlType>, current: Option<Node>, scope: Scope, nodePath: string): (r: Result<Option<Node>>)
  {
    var converted :- ConvertFromPath(types, nodePath);
    if current.None? then Err(NullElement)
    else
      var condition := converted.0;
      match converted.1
      case None => Ok(FindFirst(current.value, scope, condition))
      case Some(uip) =>
        var all := FindAll(current.value, scope, condition);
        match uip
        case FirstClause => if |all| == 0 then Err(NoElements) else Ok(Some(all[0]))
        case IndexClause(n) => if 1 <= n <= |all| then Ok(Some(all[n - 1])) else Err(IndexOutOfRange)
        case LastClause => if |all| == 0 then Err(NoElements) else Ok(Some(all[|all| - 1]))
        case EmptyClause => if |all| == 0 then Err(NoElements) else Ok(Some(all[0]))
        case _ => Err(NotSupported)
  }

  /** The steps applied in order, each from the element the previous one reached. */
  function Walk(types: map<string, ControlType>, current: Option<Node>, steps: seq<Step>): Result<Option<Node>>
    decreases |steps|
  {
    if |steps| == 0 then Ok(current)
    else
      var next :- FindNode(types, current, steps[0].scope, steps[0].nodePath);
      Walk(types, next, steps[1..])
  }

  /** A plan run to the end; a dangling empty piece fails only once the steps before it succeeded. */
  function RunPlan(types: map<string, ControlType>, current: Option<Node>, plan: Plan): Result<Option<Node>> {
    var reached :- Walk(types, current, plan.steps);
    if plan.dangling then Err(IndexOutOfRange) else Ok(reached)
  }

  /** What `FindElement` returns from `current` (`None` stands for null) for `fullPath`. */
  function EvaluateFrom(types: map<string, ControlType>, current: Option<Node>, fullPath: string): Result<Option<Node>> {
    if |fullPath| == 0 then Err(IndexOutOfRange)
    else if fullPath[0] != '/' then Err(BadPath)
    else RunPlan(types, current, PlanSteps(SplitPath(fullPath)[1..]))
  }

  function Evaluate(types: map<string, ControlType>, root: Node, fullPath: string): Result<Option<Node>> {
    EvaluateFrom(types, Some(root), fullPath)
  }

  /** Running a plan whose first piece is empty: the Descendants step, then the plan of what follows it. */
  lemma RunDescendantStep(types: map<string, ControlType>, current: Option<Node>, pieces: seq<string>)
    requires |pieces| >= 2 && pieces[0] == ""
    ensures var next := FindNode(types, current, Descendants, pieces[1]);
      RunPlan(types, current, PlanSteps(pieces)) == if next.Err? then next else RunPlan(types, next.value, PlanSteps(pieces[2..]))
  {
    var rest := PlanSteps(pieces[2..]);
    assert PlanSteps(pieces).steps[1..] == rest.steps;
  }

  /** Running a plan whose first piece is not empty: the Children step, then the plan of the rest. */
  lemma RunChildStep(types: map<string, ControlType>, current: Option<Node>, pieces: seq<string>)
    requires |pieces| >= 1 && pieces[0] != ""
    ensures var next := FindNode(types, current, Children, pieces[0]);
      RunPlan(types, current, PlanSteps(pieces)) == if next.Err? then next else RunPlan(types, next.value, PlanSteps(pieces[1..]))
  {
    var rest := PlanSteps(pieces[1..]);
    assert PlanSteps(pieces).steps[1..] == rest.steps;
  }

  // ---------------------------------------------------------------------
  // The finder object

  class WPathFinder {
    var ControlTypes: map<string, ControlType>

    /** The constructor registers the 39 control types of the table. */
    constructor ()
      ensures ControlTypes == Registration(Registered)
      ensures IsStandardTable(ControlTypes)
    {
      StandardTableLemma();
      ControlTypes := Registration(Registered);
    }

    /** `FindElement`: the loop over the pieces, a Descendants step using up two of them. */
    method FindElement(currentElement: Node, fullPath: string) returns (r: Result<Option<Node>>)
      ensures r == Evaluate(ControlTypes, currentElement, fullPath)
      ensures |fullPath| == 0 ==> r == Err(IndexOutOfRange)
      ensures |fullPath| > 0 && fullPath[0] != '/' ==> r == Err(BadPath)
    {
      if |fullPath| == 0 {
        return Err(IndexOutOfRange);
      }
      if fullPath[0] != '/' {
        return Err(BadPath);
      }
      var elementNodes := SplitPath(fullPath);
      var current: Option<Node> := Some(currentElement);
      var i := 1;
      while i < |elementNodes|
        invariant 1 <= i <= |elementNodes|
        invariant RunPlan(ControlTypes, current, PlanSteps(elementNodes[i..])) == Evaluate(ControlTypes, currentElement, fullPath)
        decreases |elementNodes| - i
      {
        var rest := elementNodes[i..];
        if elementNodes[i] == "" {
          if i + 1 >= |elementNodes| {
            assert PlanSteps(rest) == Plan([], true);
            return Err(IndexOutOfRange);
          }
          RunDescendantStep(ControlTypes, current, rest);
          var next := FindNode(ControlTypes, current, Descendants, elementNodes[i + 1]);
          if next.Err? {
            return next;
          }
          assert rest[2..] == elementNodes[i + 2..];
          current := next.value;
          i := i + 2;
        } else {
          RunChildStep(ControlTypes, current, rest);
          var next := FindNode(ControlTypes, current, Children, elementNodes[i]);
          if next.Err? {
            return next;
          }
          assert rest[1..] == elementNodes[i + 1..];
          current := next.value;
          i := i + 1;
        }
      }
      r := Ok(current);
    }
  }
}
