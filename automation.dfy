/**
 * The slice of the UI Automation host that the engine consumes: elements with
 * an attribute record and ordered children, property conditions, and the
 * `FindFirst`/`FindAll` searches over the Children or Descendants scope.
 * Descendants are taken in preorder; the host's real traversal order is not
 * modelled beyond that.
 */
module Automation {
  import opened Results

  /** The control kinds the finder's table can name (`ControlType.Button`, ...). */
  datatype ControlType =
    | Button | Calendar | CheckBox | ComboBox | Custom | DataGrid | DataItem | Document
    | Edit | Group | Header | HeaderItem | Hyperlink | Image | List | ListItem | Menu
    | MenuBar | MenuItem | Pane | ProgressBar | RadioButton | ScrollBar | Separator
    | Slider | Spinner | SplitButton | StatusBar | Tab | TabItem | Table | Text | Thumb
    | TitleBar | ToolBar | ToolTip | Tree | TreeItem | Window

  /** The attributes a condition can test. */
  datatype Attributes = Attributes(
    name: string,
    automationId: string,
    className: string,
    frameworkId: string,
    isEnabled: bool,
    controlType: ControlType)

  datatype Node = Node(attributes: Attributes, children: seq<Node>)

  datatype Scope = Children | Descendants

  /** The string-valued automation properties a name/value clause can test. */
  datatype TextProperty = NameProperty | AutomationIdProperty | ClassNameProperty | FrameworkIdProperty

  /** `Condition.TrueCondition`, `PropertyCondition`, `AndCondition`, `OrCondition`. */
  datatype Condition =
    | TrueCondition
    | ControlTypeIs(controlType: ControlType)
    | TextPropertyIs(property: TextProperty, value: string)
    | EnabledIs(enabled: bool)
    | And(left: Condition, right: Condition)
    | Or(left: Condition, right: Condition)

  function TextValue(a: Attributes, p: TextProperty): string {
    match p
    case NameProperty => a.name
    case AutomationIdProperty => a.automationId
    case ClassNameProperty => a.className
    case FrameworkIdProperty => a.frameworkId
  }

  predicate Eval(c: Condition, a: Attributes) {
    match c
    case TrueCondition => true
    case ControlTypeIs(k) => a.controlType == k
    case TextPropertyIs(p, v) => TextValue(a, p) == v
    case EnabledIs(b) => a.isEnabled == b
    case And(l, r) => Eval(l, a) && Eval(r, a)
    case Or(l, r) => Eval(l, a) || Eval(r, a)
  }

  /** `e` followed by all its descendants, in preorder. */
  function Subtree(e: Node): seq<Node>
    decreases e, 1
  {
    [e] + SubtreesFrom(e, 0)
  }

  /** The subtrees of the children of `e` from the `i`-th on, concatenated. */
  function SubtreesFrom(e: Node, i: nat): seq<Node>
    decreases e, 0, |e.children| - i
  {
    if i >= |e.children| then [] else Subtree(e.children[i]) + SubtreesFrom(e, i + 1)
  }

  /** The elements a search from `e` may return. */
  function Candidates(e: Node, scope: Scope): seq<Node> {
    match scope
    case Children => e.children
    case Descendants => SubtreesFrom(e, 0)
  }

  /** The elements of `ns` that satisfy `c`, in their original order. */
  function Filter(ns: seq<Node>, c: Condition): (r: seq<Node>)
    ensures |r| <= |ns|
  {
    if ns == [] then []
    else if Eval(c, ns[0].attributes) then [ns[0]] + Filter(ns[1..], c)
    else Filter(ns[1..], c)
  }

  /** `Filter` keeps exactly the elements that satisfy the condition. */
  lemma {:induction false} FilterKeepsMatches(ns: seq<Node>, c: Condition)
    ensures forall n :: n in Filter(ns, c) <==> n in ns && Eval(c, n.attributes)
    decreases |ns|
  {
    if ns != [] {
      FilterKeepsMatches(ns[1..], c);
      assert ns == [ns[0]] + ns[1..];
    }
  }

  /**
   * `Filter` keeps the order of the sequence: the element it keeps at index
   * `m` satisfies the condition, and exactly `m` elements before it do.
   */
  lemma {:induction false} FilterNth(ns: seq<Node>, c: Condition, m: nat)
    requires m < |Filter(ns, c)|
    ensures exists p :: 0 <= p < |ns| && ns[p] == Filter(ns, c)[m] && Eval(c, ns[p].attributes) && |Filter(ns[..p], c)| == m
    decreases |ns|
  {
    var keep := Eval(c, ns[0].attributes);
    if keep && m == 0 {
      assert ns[..0] == [];
      assert ns[0] == Filter(ns, c)[0];
    } else {
      var m' := if keep then m - 1 else m;
      assert Filter(ns, c) == (if keep then [ns[0]] + Filter(ns[1..], c) else Filter(ns[1..], c));
      FilterNth(ns[1..], c, m');
      var q :| 0 <= q < |ns[1..]| && ns[1..][q] == Filter(ns[1..], c)[m'] && Eval(c, ns[1..][q].attributes) &&
        |Filter(ns[1..][..q], c)| == m';
      assert ns[..q + 1][1..] == ns[1..][..q];
      assert ns[q + 1] == Filter(ns, c)[m];
      assert |Filter(ns[..q + 1], c)| == m;
    }
  }

  /** `e.FindAll(scope, c)`. */
  function FindAll(e: Node, scope: Scope, c: Condition): seq<Node> {
    Filter(Candidates(e, scope), c)
  }

  /** `e.FindFirst(scope, c)`: `None` stands for the null the host returns when nothing matches. */
  function FindFirst(e: Node, scope: Scope, c: Condition): Option<Node> {
    var all := FindAll(e, scope, c);
    if |all| == 0 then None else Some(all[0])
  }
}
