/**
 * One predicate clause of a path segment (the text between `[` and `]`, or
 * one operand of an `and`/`or` chain): its classification and the
 * automation condition it stands for.
 */
module UIProperties {
  import opened Results
  import opened Strings
  import opened Automation

  /** The classification a clause receives, with the parts each kind keeps. */
  datatype Clause =
    | EmptyClause
    | NameValueClause(name: string, value: string)
    | IndexClause(index: int)
    | FirstClause
    | LastClause
    | InvalidClause

  /** Index of the first line break at or after `i` (or `|s|`): the reach of the regex `.`. */
  function LineEnd(s: string, i: nat): (r: nat)
    requires i <= |s|
    ensures i <= r <= |s|
    ensures forall k :: i <= k < r ==> s[k] != '\n'
    ensures r < |s| ==> s[r] == '\n'
    decreases |s| - i
  {
    if i < |s| && s[i] != '\n' then LineEnd(s, i + 1) else i
  }

  /** The last quote in `s[lo..hi]`. */
  function LastQuote(s: string, lo: nat, hi: nat): (r: Option<nat>)
    requires hi <= |s|
    ensures r.Some? ==> lo <= r.value < hi && s[r.value] == '\''
    ensures r.Some? ==> forall k :: r.value < k < hi ==> s[k] != '\''
    ensures r.None? ==> forall k :: lo <= k < hi ==> s[k] != '\''
    decreases hi
  {
    if hi <= lo then None
    else if s[hi - 1] == '\'' then Some(hi - 1)
    else LastQuote(s, lo, hi - 1)
  }

  /**
   * The pattern `@(?<name>\w+)[ ]*=[ ]*'(?<value>.+)'` tried at the `@` at
   * index `i`: the name is the whole word after `@`, the value runs from the
   * opening quote to the LAST quote on the same line and is never empty.
   */
  function MatchNameValueAt(s: string, i: nat): (r: Option<(string, string)>)
    requires i < |s| && s[i] == '@'
    ensures r.Some? ==> |r.value.0| > 0 && |r.value.1| > 0 && '\n' !in r.value.1
    ensures r.Some? ==> forall k :: 0 <= k < |r.value.0| ==> IsWordChar(r.value.0[k])
  {
    var w := WordRunEnd(s, i + 1);
    if w == i + 1 then None
    else
      var a := SpaceRunEnd(s, w);
      if a == |s| || s[a] != '=' then None
      else
        var b := SpaceRunEnd(s, a + 1);
        if b == |s| || s[b] != '\'' then None
        else
          match LastQuote(s, b + 2, LineEnd(s, b + 1))
          case None => None
          case Some(e) => Some((s[i + 1..w], s[b + 1..e]))
  }

  /** The leftmost match of the name/value pattern at or after index `i`. */
  function MatchNameValueFrom(s: string, i: nat): (r: Option<(string, string)>)
    requires i <= |s|
    ensures r.Some? ==> |r.value.0| > 0 && |r.value.1| > 0 && '\n' !in r.value.1
    ensures r.None? ==> forall k :: i <= k < |s| && s[k] == '@' ==> MatchNameValueAt(s, k).None?
    decreases |s| - i
  {
    if i == |s| then None
    else if s[i] == '@' && MatchNameValueAt(s, i).Some? then MatchNameValueAt(s, i)
    else MatchNameValueFrom(s, i + 1)
  }

  /** A pair found from `i` is the match at the leftmost `@` from `i` at which the pattern matches. */
  lemma {:induction false} MatchNameValueLeftmost(s: string, i: nat)
    requires i <= |s|
    ensures var r := MatchNameValueFrom(s, i);
      r.Some? ==> exists k :: (i <= k < |s| && s[k] == '@' && r == MatchNameValueAt(s, k) &&
        forall j :: i <= j < k && s[j] == '@' ==> MatchNameValueAt(s, j).None?)
    decreases |s| - i
  {
    if i < |s| && !(s[i] == '@' && MatchNameValueAt(s, i).Some?) {
      MatchNameValueLeftmost(s, i + 1);
    }
  }

  function MatchNameValue(s: string): Option<(string, string)> {
    MatchNameValueFrom(s, 0)
  }

  /** Index of the first decimal digit at or after `i` (the pattern `(?<index>\d)`). */
  function FirstDigitFrom(s: string, i: nat): (r: Option<nat>)
    requires i <= |s|
    ensures r.Some? ==> i <= r.value < |s| && IsDigit(s[r.value])
    ensures r.Some? ==> forall k :: i <= k < r.value ==> !IsDigit(s[k])
    ensures r.None? ==> forall k :: i <= k < |s| ==> !IsDigit(s[k])
    decreases |s| - i
  {
    if i == |s| then None
    else if IsDigit(s[i]) then Some(i)
    else FirstDigitFrom(s, i + 1)
  }

  /** The clause is neither empty, nor a name/value pair, nor an index. */
  predicate ReachesPositional(text: string) {
    |text| > 0 && MatchNameValue(text).None? && FirstDigitFrom(text, 0).None?
  }

  /**
   * The classification `UIProperty.Parse` gives `text`: empty text, then a
   * name/value pair, then the first digit, then `first()`, which a later
   * `last()` overrides.
   */
  function Classify(text: string): (c: Clause)
    ensures c == EmptyClause <==> |text| == 0
    ensures c.IndexClause? ==> 0 <= c.index <= 9
  {
    if |text| == 0 then EmptyClause
    else match MatchNameValue(text)
      case Some(nv) => NameValueClause(nv.0, nv.1)
      case None =>
        match FirstDigitFrom(text, 0)
        case Some(k) => IndexClause(text[k] as int - '0' as int)
        case None =>
          if Contains(text, "last()") then LastClause
          else if Contains(text, "first()") then FirstClause
          else InvalidClause
  }

  /** `char.IsWhiteSpace` on the ASCII and Latin-1 range, or the null character. */
  predicate IsWhiteSpaceOrNull(c: char) {
    c == ' ' || ('\t' <= c <= '\r') || c as int == 0x85 || c as int == 0xA0 || c as int == 0
  }

  function TrimStart(s: string): (r: string)
    ensures |r| <= |s| && r == s[|s| - |r|..]
    ensures |r| > 0 ==> !IsWhiteSpaceOrNull(r[0])
    ensures forall k :: 0 <= k < |s| - |r| ==> IsWhiteSpaceOrNull(s[k])
  {
    if |s| > 0 && IsWhiteSpaceOrNull(s[0]) then TrimStart(s[1..]) else s
  }

  function TrimEnd(s: string): (r: string)
    ensures |r| <= |s| && r == s[..|r|]
    ensures |r| > 0 ==> !IsWhiteSpaceOrNull(r[|r| - 1])
    ensures forall k :: |r| <= k < |s| ==> IsWhiteSpaceOrNull(s[k])
  {
    if |s| > 0 && IsWhiteSpaceOrNull(s[|s| - 1]) then TrimEnd(s[..|s| - 1]) else s
  }

  /** `Convert.ToBoolean(value)`: `True` or `False` in any case, surrounding white space ignored. */
  function ParseBoolean(value: string): (r: Option<bool>)
    ensures r == Some(true) <==> Lower(TrimEnd(TrimStart(value))) == "true"
    ensures r == Some(false) <==> Lower(TrimEnd(TrimStart(value))) == "false"
  {
    var t := Lower(TrimEnd(TrimStart(value)));
    if t == "true" then Some(true) else if t == "false" then Some(false) else None
  }

  /**
   * `ConvertNameValueProperty`: the attribute name is matched without regard
   * to case and the condition compares the element's attribute with the value.
   */
  function ConvertNameValueProperty(name: string, value: string): (r: Result<Condition>)
    ensures Lower(name) == "name" ==> r.Ok? && forall a :: Eval(r.value, a) <==> a.name == value
    ensures Lower(name) == "id" ==> r.Ok? && forall a :: Eval(r.value, a) <==> a.automationId == value
    ensures Lower(name) == "class" ==> r.Ok? && forall a :: Eval(r.value, a) <==> a.className == value
    ensures Lower(name) == "framework" ==> r.Ok? && forall a :: Eval(r.value, a) <==> a.frameworkId == value
    ensures Lower(name) == "enabled" ==>
      match ParseBoolean(value)
      case Some(b) => r.Ok? && forall a :: Eval(r.value, a) <==> a.isEnabled == b
      case None => r == Err(NotBoolean)
    ensures Lower(name) !in {"name", "id", "class", "framework", "enabled"} ==> r == Err(UnknownProperty)
  {
    var n := Lower(name);
    if n == "name" then Ok(TextPropertyIs(NameProperty, value))
    else if n == "id" then Ok(TextPropertyIs(AutomationIdProperty, value))
    else if n == "class" then Ok(TextPropertyIs(ClassNameProperty, value))
    else if n == "framework" then Ok(TextPropertyIs(FrameworkIdProperty, value))
    else if n == "enabled" then
      match ParseBoolean(value)
      case Some(b) => Ok(EnabledIs(b))
      case None => Err(NotBoolean)
    else Err(UnknownProperty)
  }

  /** `ConvertToCondition`: only a name/value clause tests the element; Invalid throws. */
  function ConvertToCondition(c: Clause): (r: Result<Condition>)
    ensures c.InvalidClause? ==> r == Err(InvalidProperty)
    ensures !c.InvalidClause? && !c.NameValueClause? ==> r == Ok(TrueCondition)
    ensures c.NameValueClause? ==> r == ConvertNameValueProperty(c.name, c.value)
  {
    match c
    case EmptyClause => Ok(TrueCondition)
    case NameValueClause(n, v) => ConvertNameValueProperty(n, v)
    case IndexClause(_) => Ok(TrueCondition)
    case FirstClause => Ok(TrueCondition)
    case LastClause => Ok(TrueCondition)
    case InvalidClause => Err(InvalidProperty)
  }

  datatype Types = Invalid | NameValue | Index | First | Last | Empty

  /** A clause object whose `Parse` fills its fields one after another. */
  class UIProperty {
    var Type: Types
    var Text: string
    var Name: string
    var Value: string
    var Index: int
    var SelectFirst: bool
    var SelectLast: bool

    /** The clause the fields describe. */
    function AsClause(): Clause
      reads this
    {
      if Type == Types.Invalid then InvalidClause
      else if Type == Types.NameValue then NameValueClause(Name, Value)
      else if Type == Types.Index then IndexClause(Index)
      else if Type == Types.First then FirstClause
      else if Type == Types.Last then LastClause
      else EmptyClause
    }

    constructor (propertyString: string)
      ensures Text == propertyString
      ensures AsClause() == Classify(propertyString)
      ensures SelectFirst == (ReachesPositional(propertyString) && Contains(propertyString, "first()"))
      ensures SelectLast == (ReachesPositional(propertyString) && Contains(propertyString, "last()"))
    {
      Type := Types.Invalid;
      Text := propertyString;
      Name, Value, Index := "", "", 0;
      SelectFirst, SelectLast := false, false;
      new;
      Parse();
    }

    method Parse()
      modifies this
      ensures Text == old(Text)
      ensures AsClause() == Classify(Text)
      ensures SelectFirst == (old(SelectFirst) || (ReachesPositional(Text) && Contains(Text, "first()")))
      ensures SelectLast == (old(SelectLast) || (ReachesPositional(Text) && Contains(Text, "last()")))
      ensures !Classify(Text).NameValueClause? ==> Name == old(Name) && Value == old(Value)
      ensures !Classify(Text).IndexClause? ==> Index == old(Index)
    {
      Type := Types.Invalid;
      if |Text| == 0 {
        Type := Types.Empty;
        return;
      }
      var nameValue := MatchNameValue(Text);
      if nameValue.Some? {
        Type := Types.NameValue;
        Name := nameValue.value.0;
        Value := nameValue.value.1;
        return;
      }
      var digit := FirstDigitFrom(Text, 0);
      if digit.Some? {
        Type := Types.Index;
        Index := Text[digit.value] as int - '0' as int;
        return;
      }
      if Contains(Text, "first()") {
        Type := Types.First;
        SelectFirst := true;
      }
      if Contains(Text, "last()") {
        Type := Types.Last;
        SelectLast := true;
      }
    }
  }
}
