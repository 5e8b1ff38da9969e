/**
 * A clause written as a chain of name/value terms joined by ` and ` /
 * ` or `: where the operator pattern of `BuildPropertyCondition` matches in
 * it, where the first operand is cut, and what one step of the recursion
 * builds.
 */
module ChainTerms {
  import opened Results
  import opened Strings
  import opened Automation
  import opened UIProperties
  import opened PathFinder
  import opened ClauseProofs

  /** One `@name='value'` term of a chain. */
  datatype Term = Term(name: string, value: string)

  /**
   * A term the operator pattern cannot misread: a word for a name, and a
   * value without quotes, parentheses, spaces or line breaks that does not
   * start like `and` or `or`.
   */
  predicate Simple(t: Term) {
    && IsName(t.name)
    && |t.value| > 0
    && (forall k :: 0 <= k < |t.value| ==> t.value[k] !in "') \n")
    && t.value[0] !in "aAoO"
  }

  function TermText(t: Term): string {
    NameValueText(t.name, 0, 0, t.value)
  }

  function OpText(op: Operator): string {
    match op
    case AndOperator => " and "
    case OrOperator => " or "
  }

  /** The terms joined by the operators: `ts[0] ops[0] ts[1] … ts[n]`. */
  function ChainText(ts: seq<Term>, ops: seq<Operator>): string
    requires |ts| == |ops| + 1
    decreases |ops|
  {
    if |ops| == 0 then TermText(ts[0])
    else TermText(ts[0]) + OpText(ops[0]) + ChainText(ts[1..], ops[1..])
  }

  /** The condition each term stands for, when its name and value convert. */
  predicate Converts(ts: seq<Term>) {
    forall i | 0 <= i < |ts| :: ConvertNameValueProperty(ts[i].name, ts[i].value).Ok?
  }

  function Conditions(ts: seq<Term>): (cs: seq<Condition>)
    requires Converts(ts)
    ensures |cs| == |ts|
    ensures forall i | 0 <= i < |ts| :: cs[i] == ConvertNameValueProperty(ts[i].name, ts[i].value).value
  {
    seq(|ts|, i requires 0 <= i < |ts| && Converts(ts) => ConvertNameValueProperty(ts[i].name, ts[i].value).value)
  }

  // ---------------------------------------------------------------------
  // Where the operator pattern matches in a chain

  lemma TermShape(t: Term)
    requires Simple(t)
    ensures var s := TermText(t);
      && |s| == |t.name| + |t.value| + 4
      && s[0] == '@' && s[|t.name| + 1] == '=' && s[|t.name| + 2] == '\''
      && s[|s| - 1] == '\''
      && (forall k :: 1 <= k <= |t.name| ==> s[k] == t.name[k - 1])
      && (forall k :: |t.name| + 3 <= k < |s| - 1 ==> s[k] == t.value[k - |t.name| - 3])
  {
    var s := TermText(t);
    assert s == "@" + t.name + "=" + "'" + t.value + "'";
  }

  /** No character of a term is a space, and only its two quotes are quotes. */
  lemma TermChars(t: Term, k: nat)
    requires Simple(t) && k < |TermText(t)|
    ensures TermText(t)[k] != ' '
    ensures TermText(t)[k] == '\'' || TermText(t)[k] == ')' ==> k == |t.name| + 2 || k == |TermText(t)| - 1
  {
    TermShape(t);
    var s := TermText(t);
    if 1 <= k <= |t.name| {
      assert IsWordChar(t.name[k - 1]);
    } else if |t.name| + 3 <= k < |s| - 1 {
      assert t.value[k - |t.name| - 3] !in "') \n";
    }
  }

  /** Inside a term, the operator pattern finds nothing, whatever follows the term. */
  lemma NoOperatorInTerm(t: Term, rest: string, j: int)
    requires Simple(t) && 1 <= j < |TermText(t)|
    ensures !OperatorStartsAt(TermText(t) + rest, j)
  {
    var T := TermText(t);
    var s := T + rest;
    TermShape(t);
    TermChars(t, j - 1);
    assert s[j - 1] == T[j - 1];
    if s[j - 1] == '\'' {
      assert j == |t.name| + 3;
      assert s[j] == t.value[0];
      assert SpaceRunEnd(s, j) == j;
      assert LowerChar(s[j]) != 'a' && LowerChar(s[j]) != 'o';
      if j + 3 <= |s| {
        assert Lower(s[j..j + 3])[0] == LowerChar(s[j]);
      }
      if j + 2 <= |s| {
        assert Lower(s[j..j + 2])[0] == LowerChar(s[j]);
      }
    }
  }

  lemma TermStartsWithAt(t: Term)
    ensures |TermText(t)| > 0 && TermText(t)[0] == '@'
  {
  }

  lemma TermEndsWithQuote(t: Term)
    requires Simple(t)
    ensures |TermText(t)| > 0 && TermText(t)[|TermText(t)| - 1] == '\''
  {
    TermShape(t);
  }

  /** The characters around the end of the text before an operator, and the operator's own. */
  lemma OperatorChars(before: string, op: Operator, rest: string)
    requires |before| > 0 && |rest| > 0
    ensures var s := before + OpText(op) + rest; var j := |before|;
      && s[j - 1] == before[j - 1]
      && |OpText(op)| == (if op == AndOperator then 5 else 4)
      && (op == AndOperator ==>
            j + 6 <= |s| && s[j] == ' ' && s[j + 1] == 'a' && s[j + 2] == 'n' && s[j + 3] == 'd' && s[j + 4] == ' ' && s[j + 5] == rest[0])
      && (op == OrOperator ==>
            j + 5 <= |s| && s[j] == ' ' && s[j + 1] == 'o' && s[j + 2] == 'r' && s[j + 3] == ' ' && s[j + 4] == rest[0])
  {
  }

  /** Right after a term, the operator written there is matched, up to the `@` that follows. */
  lemma OperatorAfterTerm(t: Term, op: Operator, rest: string)
    requires Simple(t) && |rest| > 0 && rest[0] == '@'
    ensures var s := TermText(t) + OpText(op) + rest;
      OperatorStartsAt(s, |TermText(t)|) &&
      OperatorAt(s, |TermText(t)|) == Some(OperatorMatch(|TermText(t)|, |TermText(t)| + |OpText(op)|, op))
  {
    var T := TermText(t);
    var s := T + OpText(op) + rest;
    TermEndsWithQuote(t);
    OperatorChars(T, op, rest);
    match op
    case AndOperator =>
      AndAt(s, |T|);
    case OrOperator =>
      OrAt(s, |T|);
  }

  lemma AndAt(s: string, j: nat)
    requires 1 <= j && j + 6 <= |s| && s[j - 1] == '\''
    requires s[j] == ' ' && s[j + 1] == 'a' && s[j + 2] == 'n' && s[j + 3] == 'd' && s[j + 4] == ' ' && s[j + 5] == '@'
    ensures OperatorStartsAt(s, j) && OperatorAt(s, j) == Some(OperatorMatch(j, j + 5, AndOperator))
  {
    assert SpaceRunEnd(s, j) == j + 1;
    assert s[j + 1..j + 4] == "and";
    assert IgnoreCaseAt(s, j + 1, "and");
    assert SpaceRunEnd(s, j + 4) == j + 5;
  }

  lemma OrAt(s: string, j: nat)
    requires 1 <= j && j + 5 <= |s| && s[j - 1] == '\''
    requires s[j] == ' ' && s[j + 1] == 'o' && s[j + 2] == 'r' && s[j + 3] == ' ' && s[j + 4] == '@'
    ensures OperatorStartsAt(s, j) && OperatorAt(s, j) == Some(OperatorMatch(j, j + 4, OrOperator))
  {
    assert SpaceRunEnd(s, j) == j + 1;
    assert Lower(s[j + 1..j + 4])[0] == 'o';
    assert !IgnoreCaseAt(s, j + 1, "and");
    assert s[j + 1..j + 3] == "or";
    assert IgnoreCaseAt(s, j + 1, "or");
    assert SpaceRunEnd(s, j + 3) == j + 4;
  }

  /** A lone term holds no operator. */
  lemma NoOperatorInLoneTerm(t: Term)
    requires Simple(t)
    ensures FindOperator(TermText(t)).None?
  {
    var T := TermText(t);
    forall j | 1 <= j
      ensures !OperatorStartsAt(T, j)
    {
      if j < |T| {
        NoOperatorInTerm(t, "", j);
        assert T + "" == T;
      } else if j == |T| {
        assert SpaceRunEnd(T, j) == j;
      }
    }
  }

  /** The operator pattern's leftmost match is the first index where it matches. */
  lemma FindOperatorAt(s: string, k: int)
    requires OperatorStartsAt(s, k)
    requires forall i :: 1 <= i < k ==> !OperatorStartsAt(s, i)
    ensures FindOperator(s) == OperatorAt(s, k)
  {
  }

  /** No operator starts inside the first term of a chain. */
  lemma NoOperatorBeforeTermEnd(t: Term, op: Operator, rest: string)
    requires Simple(t)
    ensures forall j :: 1 <= j < |TermText(t)| ==> !OperatorStartsAt(TermText(t) + OpText(op) + rest, j)
  {
    var tail := OpText(op) + rest;
    assert TermText(t) + tail == TermText(t) + OpText(op) + rest;
    forall j | 1 <= j < |TermText(t)|
      ensures !OperatorStartsAt(TermText(t) + tail, j)
    {
      NoOperatorInTerm(t, tail, j);
    }
  }

  /** The first operator of a chain is the one after its first term. */
  lemma FirstOperator(t: Term, op: Operator, rest: string)
    requires Simple(t) && |rest| > 0 && rest[0] == '@'
    ensures FindOperator(TermText(t) + OpText(op) + rest) ==
      Some(OperatorMatch(|TermText(t)|, |TermText(t)| + |OpText(op)|, op))
  {
    var T := TermText(t);
    var s := T + OpText(op) + rest;
    OperatorAfterTerm(t, op, rest);
    NoOperatorBeforeTermEnd(t, op, rest);
    FindOperatorAt(s, |T|);
  }

  /** The operand in front of the first operator is the first term, which holds no space. */
  lemma FirstOperand(t: Term, op: Operator, rest: string)
    requires Simple(t)
    ensures var T := TermText(t);
      TextBeforeOperator(T + OpText(op) + rest, OperatorMatch(|T|, |T| + |OpText(op)|, op)) == T
  {
    var T := TermText(t);
    var s := T + OpText(op) + rest;
    assert s[|T|..|T| + |OpText(op)|] == OpText(op);
    forall k | 0 <= k < |T|
      ensures !HasAt(s, k, OpText(op))
    {
      TermChars(t, k);
      assert s[k] == T[k];
      if k + |OpText(op)| <= |s| {
        assert s[k..k + |OpText(op)|][0] == s[k];
      }
    }
    assert IndexOfFrom(s, OpText(op), 0, |T|) == |T|;
    assert s[..|T|] == T;
  }

  lemma ChainStartsWithAt(ts: seq<Term>, ops: seq<Operator>)
    requires |ts| == |ops| + 1
    ensures |ChainText(ts, ops)| > 0 && ChainText(ts, ops)[0] == '@'
  {
  }

  // ---------------------------------------------------------------------
  // The condition of a chain

  /** The condition a clause converts to, when it converts. */
  function ClauseCondition(text: string): Condition
    requires ConvertToCondition(Classify(text)).Ok?
  {
    ConvertToCondition(Classify(text)).value
  }

  /**
   * The operator pattern first matches `op` right after `first` in
   * `s == first op sub`, and the first operand is cut there.
   */
  predicate SplitsAt(s: string, first: string, op: Operator, sub: string) {
    && s == first + OpText(op) + sub
    && s[|first|..|first| + |OpText(op)|] == OpText(op)
    && s[|first + OpText(op)|..] == sub
    && FindOperator(s) == Some(OperatorMatch(|first|, |first| + |OpText(op)|, op))
    && TextBeforeOperator(s, OperatorMatch(|first|, |first| + |OpText(op)|, op)) == first
  }

  /** `first op second`, where `second` holds no further operator. */
  lemma BuildLastPair(s: string, first: string, op: Operator, second: string)
    requires SplitsAt(s, first, op, second) && FindOperator(second).None?
    requires ConvertToCondition(Classify(first)).Ok? && ConvertToCondition(Classify(second)).Ok?
    ensures BuildPropertyCondition(s) == Ok((Combine(op, ClauseCondition(first), ClauseCondition(second)), None))
  {
  }

  /** `first op sub`, where `sub` is `second op2 rest`. */
  lemma BuildPairThenRest(s: string, first: string, op: Operator, sub: string, second: string, op2: Operator, rest: string,
                          c1: Condition, c2: Condition, tail: (Condition, Option<Clause>))
    requires SplitsAt(s, first, op, sub) && SplitsAt(sub, second, op2, rest)
    requires ConvertToCondition(Classify(first)) == Ok(c1) && ConvertToCondition(Classify(second)) == Ok(c2)
    requires BuildPropertyCondition(sub) == Ok(tail)
    ensures BuildPropertyCondition(s) == Ok((Combine(op2, Combine(op, c1, c2), tail.0), tail.1))
  {
  }

  /** The operator's text and the text after it, in `first op sub`. */
  lemma OperatorSlices(first: string, op: Operator, sub: string)
    ensures var s := first + OpText(op) + sub;
      && s[|first|..|first| + |OpText(op)|] == OpText(op)
      && s[|first + OpText(op)|..] == sub
  {
  }

  /** The clause condition of a simple term is the condition of its name and value. */
  lemma TermCondition(t: Term)
    requires Simple(t) && ConvertNameValueProperty(t.name, t.value).Ok?
    ensures ConvertToCondition(Classify(TermText(t))).Ok?
    ensures ClauseCondition(TermText(t)) == ConvertNameValueProperty(t.name, t.value).value
  {
    ClassifyWrittenPair(t.name, 0, 0, t.value, "");
    assert TermText(t) + "" == TermText(t);
  }
}
