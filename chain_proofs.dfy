/**
 * What `BuildPropertyCondition` makes of a clause written as a chain of
 * name/value terms joined by ` and ` / ` or `: the pair of the first two
 * terms, combined with the chain rebuilt from the second term on. An
 * all-`and` chain requires every term, an all-`or` chain some term, and a
 * mixed chain absorbs its first operand.
 */
module ChainProofs {
  import opened Results
  import opened Strings
  import opened Automation
  import opened UIProperties
  import opened PathFinder
  import opened ChainTerms
  import opened ClauseProofs

  /**
   * The grouping the source gives a chain of conditions: the first two
   * operands joined by the first operator and, when there is a further
   * operator, that pair joined by it with the chain from the second operand on.
   */
  function Grouped(cs: seq<Condition>, ops: seq<Operator>): Condition
    requires |cs| == |ops| + 1 && |ops| >= 1
    decreases |ops|
  {
    if |ops| == 1 then Combine(ops[0], cs[0], cs[1])
    else Combine(ops[1], Combine(ops[0], cs[0], cs[1]), Grouped(cs[1..], ops[1..]))
  }

  /** Where the operator pattern matches in two terms joined by one operator, and where the first operand is cut. */
  lemma TwoTermsText(t0: Term, op: Operator, t1: Term)
    requires Simple(t0) && Simple(t1)
    ensures SplitsAt(TermText(t0) + OpText(op) + TermText(t1), TermText(t0), op, TermText(t1))
    ensures FindOperator(TermText(t1)).None?
  {
    TermStartsWithAt(t1);
    OperatorSlices(TermText(t0), op, TermText(t1));
    FirstOperator(t0, op, TermText(t1));
    FirstOperand(t0, op, TermText(t1));
    NoOperatorInLoneTerm(t1);
  }

  /** Two terms joined by one operator. */
  lemma BuildTwoTerms(t0: Term, op: Operator, t1: Term)
    requires Simple(t0) && Simple(t1)
    requires ConvertToCondition(Classify(TermText(t0))).Ok? && ConvertToCondition(Classify(TermText(t1))).Ok?
    ensures BuildPropertyCondition(TermText(t0) + OpText(op) + TermText(t1)) ==
      Ok((Combine(op, ClauseCondition(TermText(t0)), ClauseCondition(TermText(t1))), None))
  {
    TwoTermsText(t0, op, t1);
    BuildLastPair(TermText(t0) + OpText(op) + TermText(t1), TermText(t0), op, TermText(t1));
  }

  /** The same for a term and an operator in front of `t1 op1 rest`. */
  lemma TermThenChainText(t0: Term, op: Operator, t1: Term, op1: Operator, rest: string)
    requires Simple(t0) && Simple(t1) && |rest| > 0 && rest[0] == '@'
    ensures SplitsAt(TermText(t0) + OpText(op) + (TermText(t1) + OpText(op1) + rest), TermText(t0), op,
                     TermText(t1) + OpText(op1) + rest)
    ensures SplitsAt(TermText(t1) + OpText(op1) + rest, TermText(t1), op1, rest)
  {
    var sub := TermText(t1) + OpText(op1) + rest;
    TermStartsWithAt(t1);
    OperatorSlices(TermText(t0), op, sub);
    OperatorSlices(TermText(t1), op1, rest);
    FirstOperator(t0, op, sub);
    FirstOperand(t0, op, sub);
    FirstOperator(t1, op1, rest);
    FirstOperand(t1, op1, rest);
  }

  /** A term and an operator in front of a chain of at least two terms. */
  lemma BuildTermThenChain(t0: Term, op: Operator, t1: Term, op1: Operator, rest: string)
    requires Simple(t0) && Simple(t1) && |rest| > 0 && rest[0] == '@'
    requires ConvertToCondition(Classify(TermText(t0))).Ok? && ConvertToCondition(Classify(TermText(t1))).Ok?
    requires BuildPropertyCondition(TermText(t1) + OpText(op1) + rest).Ok?
    ensures var tail := BuildPropertyCondition(TermText(t1) + OpText(op1) + rest).value;
      BuildPropertyCondition(TermText(t0) + OpText(op) + (TermText(t1) + OpText(op1) + rest)) ==
      Ok((Combine(op1, Combine(op, ClauseCondition(TermText(t0)), ClauseCondition(TermText(t1))), tail.0), tail.1))
  {
    TermThenChainText(t0, op, t1, op1, rest);
    BuildPairThenRest(TermText(t0) + OpText(op) + (TermText(t1) + OpText(op1) + rest), TermText(t0), op,
                      TermText(t1) + OpText(op1) + rest, TermText(t1), op1, rest,
                      ClauseCondition(TermText(t0)), ClauseCondition(TermText(t1)),
                      BuildPropertyCondition(TermText(t1) + OpText(op1) + rest).value);
  }

  lemma SimpleTail(ts: seq<Term>)
    requires |ts| > 0 && (forall i | 0 <= i < |ts| :: Simple(ts[i])) && Converts(ts)
    ensures (forall i | 0 <= i < |ts[1..]| :: Simple(ts[1..][i])) && Converts(ts[1..])
    ensures Conditions(ts[1..]) == Conditions(ts)[1..]
  {
    assert forall i | 0 <= i < |ts[1..]| :: ts[1..][i] == ts[i + 1];
  }

  /**
   * A chain of simple terms with at least one operator builds the grouped
   * condition of its terms, and no selection.
   */
  lemma {:induction false} BuildChain(ts: seq<Term>, ops: seq<Operator>)
    requires |ts| == |ops| + 1 && |ops| >= 1
    requires forall i | 0 <= i < |ts| :: Simple(ts[i])
    requires Converts(ts)
    ensures BuildPropertyCondition(ChainText(ts, ops)) == Ok((Grouped(Conditions(ts), ops), None))
    decreases |ops|
  {
    var cs := Conditions(ts);
    var rest := ChainText(ts[1..], ops[1..]);
    assert ChainText(ts, ops) == TermText(ts[0]) + OpText(ops[0]) + rest;
    TermCondition(ts[0]);
    TermCondition(ts[1]);
    if |ops| == 1 {
      assert rest == TermText(ts[1]);
      BuildTwoTerms(ts[0], ops[0], ts[1]);
    } else {
      var rest2 := ChainText(ts[2..], ops[2..]);
      assert ts[1..][1..] == ts[2..] && ops[1..][1..] == ops[2..];
      assert rest == TermText(ts[1]) + OpText(ops[1]) + rest2;
      ChainStartsWithAt(ts[2..], ops[2..]);
      SimpleTail(ts);
      BuildChain(ts[1..], ops[1..]);
      BuildTermThenChain(ts[0], ops[0], ts[1], ops[1], rest2);
    }
  }

  /** An all-`and` chain holds exactly when every term holds. */
  lemma {:induction false} AllAndChain(cs: seq<Condition>, ops: seq<Operator>, a: Attributes)
    requires |cs| == |ops| + 1 && |ops| >= 1
    requires forall i | 0 <= i < |ops| :: ops[i] == AndOperator
    ensures Eval(Grouped(cs, ops), a) <==> forall i | 0 <= i < |cs| :: Eval(cs[i], a)
    decreases |ops|
  {
    if |ops| > 1 {
      AllAndChain(cs[1..], ops[1..], a);
      assert forall i | 1 <= i < |cs| :: cs[1..][i - 1] == cs[i];
    }
  }

  /** An all-`or` chain holds exactly when some term holds. */
  lemma {:induction false} AllOrChain(cs: seq<Condition>, ops: seq<Operator>, a: Attributes)
    requires |cs| == |ops| + 1 && |ops| >= 1
    requires forall i | 0 <= i < |ops| :: ops[i] == OrOperator
    ensures Eval(Grouped(cs, ops), a) <==> exists i | 0 <= i < |cs| :: Eval(cs[i], a)
    decreases |ops|
  {
    if |ops| > 1 {
      AllOrChain(cs[1..], ops[1..], a);
      assert forall i | 1 <= i < |cs| :: cs[1..][i - 1] == cs[i];
      if Eval(cs[1..][0], a) {
        assert Eval(cs[1], a);
      }
    }
  }

  /** `p1 or p2 and p3` holds exactly when `p2` and `p3` both hold: `p1` is absorbed. */
  lemma OrThenAnd(c1: Condition, c2: Condition, c3: Condition, a: Attributes)
    ensures Eval(Grouped([c1, c2, c3], [OrOperator, AndOperator]), a) <==> Eval(c2, a) && Eval(c3, a)
  {
    assert [c1, c2, c3][1..] == [c2, c3];
    assert [OrOperator, AndOperator][1..] == [AndOperator];
  }

  /** `p1 and p2 or p3` holds exactly when `p2` or `p3` holds: again `p1` is absorbed. */
  lemma AndThenOr(c1: Condition, c2: Condition, c3: Condition, a: Attributes)
    ensures Eval(Grouped([c1, c2, c3], [AndOperator, OrOperator]), a) <==> Eval(c2, a) || Eval(c3, a)
  {
    assert [c1, c2, c3][1..] == [c2, c3];
    assert [AndOperator, OrOperator][1..] == [OrOperator];
  }

  // ---------------------------------------------------------------------
  // A value holding the operator text

  /** A clause whose first value holds ` or `, the text of the operator written after it. */
  function CutExample(): string { "@id='b or c' or @name='e'" }

  /** The ` or ` after the closing quote of the first value is an operator. */
  lemma CutExampleAt12()
    ensures OperatorStartsAt(CutExample(), 12)
    ensures OperatorAt(CutExample(), 12) == Some(OperatorMatch(12, 16, OrOperator))
  {
    var s := CutExample();
    assert s[11] == '\'' && s[12] == ' ' && s[15] == ' ' && s[16] == '@';
    assert SpaceRunEnd(s, 12) == 13 && SpaceRunEnd(s, 15) == 16;
    assert s[13..16] == "or ";
    assert Lower(s[13..16]) != "and" && Lower(s[13..15]) == "or";
  }

  /** The ` or ` inside the value follows `b`, not a quote: after the opening quote, `b` starts no operator. */
  lemma CutExampleAt5()
    ensures OperatorAt(CutExample(), 5).None?
  {
    var s := CutExample();
    assert s[5] == 'b';
    assert SpaceRunEnd(s, 5) == 5;
    assert Lower(s[5..8])[0] == 'b' && Lower(s[5..7])[0] == 'b';
  }

  /** Before index 12, only index 5 follows a quote. */
  lemma CutExampleNoEarlier()
    ensures forall i :: 1 <= i < 12 ==> !OperatorStartsAt(CutExample(), i)
  {
    var s := CutExample();
    assert s[..11] == ['@', 'i', 'd', '=', '\'', 'b', ' ', 'o', 'r', ' ', 'c'];
    CutExampleAt5();
    forall j | 0 <= j < 11 && j != 4
      ensures s[j] != '\'' && s[j] != ')'
    {
      assert s[j] == s[..11][j];
    }
  }

  /** The operator pattern skips the ` or ` inside the value and matches the one after its closing quote. */
  lemma CutExampleOperator()
    ensures FindOperator(CutExample()) == Some(OperatorMatch(12, 16, OrOperator))
  {
    CutExampleAt12();
    CutExampleNoEarlier();
    FindOperatorAt(CutExample(), 12);
  }

  /** The first operand is cut at the first ` or `, the one inside the value. */
  lemma CutExampleOperand()
    ensures TextBeforeOperator(CutExample(), OperatorMatch(12, 16, OrOperator)) == "@id='b"
  {
    var s := CutExample();
    assert s[12..16] == " or ";
    assert HasAt(s, 6, " or ");
    forall k | 0 <= k < 6
      ensures !HasAt(s, k, " or ")
    {
      assert s[k] != ' ';
    }
    assert s[..6] == "@id='b";
  }

  /** The cut operand has no closing quote, no digit and no function: it is Invalid. */
  lemma CutOperandInvalid()
    ensures Classify("@id='b") == InvalidClause
  {
    var t := "@id='b";
    assert WordRunEnd(t, 1) == 3 && SpaceRunEnd(t, 3) == 3 && SpaceRunEnd(t, 4) == 4;
    assert LineEnd(t, 5) == 6;
    assert MatchNameValueAt(t, 0).None?;
    NoAtNoPairFrom(t, 1);
    assert forall k :: 0 <= k < |t| ==> !IsDigit(t[k]);
    assert !HasAt(t, 0, "last()");
    assert !Contains(t, "first()");
  }

  /**
   * `@id='b or c' or @name='e'` fails with InvalidProperty: the value `b or c`
   * is not read as a value, because the first operand ends at its ` or `.
   */
  lemma CutInsideValue()
    ensures BuildPropertyCondition(CutExample()) == Err(InvalidProperty)
  {
    CutExampleOperator();
    CutExampleOperand();
    CutOperandInvalid();
  }
}
