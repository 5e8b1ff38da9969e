/**
 * What one step of `FindElement` selects: the search condition a segment
 * converts to, and the element `FindNode` picks among the candidates that
 * satisfy it.
 */
module FindProofs {
  import opened Results
  import opened Strings
  import opened Automation
  import opened UIProperties
  import opened PathFinder

  // ---------------------------------------------------------------------
  // The search condition of a segment

  /** Every element `c` accepts has the control type `controlName` names (any, when it is empty). */
  ghost predicate ControlFilterHolds(types: map<string, ControlType>, controlName: string, c: Condition) {
    forall a :: Eval(c, a) ==> controlName == "" || (controlName in types && a.controlType == types[controlName])
  }

  /** The condition of a converted segment only accepts elements of the segment's control type. */
  lemma ConvertFromPathFilter(types: map<string, ControlType>, nodePath: string)
    requires ConvertFromPath(types, nodePath).Ok?
    ensures MatchSegment(nodePath).Some?
    ensures ControlFilterHolds(types, Lower(MatchSegment(nodePath).value.0), ConvertFromPath(types, nodePath).value.0)
  {
    RestrictedFilter(types, Lower(MatchSegment(nodePath).value.0), ConvertFromPath(types, nodePath).value.0,
      ControlConditionOf(types, nodePath).value);
  }

  /** A condition restricted by a control-type condition accepts only elements of that control type. */
  lemma RestrictedFilter(types: map<string, ControlType>, controlName: string, c: Condition, cc: Condition)
    requires BuildControlCondition(types, controlName) == Ok(cc) && RestrictedBy(c, cc)
    ensures ControlFilterHolds(types, controlName, c)
  {
    forall a | Eval(c, a)
      ensures controlName == "" || (controlName in types && a.controlType == types[controlName])
    {
      assert Eval(cc, a);
    }
  }

  /** A segment without brackets is read as a type alone, with an empty clause. */
  lemma MatchBareSegment(s: string)
    requires '[' !in s && ']' !in s
    ensures MatchSegment(s) == Some((s, ""))
  {
    assert BracketFreeEnd(s, 0) == |s|;
  }

  /**
   * A type name without brackets, possibly empty, followed by a one-line
   * bracketed clause reads back as that name and clause.
   */
  lemma {:induction false} MatchWrittenSegment(typeName: string, clause: string)
    requires '[' !in typeName && ']' !in typeName && '\n' !in clause
    ensures MatchSegment(typeName + "[" + clause + "]") == Some((typeName, clause))
  {
    var s := typeName + "[" + clause + "]";
    var t := |typeName|;
    assert s[..t] == typeName;
    assert s[t] == '[';
    assert forall k :: 0 <= k < t ==> s[k] == typeName[k];
    assert BracketFreeEnd(s, 0) == t;
    var rest := s[t..];
    assert rest == "[" + clause + "]";
    assert rest[|rest| - 1] == ']';
    assert rest[1..|rest| - 1] == clause;
  }

  /** The same segment followed by one line break reads back the same way. */
  lemma {:induction false} MatchWrittenSegmentLine(typeName: string, clause: string)
    requires '[' !in typeName && ']' !in typeName && '\n' !in clause
    ensures MatchSegment(typeName + "[" + clause + "]\n") == Some((typeName, clause))
  {
    var s := typeName + "[" + clause + "]\n";
    var t := |typeName|;
    assert s[..t] == typeName;
    assert s[t] == '[';
    assert forall k :: 0 <= k < t ==> s[k] == typeName[k];
    assert BracketFreeEnd(s, 0) == t;
    var rest := s[t..];
    assert rest == "[" + clause + "]\n";
    var body := rest[..|rest| - 1];
    assert body == "[" + clause + "]";
    assert body[|body| - 1] == ']';
    assert body[1..|body| - 1] == clause;
  }

  /**
   * A segment `type[clause]` whose clause holds no operator: a name/value
   * clause is joined to the control-type condition and leaves no selection;
   * a positional or empty clause leaves the control-type condition alone and
   * is kept as the selection; an invalid clause fails before the type is
   * looked up.
   */
  lemma SingleClauseSegment(types: map<string, ControlType>, nodePath: string)
    requires MatchSegment(nodePath).Some?
    requires FindOperator(MatchSegment(nodePath).value.1).None?
    ensures var cl := Classify(MatchSegment(nodePath).value.1);
      var cc := BuildControlCondition(types, Lower(MatchSegment(nodePath).value.0));
      && (cl.InvalidClause? ==> ConvertFromPath(types, nodePath) == Err(InvalidProperty))
      && (cl.NameValueClause? && ConvertNameValueProperty(cl.name, cl.value).Err? ==>
            ConvertFromPath(types, nodePath) == Err(ConvertNameValueProperty(cl.name, cl.value).error))
      && (ConvertToCondition(cl).Ok? && cc.Err? ==> ConvertFromPath(types, nodePath) == Err(UnknownControlType))
      && (cc.Ok? && cl.NameValueClause? && ConvertNameValueProperty(cl.name, cl.value).Ok? ==>
            ConvertFromPath(types, nodePath) == Ok((And(cc.value, ConvertNameValueProperty(cl.name, cl.value).value), None)))
      && (cc.Ok? && !cl.NameValueClause? && !cl.InvalidClause? ==>
            ConvertFromPath(types, nodePath) == Ok((cc.value, Some(cl))))
  {
  }

  /** A segment whose clause is a chain: the chain's condition joined to the control-type condition, no selection. */
  lemma ChainSegment(types: map<string, ControlType>, nodePath: string)
    requires MatchSegment(nodePath).Some?
    requires FindOperator(MatchSegment(nodePath).value.1).Some?
    requires BuildPropertyCondition(MatchSegment(nodePath).value.1).Ok?
    requires BuildControlCondition(types, Lower(MatchSegment(nodePath).value.0)).Ok?
    ensures ConvertFromPath(types, nodePath) ==
      Ok((And(BuildControlCondition(types, Lower(MatchSegment(nodePath).value.0)).value,
              BuildPropertyCondition(MatchSegment(nodePath).value.1).value.0), None))
  {
  }

  // ---------------------------------------------------------------------
  // The element a step picks

  /** The first element `Filter` keeps is the first element of the sequence that satisfies the condition. */
  lemma {:induction false} FilterHead(ns: seq<Node>, c: Condition)
    ensures |Filter(ns, c)| > 0 <==> exists i :: 0 <= i < |ns| && Eval(c, ns[i].attributes)
    ensures |Filter(ns, c)| > 0 ==>
      exists i :: (0 <= i < |ns| && ns[i] == Filter(ns, c)[0] && Eval(c, ns[i].attributes) &&
        forall j :: 0 <= j < i ==> !Eval(c, ns[j].attributes))
    decreases |ns|
  {
    if |ns| > 0 {
      assert Filter(ns, c) == (if Eval(c, ns[0].attributes) then [ns[0]] + Filter(ns[1..], c) else Filter(ns[1..], c));
      if !Eval(c, ns[0].attributes) {
        FilterHead(ns[1..], c);
        if exists i :: 0 <= i < |ns| && Eval(c, ns[i].attributes) {
          var i :| 0 <= i < |ns| && Eval(c, ns[i].attributes);
          assert ns[1..][i - 1] == ns[i];
        }
        if |Filter(ns, c)| > 0 {
          var i :| 0 <= i < |ns[1..]| && ns[1..][i] == Filter(ns[1..], c)[0] && Eval(c, ns[1..][i].attributes) &&
            forall j :: 0 <= j < i ==> !Eval(c, ns[1..][j].attributes);
          assert ns[i + 1] == ns[1..][i];
          forall j | 0 <= j < i + 1
            ensures !Eval(c, ns[j].attributes)
          {
            if j > 0 {
              assert ns[j] == ns[1..][j - 1];
            }
          }
        } else {
          forall i | 0 <= i < |ns|
            ensures !Eval(c, ns[i].attributes)
          {
            if i > 0 {
              assert ns[i] == ns[1..][i - 1];
            }
          }
        }
      }
    }
  }

  /** No element after index `i` satisfies the condition. */
  predicate NoMatchAfter(ns: seq<Node>, c: Condition, i: nat) {
    forall j :: i < j < |ns| ==> !Eval(c, ns[j].attributes)
  }

  lemma NoMatchInEmptyFilter(ns: seq<Node>, c: Condition)
    requires |ns| > 0 && |Filter(ns[1..], c)| == 0
    ensures NoMatchAfter(ns, c, 0)
  {
    FilterKeepsMatches(ns[1..], c);
    forall j | 0 < j < |ns|
      ensures !Eval(c, ns[j].attributes)
    {
      assert ns[j] == ns[1..][j - 1];
      assert ns[1..][j - 1] in ns[1..];
    }
  }

  lemma NoMatchAfterTail(ns: seq<Node>, c: Condition, i: nat)
    requires |ns| > 0 && NoMatchAfter(ns[1..], c, i)
    ensures NoMatchAfter(ns, c, i + 1)
  {
    forall j | i + 1 < j < |ns|
      ensures !Eval(c, ns[j].attributes)
    {
      assert ns[j] == ns[1..][j - 1];
    }
  }

  /** The last element `Filter` keeps is the last element of the sequence that satisfies the condition. */
  lemma {:induction false} FilterLast(ns: seq<Node>, c: Condition)
    requires |Filter(ns, c)| > 0
    ensures exists i :: (0 <= i < |ns| && ns[i] == Filter(ns, c)[|Filter(ns, c)| - 1] && Eval(c, ns[i].attributes) &&
      NoMatchAfter(ns, c, i))
    decreases |ns|
  {
    var r := Filter(ns, c);
    var tail := Filter(ns[1..], c);
    assert r == (if Eval(c, ns[0].attributes) then [ns[0]] + tail else tail);
    if |tail| > 0 {
      FilterLast(ns[1..], c);
      var i :| 0 <= i < |ns[1..]| && ns[1..][i] == tail[|tail| - 1] && Eval(c, ns[1..][i].attributes) &&
        NoMatchAfter(ns[1..], c, i);
      assert r[|r| - 1] == tail[|tail| - 1];
      assert ns[i + 1] == ns[1..][i];
      NoMatchAfterTail(ns, c, i);
    } else {
      assert r == [ns[0]];
      NoMatchInEmptyFilter(ns, c);
    }
  }

  /**
   * Without a selection, a step from an element takes the first candidate
   * that satisfies the condition, and yields null when there is none.
   */
  lemma StepWithoutSelection(types: map<string, ControlType>, e: Node, scope: Scope, nodePath: string)
    requires ConvertFromPath(types, nodePath).Ok? && ConvertFromPath(types, nodePath).value.1.None?
    ensures var c := ConvertFromPath(types, nodePath).value.0;
      var ns := Candidates(e, scope);
      var r := FindNode(types, Some(e), scope, nodePath);
      && r.Ok?
      && (r.value.None? <==> forall i :: 0 <= i < |ns| ==> !Eval(c, ns[i].attributes))
      && (r.value.Some? ==>
            exists i :: (0 <= i < |ns| && ns[i] == r.value.value && Eval(c, ns[i].attributes) &&
              forall j :: 0 <= j < i ==> !Eval(c, ns[j].attributes)))
  {
    FilterHead(Candidates(e, scope), ConvertFromPath(types, nodePath).value.0);
  }

  /**
   * With a selection, a step never yields null and never reaches the
   * unsupported branch: it picks a candidate that satisfies the condition,
   * or fails with NoElements or IndexOutOfRange.
   */
  lemma StepWithSelection(types: map<string, ControlType>, e: Node, scope: Scope, nodePath: string)
    requires ConvertFromPath(types, nodePath).Ok? && ConvertFromPath(types, nodePath).value.1.Some?
    ensures var c := ConvertFromPath(types, nodePath).value.0;
      var r := FindNode(types, Some(e), scope, nodePath);
      && (r.Ok? ==> r.value.Some? && r.value.value in Candidates(e, scope) && Eval(c, r.value.value.attributes))
      && (r.Err? ==> r.error == NoElements || r.error == IndexOutOfRange)
  {
    var c := ConvertFromPath(types, nodePath).value.0;
    var r := FindNode(types, Some(e), scope, nodePath);
    if r.Ok? {
      FilterKeepsMatches(Candidates(e, scope), c);
      assert r.value.value in FindAll(e, scope, c);
    }
  }

  /** `first()` and the empty clause pick the first match, as `FindFirst` would, but fail where `FindFirst` yields null. */
  lemma StepFirst(types: map<string, ControlType>, e: Node, scope: Scope, nodePath: string)
    requires ConvertFromPath(types, nodePath).Ok?
    requires ConvertFromPath(types, nodePath).value.1 == Some(FirstClause) ||
             ConvertFromPath(types, nodePath).value.1 == Some(EmptyClause)
    ensures var c := ConvertFromPath(types, nodePath).value.0;
      FindNode(types, Some(e), scope, nodePath) ==
        if FindFirst(e, scope, c).None? then Err(NoElements) else Ok(FindFirst(e, scope, c))
  {
  }

  /** A step whose clause is an index picks that match, counting from one. */
  lemma IndexSelection(types: map<string, ControlType>, e: Node, scope: Scope, nodePath: string, c: Condition, n: int)
    requires ConvertFromPath(types, nodePath) == Ok((c, Some(IndexClause(n))))
    ensures var all := FindAll(e, scope, c);
      FindNode(types, Some(e), scope, nodePath) == if 1 <= n <= |all| then Ok(Some(all[n - 1])) else Err(IndexOutOfRange)
  {
  }

  /**
   * `[n]` picks the n-th match, counting from one: a candidate that satisfies
   * the condition with exactly n-1 matching candidates before it. It fails
   * when there are fewer matches.
   */
  lemma StepIndex(types: map<string, ControlType>, e: Node, scope: Scope, nodePath: string, c: Condition, n: int)
    requires ConvertFromPath(types, nodePath) == Ok((c, Some(IndexClause(n))))
    ensures var ns := Candidates(e, scope);
      var r := FindNode(types, Some(e), scope, nodePath);
      && (r.Ok? <==> 1 <= n <= |FindAll(e, scope, c)|)
      && (r.Ok? ==> r == Ok(Some(FindAll(e, scope, c)[n - 1])))
      && (r.Err? ==> r.error == IndexOutOfRange)
      && (r.Ok? ==> exists p :: (0 <= p < |ns| && ns[p] == r.value.value &&
            Eval(c, ns[p].attributes) && |Filter(ns[..p], c)| == n - 1))
  {
    IndexSelection(types, e, scope, nodePath, c, n);
    if 1 <= n <= |FindAll(e, scope, c)| {
      FilterNth(Candidates(e, scope), c, n - 1);
    }
  }

  /** A step whose clause is `last()` picks the last match. */
  lemma LastSelection(types: map<string, ControlType>, e: Node, scope: Scope, nodePath: string, c: Condition)
    requires ConvertFromPath(types, nodePath) == Ok((c, Some(LastClause)))
    ensures var all := FindAll(e, scope, c);
      FindNode(types, Some(e), scope, nodePath) == if |all| == 0 then Err(NoElements) else Ok(Some(all[|all| - 1]))
  {
  }

  /** `last()` picks the match after which no candidate satisfies the condition. */
  lemma StepLast(types: map<string, ControlType>, e: Node, scope: Scope, nodePath: string, c: Condition)
    requires ConvertFromPath(types, nodePath) == Ok((c, Some(LastClause)))
    ensures var ns := Candidates(e, scope);
      var r := FindNode(types, Some(e), scope, nodePath);
      && (r.Ok? <==> exists i :: 0 <= i < |ns| && Eval(c, ns[i].attributes))
      && (r.Ok? ==> exists i :: (0 <= i < |ns| && ns[i] == r.value.value && Eval(c, ns[i].attributes) && NoMatchAfter(ns, c, i)))
      && (r.Err? ==> r.error == NoElements)
  {
    LastSelection(types, e, scope, nodePath, c);
    LastPick(Candidates(e, scope), c, FindNode(types, Some(e), scope, nodePath));
  }

  /** Taking the last element `Filter` keeps, or NoElements when it keeps none, picks the last match. */
  lemma LastPick(ns: seq<Node>, c: Condition, r: Result<Option<Node>>)
    requires r == if |Filter(ns, c)| == 0 then Err(NoElements) else Ok(Some(Filter(ns, c)[|Filter(ns, c)| - 1]))
    ensures r.Ok? <==> exists i :: 0 <= i < |ns| && Eval(c, ns[i].attributes)
    ensures r.Ok? ==> exists i :: (0 <= i < |ns| && ns[i] == r.value.value && Eval(c, ns[i].attributes) && NoMatchAfter(ns, c, i))
    ensures r.Err? ==> r.error == NoElements
  {
    LastMatch(ns, c);
  }

  /** Some element satisfies the condition exactly when `Filter` keeps one, and the last it keeps is the last match. */
  lemma LastMatch(ns: seq<Node>, c: Condition)
    ensures |Filter(ns, c)| > 0 <==> exists i :: 0 <= i < |ns| && Eval(c, ns[i].attributes)
    ensures |Filter(ns, c)| > 0 ==>
      exists i :: (0 <= i < |ns| && ns[i] == Filter(ns, c)[|Filter(ns, c)| - 1] && Eval(c, ns[i].attributes) &&
        NoMatchAfter(ns, c, i))
  {
    FilterHead(ns, c);
    if |Filter(ns, c)| > 0 {
      FilterLast(ns, c);
    }
  }
}
