/**
 * Steps apply strictly in order, each from the element the previous one
 * reached: evaluating a concatenated path is evaluating its first part and
 * then its second part from wherever the first part ended, and a trailing
 * `/` fails once everything before it succeeded.
 */
module WalkProofs {
  import opened Results
  import opened Automation
  import opened PathFinder
  import opened SplitProofs
  import opened PlanProofs

  /** The walk goes through the first steps, then through the rest; an error stops it. */
  lemma {:induction false} WalkAppend(types: map<string, ControlType>, current: Option<Node>, xs: seq<Step>, ys: seq<Step>)
    ensures var r := Walk(types, current, xs);
      Walk(types, current, xs + ys) == if r.Ok? then Walk(types, r.value, ys) else r
    decreases |xs|
  {
    if |xs| > 0 {
      assert (xs + ys)[0] == xs[0];
      assert (xs + ys)[1..] == xs[1..] + ys;
      var next := FindNode(types, current, xs[0].scope, xs[0].nodePath);
      if next.Ok? {
        WalkAppend(types, next.value, xs[1..], ys);
      }
    } else {
      assert xs + ys == ys;
    }
  }

  /** A path that starts with `/` and holds no `#` is read by the reference scanner. */
  lemma PathPlan(fullPath: string)
    requires |fullPath| > 0 && fullPath[0] == '/' && '#' !in fullPath
    ensures SplitPath(fullPath) == [""] + Pieces(fullPath[1..], "")
  {
    SplitPathIsPieces(fullPath);
  }

  /** The pieces after the leading `/` of a concatenation are those of each part, one after the other. */
  lemma AppendPieces(p1: string, p2: string)
    requires |p1| > 0 && p1[0] == '/' && p1[|p1| - 1] != '\\'
    requires |p2| > 0 && p2[0] == '/'
    ensures Pieces(p1 + p2, "") == Pieces(p1, "") + Pieces(p2[1..], "")
  {
    var ps := Pieces(p1, "");
    var rest := Pieces(p2[1..], "");
    PiecesAppend(p1, p2, "");
    assert p2[0] != '\\';
    assert Pieces(p2, Last(ps)) == [Last(ps)] + rest;
    calc {
      Front(ps) + ([Last(ps)] + rest);
      (Front(ps) + [Last(ps)]) + rest;
      { assert Front(ps) + [Last(ps)] == ps; }
      ps + rest;
    }
  }

  /** The pieces after the leading `/` of `p1 + p2` are those of `p1` and then those of `p2`, and `p1` leaves no dangling piece. */
  lemma AppendSplit(p1: string, p2: string)
    requires |p1| > 0 && p1[0] == '/' && p1[|p1| - 1] != '/' && p1[|p1| - 1] != '\\'
    requires |p2| > 0 && p2[0] == '/'
    requires '#' !in p1 && '#' !in p2
    ensures SplitPath(p1 + p2)[1..] == SplitPath(p1)[1..] + SplitPath(p2)[1..]
    ensures !PlanSteps(SplitPath(p1)[1..]).dangling
  {
    var p := p1 + p2;
    assert '#' !in p;
    PathPlan(p1);
    PathPlan(p2);
    SplitPathIsPieces(p);
    AppendPieces(p1, p2);
    LastPieceNonEmpty(p1, "");
    DanglingLastPiece(SplitPath(p1)[1..]);
  }

  /**
   * Evaluating `p1 + p2` is evaluating `p1` and then `p2` from the element
   * reached, as long as `p1` does not end with `/` or `\` and neither part
   * holds a `#`.
   */
  lemma EvaluateAppend(types: map<string, ControlType>, current: Option<Node>, p1: string, p2: string)
    requires |p1| > 0 && p1[0] == '/' && p1[|p1| - 1] != '/' && p1[|p1| - 1] != '\\'
    requires |p2| > 0 && p2[0] == '/'
    requires '#' !in p1 && '#' !in p2
    ensures var r := EvaluateFrom(types, current, p1);
      EvaluateFrom(types, current, p1 + p2) == if r.Ok? then EvaluateFrom(types, r.value, p2) else r
  {
    var xs := SplitPath(p1)[1..];
    var ys := SplitPath(p2)[1..];
    AppendSplit(p1, p2);
    PlanStepsAppend(xs, ys);
    WalkAppend(types, current, PlanSteps(xs).steps, PlanSteps(ys).steps);
  }

  /** A trailing `/` leaves an empty piece with nothing to pair with: it fails once the rest succeeded. */
  lemma TrailingSlashFails(types: map<string, ControlType>, current: Option<Node>, p: string)
    requires |p| > 0 && p[0] == '/' && p[|p| - 1] != '/' && p[|p| - 1] != '\\'
    requires '#' !in p
    ensures var r := EvaluateFrom(types, current, p);
      EvaluateFrom(types, current, p + "/") == if r.Ok? then Err(IndexOutOfRange) else r
  {
    var q := p + "/";
    assert '#' !in q;
    PathPlan(p);
    SplitPathIsPieces(q);
    AppendPieces(p, "/");
    assert Pieces("/"[1..], "") == [""];
    var xs := SplitPath(p)[1..];
    assert SplitPath(q)[1..] == xs + [""];
    LastPieceNonEmpty(p, "");
    DanglingLastPiece(xs);
    TrailingEmptyPieceDangles(xs);
  }

  /** A piece without `/` is written into a path as it is. */
  lemma {:induction false} EscapePlain(piece: string)
    requires '/' !in piece
    ensures Escape(piece) == piece
    decreases |piece|
  {
    if |piece| > 0 {
      assert '/' !in piece[1..] by {
        forall k | 0 <= k < |piece[1..]| ensures piece[1..][k] != '/' {
          assert piece[1..][k] == piece[k + 1];
        }
      }
      EscapePlain(piece[1..]);
      assert [piece[0]] + piece[1..] == piece;
    }
  }

  /** A plan of one step, not left dangling, is that step. */
  lemma SingleStepPlan(types: map<string, ControlType>, current: Option<Node>, step: Step)
    ensures RunPlan(types, current, Plan([step], false)) == FindNode(types, current, step.scope, step.nodePath)
  {
    var next := FindNode(types, current, step.scope, step.nodePath);
    if next.Ok? {
      assert [step][1..] == [];
      assert Walk(types, next.value, []) == Ok(next.value);
    }
  }

  /** The path `/segment`, written from its one piece. */
  lemma RenderOne(segment: string)
    requires '/' !in segment
    ensures Render([segment]) == "/" + segment
  {
    EscapePlain(segment);
    assert [segment][1..] == [];
  }

  /** The path `//segment`, written from an empty piece and the segment. */
  lemma RenderTwo(segment: string)
    requires '/' !in segment
    ensures Render(["", segment]) == "//" + segment
  {
    RenderOne(segment);
    assert ["", segment][1..] == [segment];
    assert Escape("") == "";
    assert "/" + "" + ("/" + segment) == "//" + segment;
  }

  /** `/segment` is one Children step. */
  lemma ChildStep(types: map<string, ControlType>, current: Option<Node>, segment: string)
    requires segment != "" && '/' !in segment && '\\' !in segment && '#' !in segment
    ensures EvaluateFrom(types, current, "/" + segment) == FindNode(types, current, Children, segment)
  {
    var p := "/" + segment;
    assert SplitPath(p)[1..] == [segment] by {
      RenderOne(segment);
      SplitPathRender([segment]);
    }
    assert PlanSteps([segment]) == Plan([Step(Children, segment)], false) by {
      assert [segment][1..] == [];
    }
    SingleStepPlan(types, current, Step(Children, segment));
  }

  /** `//segment` is one Descendants step. */
  lemma DescendantStep(types: map<string, ControlType>, current: Option<Node>, segment: string)
    requires segment != "" && '/' !in segment && '\\' !in segment && '#' !in segment
    ensures EvaluateFrom(types, current, "//" + segment) == FindNode(types, current, Descendants, segment)
  {
    var p := "//" + segment;
    assert SplitPath(p)[1..] == ["", segment] by {
      RenderTwo(segment);
      SplitPathRender(["", segment]);
    }
    assert PlanSteps(["", segment]) == Plan([Step(Descendants, segment)], false) by {
      assert ["", segment][2..] == [];
    }
    SingleStepPlan(types, current, Step(Descendants, segment));
  }
}
