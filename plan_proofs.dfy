/**
 * How `FindElement` groups the pieces of a path into steps, and how the
 * pieces of a concatenated path relate to the pieces of its parts.
 */
module PlanProofs {
  import opened Automation
  import opened PathFinder

  /** Every piece is used exactly once: reading the steps back gives the pieces. */
  lemma {:induction false} UnplanPlanSteps(pieces: seq<string>)
    ensures Unplan(PlanSteps(pieces)) == pieces
    decreases |pieces|
  {
    if |pieces| == 0 {
    } else if pieces[0] == "" {
      if |pieces| > 1 {
        var rest := PlanSteps(pieces[2..]);
        var p := PlanSteps(pieces);
        assert p.steps[1..] == rest.steps;
        UnplanPlanSteps(pieces[2..]);
        assert ["", pieces[1]] + pieces[2..] == pieces;
      }
    } else {
      var rest := PlanSteps(pieces[1..]);
      var p := PlanSteps(pieces);
      assert p.steps[1..] == rest.steps;
      UnplanPlanSteps(pieces[1..]);
      assert [pieces[0]] + pieces[1..] == pieces;
    }
  }

  /** A Children step never names an empty piece: an empty piece always starts a Descendants step. */
  predicate WellFormed(p: Plan) {
    forall i | 0 <= i < |p.steps| :: p.steps[i].scope == Children ==> p.steps[i].nodePath != ""
  }

  /** Grouping reads back exactly the plans whose Children steps are non-empty. */
  lemma {:induction false} PlanStepsUnplan(p: Plan)
    requires WellFormed(p)
    ensures PlanSteps(Unplan(p)) == p
    decreases |p.steps|
  {
    if |p.steps| > 0 {
      var s := p.steps[0];
      var tail := Plan(p.steps[1..], p.dangling);
      assert WellFormed(tail) by {
        forall i | 0 <= i < |tail.steps| ensures tail.steps[i].scope == Children ==> tail.steps[i].nodePath != "" {
          assert tail.steps[i] == p.steps[i + 1];
        }
      }
      PlanStepsUnplan(tail);
      var rest := Unplan(tail);
      if s.scope == Descendants {
        var ps := ["", s.nodePath] + rest;
        assert ps[2..] == rest;
      } else {
        assert s.nodePath != "" by { assert p.steps[0] == s; }
        var ps := [s.nodePath] + rest;
        assert ps[1..] == rest;
      }
      assert [s] + tail.steps == p.steps;
    }
  }

  lemma {:induction false} PlanStepsWellFormed(pieces: seq<string>)
    ensures WellFormed(PlanSteps(pieces))
    decreases |pieces|
  {
    if |pieces| > 0 {
      if pieces[0] == "" {
        if |pieces| > 1 {
          PlanStepsWellFormed(pieces[2..]);
        }
      } else {
        PlanStepsWellFormed(pieces[1..]);
      }
    }
  }

  /** Only an empty piece with nothing after it to pair with leaves the plan dangling. */
  lemma {:induction false} DanglingLastPiece(pieces: seq<string>)
    ensures PlanSteps(pieces).dangling ==> |pieces| > 0 && pieces[|pieces| - 1] == ""
    decreases |pieces|
  {
    if |pieces| > 0 {
      if pieces[0] == "" {
        if |pieces| > 1 {
          DanglingLastPiece(pieces[2..]);
        }
      } else {
        DanglingLastPiece(pieces[1..]);
      }
    }
  }

  /** After a plan that is not dangling, grouping starts afresh on the pieces that follow. */
  lemma {:induction false} PlanStepsAppend(xs: seq<string>, ys: seq<string>)
    requires !PlanSteps(xs).dangling
    ensures PlanSteps(xs + ys) == Plan(PlanSteps(xs).steps + PlanSteps(ys).steps, PlanSteps(ys).dangling)
    decreases |xs|
  {
    if |xs| == 0 {
      assert xs + ys == ys;
    } else if xs[0] == "" {
      assert |xs| > 1;
      assert (xs + ys)[2..] == xs[2..] + ys;
      PlanStepsAppend(xs[2..], ys);
    } else {
      assert (xs + ys)[1..] == xs[1..] + ys;
      PlanStepsAppend(xs[1..], ys);
    }
  }

  /** A path ending in a lone empty piece (a trailing `/`) always leaves the plan dangling. */
  lemma TrailingEmptyPieceDangles(xs: seq<string>)
    requires !PlanSteps(xs).dangling
    ensures PlanSteps(xs + [""]).dangling
    ensures PlanSteps(xs + [""]).steps == PlanSteps(xs).steps
  {
    PlanStepsAppend(xs, [""]);
    assert PlanSteps([""]) == Plan([], true);
  }

  // ---------------------------------------------------------------------
  // Pieces of a concatenated path

  function Last(ps: seq<string>): string
    requires |ps| > 0
  {
    ps[|ps| - 1]
  }

  function Front(ps: seq<string>): seq<string>
    requires |ps| > 0
  {
    ps[..|ps| - 1]
  }

  /** Reading `s + t` is reading `s`, then reading `t` onwards from the piece `s` left open. */
  lemma {:induction false} PiecesAppend(s: string, t: string, cur: string)
    requires |s| == 0 || s[|s| - 1] != '\\'
    ensures Pieces(s + t, cur) == Front(Pieces(s, cur)) + Pieces(t, Last(Pieces(s, cur)))
    decreases |s|
  {
    if |s| == 0 {
      assert s + t == t;
    } else {
      var st := s + t;
      if s[0] == '\\' && |s| >= 2 && s[1] == '/' {
        assert st[0] == '\\' && st[1] == '/';
        assert st[2..] == s[2..] + t;
        assert Pieces(st, cur) == Pieces(s[2..] + t, cur + "/");
        assert Pieces(s, cur) == Pieces(s[2..], cur + "/");
        PiecesAppend(s[2..], t, cur + "/");
      } else if s[0] == '/' {
        assert st[0] == '/';
        assert st[1..] == s[1..] + t;
        assert Pieces(st, cur) == [cur] + Pieces(s[1..] + t, "");
        PiecesAppend(s[1..], t, "");
        var ps := Pieces(s[1..], "");
        assert Pieces(s, cur) == [cur] + ps;
        assert Front([cur] + ps) == [cur] + Front(ps);
      } else {
        assert s[0] == '\\' ==> |s| >= 2;
        assert st[0] == s[0] && (|s| >= 2 ==> st[1] == s[1]);
        assert st[1..] == s[1..] + t;
        assert Pieces(st, cur) == Pieces(s[1..] + t, cur + [s[0]]);
        assert Pieces(s, cur) == Pieces(s[1..], cur + [s[0]]);
        PiecesAppend(s[1..], t, cur + [s[0]]);
      }
    }
  }

  /** A text that does not end with `/` leaves a non-empty last piece. */
  lemma {:induction false} LastPieceNonEmpty(s: string, cur: string)
    requires |s| > 0 || |cur| > 0
    requires |s| == 0 || s[|s| - 1] != '/'
    ensures Last(Pieces(s, cur)) != ""
    decreases |s|
  {
    if |s| == 0 {
    } else if s[0] == '\\' && |s| >= 2 && s[1] == '/' {
      LastPieceNonEmpty(s[2..], cur + "/");
    } else if s[0] == '/' {
      LastPieceNonEmpty(s[1..], "");
    } else {
      LastPieceNonEmpty(s[1..], cur + [s[0]]);
    }
  }
}
