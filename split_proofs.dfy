/**
 * What the textual splitting of `FindElement` computes: as long as the path
 * holds no `#`, the three string operations give exactly the pieces of the
 * reference scanner `Pieces`; a literal `#|#` is read as a separator too.
 */
module SplitProofs {
  import opened Strings
  import opened PathFinder

  /** The marker `FindElement` substitutes for every `/`. */
  const Marker: string := "#|#"
  /** The marker as it appears after an escaped slash. */
  const EscapedMarker: string := "\\#|#"

  function Slashes(s: string): string {
    ReplaceAll(s, "/", Marker)
  }

  function Unescape(s: string): string {
    ReplaceAll(s, EscapedMarker, "/")
  }

  // ---------------------------------------------------------------------
  // One character at a time through each operation

  lemma SlashesCons(c: char, t: string)
    ensures Slashes([c] + t) == (if c == '/' then Marker else [c]) + Slashes(t)
  {
    var s := [c] + t;
    assert s[1..] == t;
    assert HasAt(s, 0, "/") <==> c == '/';
  }

  lemma SlashesEmpty()
    ensures Slashes([]) == []
  {
  }

  /** The first character that substitution leaves, when it is not a slash. */
  lemma SlashesHead(t: string)
    requires |t| > 0 && t[0] != '/'
    ensures |Slashes(t)| > 0 && Slashes(t)[0] == t[0]
  {
    SlashesCons(t[0], t[1..]);
    assert t == [t[0]] + t[1..];
  }

  lemma UnescapeCons(c: char, t: string)
    requires c != '\\'
    ensures Unescape([c] + t) == [c] + Unescape(t)
  {
    var s := [c] + t;
    assert s[1..] == t;
    assert s[0] != EscapedMarker[0];
  }

  lemma UnescapeEscaped(t: string)
    ensures Unescape(EscapedMarker + t) == "/" + Unescape(t)
  {
    var s := EscapedMarker + t;
    assert s[..4] == EscapedMarker;
    assert s[4..] == t;
  }

  /** A backslash that is not followed by the marker is kept. */
  lemma UnescapeBackslash(t: string)
    requires |t| == 0 || t[0] != '#'
    ensures Unescape("\\" + t) == "\\" + Unescape(t)
  {
    var s := "\\" + t;
    assert s[1..] == t;
    assert |s| < 4 || s[1] != EscapedMarker[1];
  }

  lemma UnescapeMarker(t: string)
    ensures Unescape(Marker + t) == Marker + Unescape(t)
  {
    calc {
      Unescape(Marker + t);
      { assert Marker + t == ['#'] + (['|'] + (['#'] + t)); }
      Unescape(['#'] + (['|'] + (['#'] + t)));
      { UnescapeCons('#', ['|'] + (['#'] + t)); UnescapeCons('|', ['#'] + t); UnescapeCons('#', t); }
      ['#'] + (['|'] + (['#'] + Unescape(t)));
      { assert ['#'] + (['|'] + (['#'] + Unescape(t))) == Marker + Unescape(t); }
      Marker + Unescape(t);
    }
  }

  lemma SplitCons(c: char, t: string, cur: string)
    requires c != '#'
    ensures SplitFrom([c] + t, Marker, cur) == SplitFrom(t, Marker, cur + [c])
  {
    var s := [c] + t;
    assert s[1..] == t;
    assert s[0] != Marker[0];
  }

  lemma SplitMarker(t: string, cur: string)
    ensures SplitFrom(Marker + t, Marker, cur) == [cur] + SplitFrom(t, Marker, [])
  {
    var s := Marker + t;
    assert s[..3] == Marker;
    assert s[3..] == t;
  }

  // ---------------------------------------------------------------------
  // The splitting agrees with the reference scanner

  /** Generalised over the piece gathered so far. */
  lemma {:induction false} SplitFromPieces(s: string, cur: string)
    requires '#' !in s
    ensures SplitFrom(Unescape(Slashes(s)), Marker, cur) == Pieces(s, cur)
    decreases |s|
  {
    if |s| == 0 {
      SlashesEmpty();
    } else {
      var c := s[0];
      var t := s[1..];
      assert s == [c] + t;
      SlashesCons(c, t);
      if c == '\\' && |s| >= 2 && s[1] == '/' {
        var u := s[2..];
        assert t == ['/'] + u;
        SlashesCons('/', u);
        assert Slashes(s) == EscapedMarker + Slashes(u);
        UnescapeEscaped(Slashes(u));
        SplitCons('/', Unescape(Slashes(u)), cur);
        assert "/" + Unescape(Slashes(u)) == ['/'] + Unescape(Slashes(u));
        SplitFromPieces(u, cur + "/");
      } else if c == '/' {
        assert Slashes(s) == Marker + Slashes(t);
        UnescapeMarker(Slashes(t));
        SplitMarker(Unescape(Slashes(t)), cur);
        SplitFromPieces(t, "");
      } else if c == '\\' {
        if |t| > 0 {
          assert t[0] != '#' by { assert t[0] == s[1]; }
          SlashesHead(t);
        } else {
          SlashesEmpty();
        }
        assert Slashes(s) == "\\" + Slashes(t);
        UnescapeBackslash(Slashes(t));
        SplitCons('\\', Unescape(Slashes(t)), cur);
        assert "\\" + Unescape(Slashes(t)) == ['\\'] + Unescape(Slashes(t));
        SplitFromPieces(t, cur + [c]);
      } else {
        assert Slashes(s) == [c] + Slashes(t);
        UnescapeCons(c, Slashes(t));
        SplitCons(c, Unescape(Slashes(t)), cur);
        SplitFromPieces(t, cur + [c]);
      }
    }
  }

  /**
   * For a path without `#`, the marker substitution and split of
   * `FindElement` yield the pieces of the reference scanner: every
   * unescaped `/` separates, and `\/` stands for a `/` inside a piece.
   */
  lemma SplitPathIsPieces(fullPath: string)
    requires '#' !in fullPath
    ensures SplitPath(fullPath) == Pieces(fullPath, "")
  {
    SplitFromPieces(fullPath, "");
  }

  lemma SlashesExample()
    ensures Slashes("/a#|#b") == Marker + "a#|#b"
  {
    SlashesCons('b', "");
    SlashesCons('#', "b");
    SlashesCons('|', "#b");
    SlashesCons('#', "|#b");
    SlashesCons('a', "#|#b");
    SlashesCons('/', "a#|#b");
  }

  lemma UnescapeExample()
    ensures Unescape(Marker + "a#|#b") == Marker + "a#|#b"
  {
    UnescapeCons('b', "");
    UnescapeCons('#', "b");
    UnescapeCons('|', "#b");
    UnescapeCons('#', "|#b");
    UnescapeCons('a', "#|#b");
    UnescapeMarker("a#|#b");
  }

  lemma SplitExample()
    ensures SplitFrom(Marker + "a#|#b", Marker, []) == ["", "a", "b"]
  {
    SplitCons('b', "", []);
    assert "b" == ['b'] + "";
    assert [] + ['b'] == "b";
    SplitMarker("b", "a");
    assert "#|#b" == Marker + "b";
    SplitCons('a', "#|#b", []);
    assert "a#|#b" == ['a'] + "#|#b";
    assert [] + ['a'] == "a";
    SplitMarker("a#|#b", []);
  }

  lemma PiecesPlain(c: char, t: string, cur: string)
    requires c != '/' && c != '\\'
    ensures Pieces([c] + t, cur) == Pieces(t, cur + [c])
  {
    assert ([c] + t)[1..] == t;
  }

  lemma PiecesEscaped(t: string, cur: string)
    ensures Pieces("\\/" + t, cur) == Pieces(t, cur + "/")
  {
    assert ("\\/" + t)[2..] == t;
  }

  lemma PiecesCut(t: string, cur: string)
    ensures Pieces("/" + t, cur) == [cur] + Pieces(t, "")
  {
    assert ("/" + t)[1..] == t;
  }

  lemma PiecesExample()
    ensures Pieces("/a#|#b", "") == ["", "a#|#b"]
  {
    PiecesPlain('b', "", "a#|#");
    assert "b" == ['b'] + "" && "a#|#" + ['b'] == "a#|#b";
    PiecesPlain('#', "b", "a#|");
    assert "#b" == ['#'] + "b" && "a#|" + ['#'] == "a#|#";
    PiecesPlain('|', "#b", "a#");
    assert "|#b" == ['|'] + "#b" && "a#" + ['|'] == "a#|";
    PiecesPlain('#', "|#b", "a");
    assert "#|#b" == ['#'] + "|#b" && "a" + ['#'] == "a#";
    PiecesPlain('a', "#|#b", "");
    assert "a#|#b" == ['a'] + "#|#b" && "" + ['a'] == "a";
    assert "/a#|#b"[1..] == "a#|#b";
  }

  /** A literal `#|#` inside a piece separates like a slash does. */
  lemma MarkerInPathSeparates()
    ensures SplitPath("/a#|#b") == ["", "a", "b"]
    ensures Pieces("/a#|#b", "") == ["", "a#|#b"]
  {
    SlashesExample();
    UnescapeExample();
    SplitExample();
    PiecesExample();
  }

  // ---------------------------------------------------------------------
  // Writing pieces back as a path

  /** A piece written into a path, each `/` escaped. */
  function Escape(piece: string): (r: string)
    ensures '\\' !in piece ==> '#' !in piece ==> '#' !in r
    decreases |piece|
  {
    if |piece| == 0 then []
    else (if piece[0] == '/' then "\\/" else [piece[0]]) + Escape(piece[1..])
  }

  /** The pieces written as a path, each preceded by `/`. */
  function Render(pieces: seq<string>): string
    decreases |pieces|
  {
    if |pieces| == 0 then [] else "/" + Escape(pieces[0]) + Render(pieces[1..])
  }

  lemma {:induction false} PiecesEscape(piece: string, rest: string, cur: string)
    requires '\\' !in piece
    requires |rest| == 0 || rest[0] == '/'
    ensures Pieces(Escape(piece) + rest, cur) == Pieces(rest, cur + piece)
    decreases |piece|
  {
    if |piece| == 0 {
      assert Escape(piece) + rest == rest;
      assert cur + piece == cur;
    } else {
      var tail := Escape(piece[1..]) + rest;
      var c := piece[0];
      assert '\\' !in piece[1..] by {
        forall k | 0 <= k < |piece[1..]| ensures piece[1..][k] != '\\' {
          assert piece[1..][k] == piece[k + 1];
        }
      }
      PiecesEscape(piece[1..], rest, cur + [c]);
      assert cur + [c] + piece[1..] == cur + piece;
      if c == '/' {
        assert Escape(piece) + rest == "\\/" + tail;
        PiecesEscaped(tail, cur);
      } else {
        assert Escape(piece) + rest == [c] + tail;
        assert c != '\\' by { assert piece[0] == c; }
        PiecesPlain(c, tail, cur);
      }
    }
  }

  /**
   * Writing pieces as a path and reading it back gives the pieces again,
   * after the empty one in front of the leading `/`.
   */
  lemma {:induction false} RenderPieces(pieces: seq<string>, cur: string)
    requires forall p | p in pieces :: '\\' !in p
    ensures Pieces(Render(pieces), cur) == [cur] + pieces
    decreases |pieces|
  {
    if |pieces| > 0 {
      var rest := Render(pieces[1..]);
      assert |rest| == 0 || rest[0] == '/';
      var s := "/" + Escape(pieces[0]) + rest;
      assert Render(pieces) == s;
      assert s[1..] == Escape(pieces[0]) + rest;
      PiecesEscape(pieces[0], rest, "");
      RenderPieces(pieces[1..], "" + pieces[0]);
      assert "" + pieces[0] == pieces[0];
      assert [pieces[0]] + pieces[1..] == pieces;
    }
  }

  /** The path written from pieces without `\` or `#` splits back into them. */
  lemma SplitPathRender(pieces: seq<string>)
    requires forall p | p in pieces :: '\\' !in p && '#' !in p
    ensures SplitPath(Render(pieces)) == [""] + pieces
  {
    RenderNoHash(pieces);
    SplitPathIsPieces(Render(pieces));
    RenderPieces(pieces, "");
  }

  lemma {:induction false} RenderNoHash(pieces: seq<string>)
    requires forall p | p in pieces :: '\\' !in p && '#' !in p
    ensures '#' !in Render(pieces)
    decreases |pieces|
  {
    if |pieces| > 0 {
      RenderNoHash(pieces[1..]);
      assert pieces[0] in pieces;
    }
  }

  lemma {:induction false} EscapeAppend(a: string, b: string)
    ensures Escape(a + b) == Escape(a) + Escape(b)
    decreases |a|
  {
    if |a| == 0 {
      assert a + b == b;
    } else {
      assert (a + b)[0] == a[0];
      assert (a + b)[1..] == a[1..] + b;
      EscapeAppend(a[1..], b);
    }
  }

  /** Escaping one more character of a piece appends that character's escape. */
  lemma EscapeSnoc(cur: string, c: char)
    ensures Escape(cur + [c]) == Escape(cur) + (if c == '/' then "\\/" else [c])
  {
    EscapeAppend(cur, [c]);
    assert [c][1..] == [];
  }

  /**
   * Rendering the pieces the scanner reads from `s`, with `cur` already
   * collected, gives back `s` behind a separator and the escaped `cur`.
   */
  lemma {:induction false} PiecesRender(s: string, cur: string)
    ensures Render(Pieces(s, cur)) == "/" + Escape(cur) + s
    decreases |s|
  {
    if |s| == 0 {
      assert [cur][1..] == [];
    } else if s[0] == '\\' && |s| >= 2 && s[1] == '/' {
      var t := s[2..];
      PiecesRender(t, cur + "/");
      PiecesRenderEscaped(t, cur);
      assert s == "\\/" + t;
    } else if s[0] == '/' {
      var t := s[1..];
      PiecesRender(t, "");
      PiecesRenderCut(t, cur);
      assert s == "/" + t;
    } else {
      PiecesRender(s[1..], cur + [s[0]]);
      PiecesRenderOrdinary(s, cur);
    }
  }

  /** The escaped-slash case of `PiecesRender`, given its claim for the rest. */
  lemma PiecesRenderEscaped(t: string, cur: string)
    requires Render(Pieces(t, cur + "/")) == "/" + Escape(cur + "/") + t
    ensures Render(Pieces("\\/" + t, cur)) == "/" + Escape(cur) + ("\\/" + t)
  {
    PiecesEscaped(t, cur);
    EscapeSnoc(cur, '/');
  }

  /** The separator case of `PiecesRender`, given its claim for the rest. */
  lemma PiecesRenderCut(t: string, cur: string)
    requires Render(Pieces(t, "")) == "/" + Escape("") + t
    ensures Render(Pieces("/" + t, cur)) == "/" + Escape(cur) + ("/" + t)
  {
    PiecesCut(t, cur);
    RenderCons(cur, Pieces(t, ""));
  }

  /** The ordinary-character case of `PiecesRender`, given its claim for the rest. */
  lemma PiecesRenderOrdinary(s: string, cur: string)
    requires |s| > 0 && s[0] != '/' && !(s[0] == '\\' && |s| >= 2 && s[1] == '/')
    requires Render(Pieces(s[1..], cur + [s[0]])) == "/" + Escape(cur + [s[0]]) + s[1..]
    ensures Render(Pieces(s, cur)) == "/" + Escape(cur) + s
  {
    EscapeSnoc(cur, s[0]);
    assert [s[0]] + s[1..] == s;
  }

  lemma RenderCons(piece: string, pieces: seq<string>)
    ensures Render([piece] + pieces) == "/" + Escape(piece) + Render(pieces)
  {
    assert ([piece] + pieces)[1..] == pieces;
  }

  /**
   * The other round trip: the pieces a rooted path splits into, rendered
   * again, are that path.
   */
  lemma RenderSplitPath(p: string)
    requires |p| > 0 && p[0] == '/' && '#' !in p
    ensures Render(SplitPath(p)[1..]) == p
  {
    SplitPathIsPieces(p);
    var q := Pieces(p[1..], "");
    assert Pieces(p, "") == [""] + q;
    assert ([""] + q)[1..] == q;
    PiecesRender(p[1..], "");
    assert p == "/" + p[1..];
  }
}
