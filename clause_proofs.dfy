/**
 * How `UIProperty.Parse` classifies the clauses a path writer produces: a
 * name/value pair comes back whatever the spacing around `=`, the value
 * runs to the last quote, an index is a single digit, and `last()` wins
 * over `first()`.
 */
module ClauseProofs {
  import opened Results
  import opened Strings
  import opened Automation
  import opened UIProperties

  function Spaces(n: nat): (r: string)
    ensures |r| == n && forall k :: 0 <= k < n ==> r[k] == ' '
  {
    seq(n, _ => ' ')
  }

  /** `@name = 'value'`, with `before` spaces before the `=` and `after` spaces after it. */
  function NameValueText(name: string, before: nat, after: nat, value: string): string {
    "@" + name + Spaces(before) + "=" + Spaces(after) + "'" + value + "'"
  }

  predicate IsName(name: string) {
    |name| > 0 && forall k :: 0 <= k < |name| ==> IsWordChar(name[k])
  }

  predicate IsValue(value: string) {
    |value| > 0 && '\n' !in value
  }

  /** Text that holds no quote before its first line break. */
  predicate QuoteFreeLine(suffix: string) {
    forall k :: 0 <= k < LineEnd(suffix, 0) ==> suffix[k] != '\''
  }

  /**
   * The pattern at index 0, given where each of its parts ends: the value
   * closes at `e`, the last quote before the line break at `l`.
   */
  lemma MatchAtPositions(s: string, w: nat, a: nat, b: nat, e: nat, l: nat)
    requires 1 < w <= a < b && b + 2 <= e < l <= |s|
    requires s[0] == '@'
    requires forall k :: 1 <= k < w ==> IsWordChar(s[k])
    requires !IsWordChar(s[w])
    requires forall k :: w <= k < a ==> s[k] == ' '
    requires s[a] == '='
    requires forall k :: a < k < b ==> s[k] == ' '
    requires s[b] == '\''
    requires forall k :: b < k < l ==> s[k] != '\n'
    requires l == |s| || s[l] == '\n'
    requires s[e] == '\''
    requires forall k :: e < k < l ==> s[k] != '\''
    ensures MatchNameValueAt(s, 0) == Some((s[1..w], s[b + 1..e]))
  {
    WordRunEndAt(s, 1, w);
    SpaceRunEndAt(s, w, a);
    SpaceRunEndAt(s, a + 1, b);
    LineEndAt(s, b + 1, l);
    LastQuoteAt(s, b + 2, l, e);
  }

  lemma WordRunEndAt(s: string, i: nat, w: nat)
    requires i <= w < |s| && !IsWordChar(s[w])
    requires forall k :: i <= k < w ==> IsWordChar(s[k])
    ensures WordRunEnd(s, i) == w
  {
  }

  lemma SpaceRunEndAt(s: string, i: nat, a: nat)
    requires i <= a < |s| && s[a] != ' '
    requires forall k :: i <= k < a ==> s[k] == ' '
    ensures SpaceRunEnd(s, i) == a
  {
  }

  lemma LineEndAt(s: string, i: nat, l: nat)
    requires i <= l <= |s| && (l == |s| || s[l] == '\n')
    requires forall k :: i <= k < l ==> s[k] != '\n'
    ensures LineEnd(s, i) == l
  {
  }

  lemma LastQuoteAt(s: string, lo: nat, hi: nat, e: nat)
    requires lo <= e < hi <= |s| && s[e] == '\''
    requires forall k :: e < k < hi ==> s[k] != '\''
    ensures LastQuote(s, lo, hi) == Some(e)
  {
  }

  /**
   * The pattern applied at the `@` of a written pair reads the pair back,
   * whatever follows the closing quote, as long as no further quote follows
   * it on the same line.
   */
  lemma MatchWrittenPair(name: string, before: nat, after: nat, value: string, suffix: string)
    requires IsName(name) && IsValue(value) && QuoteFreeLine(suffix)
    ensures MatchNameValueAt(NameValueText(name, before, after, value) + suffix, 0) == Some((name, value))
  {
    var s := NameValueText(name, before, after, value) + suffix;
    var w := 1 + |name|;
    var a := w + before;
    var b := a + 1 + after;
    var e := b + 1 + |value|;
    var l := e + 1 + LineEnd(suffix, 0);
    assert |s| == e + 1 + |suffix|;
    assert s[1..w] == name;
    assert s[w..a] == Spaces(before);
    assert s[a] == '=';
    assert s[a + 1..b] == Spaces(after);
    assert s[b] == '\'';
    assert s[b + 1..e] == value;
    assert s[e] == '\'';
    assert s[e + 1..] == suffix;
    forall k | 1 <= k < w ensures IsWordChar(s[k]) {
      assert s[k] == s[1..w][k - 1];
    }
    assert !IsWordChar(s[w]) by {
      if before > 0 {
        assert s[w] == s[w..a][0];
      }
    }
    forall k | w <= k < a ensures s[k] == ' ' {
      assert s[k] == s[w..a][k - w];
    }
    forall k | a < k < b ensures s[k] == ' ' {
      assert s[k] == s[a + 1..b][k - a - 1];
    }
    forall k | b < k < l ensures s[k] != '\n' {
      if k < e {
        assert s[k] == s[b + 1..e][k - b - 1];
      } else if k > e {
        assert s[k] == suffix[k - e - 1];
      }
    }
    assert l == |s| || s[l] == '\n' by {
      if l < |s| {
        assert s[l] == suffix[l - e - 1];
      }
    }
    forall k | e < k < l ensures s[k] != '\'' {
      assert s[k] == suffix[k - e - 1];
    }
    MatchAtPositions(s, w, a, b, e, l);
  }

  /**
   * A written pair is classified as that pair, whatever the spacing around
   * `=` and whatever follows on a later line or without a quote on the same
   * one, and even when the value itself holds quotes: the value runs
   * greedily to the last quote.
   */
  lemma ClassifyWrittenPair(name: string, before: nat, after: nat, value: string, suffix: string)
    requires IsName(name) && IsValue(value) && QuoteFreeLine(suffix)
    ensures Classify(NameValueText(name, before, after, value) + suffix) == NameValueClause(name, value)
  {
    MatchWrittenPair(name, before, after, value, suffix);
  }

  /** `[@name = 'OK' ]`: a space after the closing quote does not matter. */
  lemma SpaceAfterPair()
    ensures Classify("@name = 'OK' ") == NameValueClause("name", "OK")
  {
    assert NameValueText("name", 1, 1, "OK") + " " == "@name = 'OK' ";
    assert IsName("name") by {
      assert forall k :: 0 <= k < 4 ==> IsWordChar("name"[k]);
    }
    assert LineEnd(" ", 0) == 1;
    ClassifyWrittenPair("name", 1, 1, "OK", " ");
  }

  /** A quote inside the value does not end it. */
  lemma QuoteInsideValue()
    ensures Classify("@name='it's'") == NameValueClause("name", "it's")
  {
    assert NameValueText("name", 0, 0, "it's") + "" == "@name='it's'";
    assert IsName("name") by {
      assert forall k :: 0 <= k < 4 ==> IsWordChar("name"[k]);
    }
    ClassifyWrittenPair("name", 0, 0, "it's", "");
  }

  /** Without an `@` there is no name/value pair. */
  lemma {:induction false} NoAtNoPairFrom(s: string, i: nat)
    requires i <= |s|
    requires forall k :: i <= k < |s| ==> s[k] != '@'
    ensures MatchNameValueFrom(s, i).None?
    decreases |s| - i
  {
    if i < |s| {
      NoAtNoPairFrom(s, i + 1);
    }
  }

  lemma NoAtNoPair(s: string)
    requires '@' !in s
    ensures MatchNameValue(s).None?
  {
    NoAtNoPairFrom(s, 0);
  }

  /**
   * When no name/value pair matches, the first digit anywhere in the clause
   * is its index, and only that one digit is read.
   */
  lemma IndexIsFirstDigit(text: string, k: nat)
    requires MatchNameValue(text).None?
    requires k < |text| && IsDigit(text[k]) && forall j :: 0 <= j < k ==> !IsDigit(text[j])
    ensures Classify(text) == IndexClause(text[k] as int - '0' as int)
  {
    var d := FirstDigitFrom(text, 0);
    assert d == Some(k);
  }

  /** `[12]` selects the first element, not the twelfth. */
  lemma TwelveReadsAsOne()
    ensures Classify("12") == IndexClause(1)
  {
    NoAtNoPair("12");
    IndexIsFirstDigit("12", 0);
  }

  /** When no pair matches and there is no digit, a clause with `last()` is Last, whether or not it also holds `first()`. */
  lemma LastOverridesFirst(text: string)
    requires MatchNameValue(text).None?
    requires forall j :: 0 <= j < |text| ==> !IsDigit(text[j])
    requires Contains(text, "last()")
    ensures Classify(text) == LastClause
  {
    assert FirstDigitFrom(text, 0).None?;
  }

  /** When no pair matches and there is no digit or `last()`, a clause with `first()` is First. */
  lemma FirstWithoutLast(text: string)
    requires MatchNameValue(text).None?
    requires forall j :: 0 <= j < |text| ==> !IsDigit(text[j])
    requires !Contains(text, "last()") && Contains(text, "first()")
    ensures Classify(text) == FirstClause
  {
    assert FirstDigitFrom(text, 0).None?;
  }

  /** Text that is no pair, holds no digit and names neither function is Invalid and fails conversion. */
  lemma InvalidFailsConversion(text: string)
    requires |text| > 0 && MatchNameValue(text).None?
    requires forall j :: 0 <= j < |text| ==> !IsDigit(text[j])
    requires !Contains(text, "last()") && !Contains(text, "first()")
    ensures Classify(text) == InvalidClause
    ensures ConvertToCondition(Classify(text)) == Err(InvalidProperty)
  {
    assert FirstDigitFrom(text, 0).None?;
  }

  /** `@id=` followed by something other than a quote matches no pair. */
  lemma UnquotedPairFails(v: string)
    requires |v| > 0 && v[0] != '\'' && v[0] != ' ' && '@' !in v
    ensures MatchNameValue("@id=" + v).None?
  {
    var t := "@id=" + v;
    assert t[1] == 'i' && t[2] == 'd' && t[3] == '=' && t[4] == v[0];
    assert WordRunEnd(t, 3) == 3;
    assert WordRunEnd(t, 1) == 3;
    assert SpaceRunEnd(t, 3) == 3 && SpaceRunEnd(t, 4) == 4;
    assert MatchNameValueAt(t, 0).None?;
    NoAtNoPairFrom(t, 1);
  }

  /** `[@id=txt2]`, a pair without quotes, falls through to its digit: index 2. */
  lemma UnquotedPairWithDigit()
    ensures Classify("@id=txt2") == IndexClause(2)
  {
    assert "@id=txt2" == "@id=" + "txt2";
    UnquotedPairFails("txt2");
    IndexIsFirstDigit("@id=txt2", 7);
  }

  /** `@id=` followed by text without a quote, `@`, digit or `(` at its start or inside it is Invalid. */
  lemma UnquotedPairNoDigit(v: string)
    requires |v| > 0 && v[0] != '\'' && v[0] != ' ' && '@' !in v && '(' !in v
    requires forall j :: 0 <= j < |v| ==> !IsDigit(v[j])
    ensures Classify("@id=" + v) == InvalidClause
  {
    var t := "@id=" + v;
    UnquotedPairFails(v);
    forall j | 0 <= j < |t| ensures !IsDigit(t[j]) && t[j] != '(' {
      if j >= 4 {
        assert t[j] == v[j - 4];
      }
    }
    NoParenNoFunction(t, "last()");
    NoParenNoFunction(t, "first()");
    InvalidFailsConversion(t);
  }

  /** `[@id=abc]`, a pair without quotes and without a digit, is Invalid. */
  lemma UnquotedPairInvalid()
    ensures Classify("@id=abc") == InvalidClause
  {
    var v := "abc";
    assert forall j :: 0 <= j < |v| ==> !IsDigit(v[j]) && v[j] != '(' && v[j] != '@';
    UnquotedPairNoDigit(v);
    assert "@id=" + v == "@id=abc";
  }

  /** Text without `(` names neither positional function. */
  lemma NoParenNoFunction(t: string, f: string)
    requires '(' !in t && |f| >= 2 && f[|f| - 2] == '('
    ensures !Contains(t, f)
  {
  }

  /** `first() last()` reaches the positional checks, names both functions, and is a Last clause. */
  lemma BothFunctionsText(text: string)
    requires text == "first() last()"
    ensures ReachesPositional(text) && Contains(text, "first()") && Contains(text, "last()")
    ensures Classify(text) == LastClause
  {
    assert text == ['f', 'i', 'r', 's', 't', '(', ')', ' ', 'l', 'a', 's', 't', '(', ')'];
    assert '@' !in text;
    assert HasAt(text, 0, "first()") by { assert text[0..7] == "first()"; }
    assert HasAt(text, 8, "last()") by { assert text[8..14] == "last()"; }
    forall j | 0 <= j < |text|
      ensures !IsDigit(text[j])
    {
    }
    NoAtNoPair(text);
    LastOverridesFirst(text);
    NoAtNoPair(text);
  }

  /**
   * The object's fields after construction: a clause with both functions
   * is of type Last, yet both selection flags are raised.
   */
  method BothFunctions() returns (p: UIProperty)
    ensures p.Type == Types.Last && p.SelectFirst && p.SelectLast
  {
    var text := "first() last()";
    p := new UIProperty(text);
    BothFunctionsText(text);
  }
}
