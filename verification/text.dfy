/** Whitespace trimming of option and title text, as JavaScript's String.prototype.trim does it. */
module Text {

  /** The code points ECMAScript's `trim` removes: its WhiteSpace production
      (tab, vertical tab, form feed, space, no-break space, zero-width no-break
      space and the other Unicode "Zs" space separators) and its LineTerminator
      production (line feed, carriage return, line and paragraph separators). */
  predicate IsWhitespace(c: char) {
    || c == '\t' || c == '\n' || c == '\U{000B}' || c == '\U{000C}' || c == '\r'
    || c == ' ' || c == '\U{00A0}' || c == '\U{1680}'
    || ('\U{2000}' <= c <= '\U{200A}')
    || c == '\U{2028}' || c == '\U{2029}' || c == '\U{202F}' || c == '\U{205F}'
    || c == '\U{3000}' || c == '\U{FEFF}'
  }

  predicate AllWhitespace(s: string) {
    forall i :: 0 <= i < |s| ==> IsWhitespace(s[i])
  }

  /** `s.trim()`, one whitespace character at a time from either end: never
      longer than `s`, and neither end of the result is whitespace. */
  function Trim(s: string): (r: string)
    ensures |r| <= |s|
    ensures r == [] || (!IsWhitespace(r[0]) && !IsWhitespace(r[|r| - 1]))
  {
    if s == [] then s
    else if IsWhitespace(s[0]) then Trim(s[1..])
    else if IsWhitespace(s[|s| - 1]) then Trim(s[..|s| - 1])
    else s
  }

  /** The trimmed text is empty exactly when `s` is whitespace only: this is
      the test `!title.trim()`. */
  lemma {:induction false} TrimEmptyIff(s: string)
    ensures Trim(s) == [] <==> AllWhitespace(s)
  {
    if s == [] {
    } else if IsWhitespace(s[0]) {
      TrimEmptyIff(s[1..]);
      assert AllWhitespace(s) <==> AllWhitespace(s[1..]) by {
        assert forall i :: 0 < i < |s| ==> s[i] == s[1..][i - 1];
      }
    } else if IsWhitespace(s[|s| - 1]) {
      TrimEmptyIff(s[..|s| - 1]);
      assert AllWhitespace(s) <==> AllWhitespace(s[..|s| - 1]) by {
        assert forall i :: 0 <= i < |s| - 1 ==> s[i] == s[..|s| - 1][i];
      }
    }
  }

  lemma AllWhitespaceConcat(a: string, b: string)
    requires AllWhitespace(a) && AllWhitespace(b)
    ensures AllWhitespace(a + b)
  {
    forall i | 0 <= i < |a + b| ensures IsWhitespace((a + b)[i]) {
      if i >= |a| {
        assert (a + b)[i] == b[i - |a|];
      }
    }
  }

  /** `s` is `s[..i] + s[i..j] + s[j..]` with whitespace-only margins. */
  ghost predicate Margins(s: string, i: nat, j: nat) {
    i <= j <= |s| && AllWhitespace(s[..i]) && AllWhitespace(s[j..])
  }

  /** Margins of `s[1..]` widen to margins of `s` when `s[0]` is whitespace. */
  lemma MarginsFront(s: string, i: nat, j: nat)
    requires s != [] && IsWhitespace(s[0]) && Margins(s[1..], i, j)
    ensures Margins(s, i + 1, j + 1) && s[i + 1..j + 1] == s[1..][i..j]
  {
    var t := s[1..];
    assert s[..i + 1] == [s[0]] + t[..i];
    AllWhitespaceConcat([s[0]], t[..i]);
    assert s[j + 1..] == t[j..];
    assert s[i + 1..j + 1] == t[i..j];
  }

  /** Margins of `s[..|s| - 1]` widen to margins of `s` when the last
      character of `s` is whitespace. */
  lemma MarginsBack(s: string, i: nat, j: nat)
    requires s != [] && IsWhitespace(s[|s| - 1]) && Margins(s[..|s| - 1], i, j)
    ensures Margins(s, i, j) && s[i..j] == s[..|s| - 1][i..j]
  {
    var t := s[..|s| - 1];
    assert s[..i] == t[..i];
    assert s[i..j] == t[i..j];
    assert s[j..] == t[j..] + [s[|s| - 1]];
    AllWhitespaceConcat(t[j..], [s[|s| - 1]]);
  }

  /** The trimmed text is the middle of `s`, cut between two whitespace-only
      margins. */
  lemma {:induction false} TrimIsInfix(s: string) returns (i: nat, j: nat)
    ensures Margins(s, i, j) && Trim(s) == s[i..j]
  {
    if s == [] {
      i, j := 0, 0;
    } else if IsWhitespace(s[0]) {
      var i', j' := TrimIsInfix(s[1..]);
      MarginsFront(s, i', j');
      i, j := i' + 1, j' + 1;
    } else if IsWhitespace(s[|s| - 1]) {
      i, j := TrimIsInfix(s[..|s| - 1]);
      MarginsBack(s, i, j);
    } else {
      i, j := 0, |s|;
      assert s[i..j] == s;
    }
  }

  /** Text that neither starts nor ends with whitespace is left as it is. */
  lemma TrimUnchanged(s: string)
    requires s == [] || (!IsWhitespace(s[0]) && !IsWhitespace(s[|s| - 1]))
    ensures Trim(s) == s
  {
  }

  /** Trimming twice is the same as trimming once. */
  lemma TrimIdempotent(s: string)
    ensures Trim(Trim(s)) == Trim(s)
  {
    TrimUnchanged(Trim(s));
  }
}
