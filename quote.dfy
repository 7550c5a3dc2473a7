/**
 * Normalisation of the text under a drawn highlight: every line break
 * (`\r\n`, `\n` or `\r`, matched left to right with `\r\n` first) becomes
 * one space, and then the string is trimmed as ECMAScript's
 * `String.prototype.trim` does.
 */
module Quote {

  predicate IsLineBreak(c: char)
  {
    c == '\r' || c == '\n'
  }

  /** The WhiteSpace and LineTerminator code points that `trim` removes. */
  predicate IsTrimmable(c: char)
  {
    || c == ' ' || c == '\t' || c == '\n' || c == '\r' || c == '\U{000B}' || c == '\U{000C}'
    || c == '\U{00A0}' || c == '\U{1680}' || ('\U{2000}' <= c <= '\U{200A}')
    || c == '\U{2028}' || c == '\U{2029}' || c == '\U{202F}' || c == '\U{205F}'
    || c == '\U{3000}' || c == '\U{FEFF}'
  }

  predicate NoLineBreaks(s: string)
  {
    forall i :: 0 <= i < |s| ==> !IsLineBreak(s[i])
  }

  /** `s.replace(/(\r\n|\n|\r)/gm, ' ')` */
  function ReplaceLineBreaks(s: string): string
  {
    if s == [] then []
    else if |s| >= 2 && s[0] == '\r' && s[1] == '\n' then " " + ReplaceLineBreaks(s[2..])
    else if IsLineBreak(s[0]) then " " + ReplaceLineBreaks(s[1..])
    else [s[0]] + ReplaceLineBreaks(s[1..])
  }

  /** The replaced text has no line break left and is no longer than the original. */
  lemma {:induction false} ReplaceLineBreaksSpec(s: string)
    ensures NoLineBreaks(ReplaceLineBreaks(s))
    ensures |ReplaceLineBreaks(s)| <= |s|
  {
    if s != [] {
      var n := if |s| >= 2 && s[0] == '\r' && s[1] == '\n' then 2 else 1;
      ReplaceLineBreaksSpec(s[n..]);
      var r := ReplaceLineBreaks(s);
      assert r == r[..1] + ReplaceLineBreaks(s[n..]);
      assert !IsLineBreak(r[0]);
    }
  }

  /** Text without line breaks is left exactly as it is. */
  lemma {:induction false} ReplaceLineBreaksIdentity(s: string)
    requires NoLineBreaks(s)
    ensures ReplaceLineBreaks(s) == s
  {
    if s != [] {
      ReplaceLineBreaksIdentity(s[1..]);
    }
  }

  /** Each of the three line-break forms becomes exactly one space. */
  lemma LineBreakBecomesOneSpace()
    ensures ReplaceLineBreaks("\r\n") == " "
    ensures ReplaceLineBreaks("\n") == " "
    ensures ReplaceLineBreaks("\r") == " "
  {
  }

  /** Length of the line-break token or ordinary character that starts `s`. */
  function HeadLength(s: string): (n: nat)
    requires s != []
    ensures 1 <= n <= |s|
  {
    if |s| >= 2 && s[0] == '\r' && s[1] == '\n' then 2 else 1
  }

  /** What the first token of `s` is replaced by. */
  function HeadReplacement(s: string): string
    requires s != []
  {
    if IsLineBreak(s[0]) then " " else [s[0]]
  }

  lemma ReplaceLineBreaksUnfold(s: string)
    requires s != []
    ensures ReplaceLineBreaks(s) == HeadReplacement(s) + ReplaceLineBreaks(s[HeadLength(s)..])
  {
  }

  /** The first token of `x + y` is that of `x`, unless `x` ends in a `\r` that `y` completes. */
  lemma HeadOfConcat(x: string, y: string)
    requires x != []
    requires x[|x| - 1] == '\r' ==> y == [] || y[0] != '\n'
    ensures HeadLength(x + y) == HeadLength(x) && HeadReplacement(x + y) == HeadReplacement(x)
    ensures (x + y)[HeadLength(x)..] == x[HeadLength(x)..] + y
  {
    var z := x + y;
    assert z[0] == x[0];
    if |x| >= 2 {
      assert z[1] == x[1];
    } else if y != [] {
      assert z[1] == y[0];
    }
  }

  /**
   * The replacement works piece by piece: text can be split anywhere except
   * between the two characters of a `\r\n`, and each piece is replaced on
   * its own.
   */
  lemma {:induction false} ReplaceLineBreaksConcat(x: string, y: string)
    requires x != [] && x[|x| - 1] == '\r' ==> y == [] || y[0] != '\n'
    ensures ReplaceLineBreaks(x + y) == ReplaceLineBreaks(x) + ReplaceLineBreaks(y)
    decreases |x|
  {
    if x == [] {
      assert x + y == y;
    } else {
      var n := HeadLength(x);
      var rest := x[n..];
      var h := HeadReplacement(x);
      assert rest != [] ==> rest[|rest| - 1] == x[|x| - 1];
      calc {
        ReplaceLineBreaks(x + y);
        { ReplaceLineBreaksUnfold(x + y); HeadOfConcat(x, y); }
        h + ReplaceLineBreaks(rest + y);
        { ReplaceLineBreaksConcat(rest, y); }
        h + (ReplaceLineBreaks(rest) + ReplaceLineBreaks(y));
        (h + ReplaceLineBreaks(rest)) + ReplaceLineBreaks(y);
        { ReplaceLineBreaksUnfold(x); }
        ReplaceLineBreaks(x) + ReplaceLineBreaks(y);
      }
    }
  }

  /** The number of whitespace characters `s` starts with. */
  function LeadingWhitespace(s: string): (n: nat)
    ensures n <= |s|
    ensures forall i :: 0 <= i < n ==> IsTrimmable(s[i])
    ensures n < |s| ==> !IsTrimmable(s[n])
  {
    if s != [] && IsTrimmable(s[0]) then 1 + LeadingWhitespace(s[1..]) else 0
  }

  /** The number of whitespace characters `s` ends with. */
  function TrailingWhitespace(s: string): (n: nat)
    ensures n <= |s|
    ensures forall i :: |s| - n <= i < |s| ==> IsTrimmable(s[i])
    ensures n < |s| ==> !IsTrimmable(s[|s| - n - 1])
  {
    if s != [] && IsTrimmable(s[|s| - 1]) then 1 + TrailingWhitespace(s[..|s| - 1]) else 0
  }

  /**
   * `trim`: the slice of `s` between its leading and its trailing
   * whitespace, which neither starts nor ends with whitespace.
   */
  function Trim(s: string): (r: string)
    ensures r != [] ==> !IsTrimmable(r[0]) && !IsTrimmable(r[|r| - 1])
  {
    var k := LeadingWhitespace(s);
    var t := s[k..];
    var m := |t| - TrailingWhitespace(t);
    assert m > 0 ==> t[0] == s[k] && !IsTrimmable(t[m - 1]);
    t[..m]
  }

  /** The trimmed string is the slice of `s` that starts right after the leading whitespace. */
  lemma TrimIsSlice(s: string)
    ensures LeadingWhitespace(s) + |Trim(s)| <= |s|
    ensures Trim(s) == s[LeadingWhitespace(s)..LeadingWhitespace(s) + |Trim(s)|]
  {
    var k := LeadingWhitespace(s);
    var t := s[k..];
    var m := |t| - TrailingWhitespace(t);
    assert Trim(s) == t[..m];
    assert t[..m] == s[k..k + m];
  }

  /** Everything after the trimmed slice is whitespace. */
  lemma TrimCutsTrailing(s: string)
    ensures forall i :: LeadingWhitespace(s) + |Trim(s)| <= i < |s| ==> IsTrimmable(s[i])
  {
    var k := LeadingWhitespace(s);
    var t := s[k..];
    var m := |t| - TrailingWhitespace(t);
    assert |Trim(s)| == m;
    forall i | k + m <= i < |s| ensures IsTrimmable(s[i]) {
      assert s[i] == t[i - k];
    }
  }

  /** Trimming text without line breaks leaves it without line breaks, and never lengthens it. */
  lemma TrimKeepsNoLineBreaks(s: string)
    requires NoLineBreaks(s)
    ensures NoLineBreaks(Trim(s)) && |Trim(s)| <= |s|
  {
    TrimIsSlice(s);
    NoLineBreaksSlice(s, LeadingWhitespace(s), LeadingWhitespace(s) + |Trim(s)|);
  }

  /** A slice of text without line breaks has none either. */
  lemma NoLineBreaksSlice(s: string, a: nat, b: nat)
    requires NoLineBreaks(s) && a <= b <= |s|
    ensures NoLineBreaks(s[a..b])
  {
    assert forall i :: 0 <= i < b - a ==> s[a..b][i] == s[a + i];
  }

  /** The quote stored with a highlight: line breaks to spaces, then trimmed. */
  function NormalizeQuote(text: string): (q: string)
    ensures NoLineBreaks(q)
    ensures q != [] ==> !IsTrimmable(q[0]) && !IsTrimmable(q[|q| - 1])
    ensures |q| <= |text|
  {
    var replaced := ReplaceLineBreaks(text);
    ReplaceLineBreaksSpec(text);
    TrimKeepsNoLineBreaks(replaced);
    Trim(replaced)
  }

  /** Text that is already a clean single-line, trimmed string is its own quote. */
  lemma NormalizeQuoteIdentity(text: string)
    requires NoLineBreaks(text)
    requires text != [] ==> !IsTrimmable(text[0]) && !IsTrimmable(text[|text| - 1])
    ensures NormalizeQuote(text) == text
  {
    ReplaceLineBreaksIdentity(text);
  }
}
