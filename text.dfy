/** String helpers the schemas rely on: JavaScript's notion of white space,
    `String.prototype.trim` (used by the mongoose `trim: true` option) and
    `Number(text)` (used by zod's `coerce.number()`). */
module Text {

  /** JavaScript's WhiteSpace and LineTerminator code points. */
  predicate IsSpace(c: char)
  {
    || c == '\t' || c == '\n' || c == '\r' || c == ' '
    || c == '\U{000B}' || c == '\U{000C}' || c == '\U{00A0}' || c == '\U{1680}'
    || ('\U{2000}' <= c <= '\U{200A}')
    || c == '\U{2028}' || c == '\U{2029}' || c == '\U{202F}' || c == '\U{205F}'
    || c == '\U{3000}' || c == '\U{FEFF}'
  }

  predicate AllSpaces(s: string)
  {
    forall i :: 0 <= i < |s| ==> IsSpace(s[i])
  }

  /** The length of the longest prefix of `s` made of white space. */
  function LeadingSpaces(s: string): (n: nat)
    ensures n <= |s|
    ensures AllSpaces(s[..n])
    ensures n < |s| ==> !IsSpace(s[n])
  {
    if |s| > 0 && IsSpace(s[0]) then
      var k := LeadingSpaces(s[1..]);
      assert forall i :: 1 <= i < k + 1 ==> s[i] == s[1..][i - 1];
      1 + k
    else 0
  }

  /** The length of the longest suffix of `s` made of white space. */
  function TrailingSpaces(s: string): (n: nat)
    ensures n <= |s|
    ensures AllSpaces(s[|s| - n..])
    ensures n < |s| ==> !IsSpace(s[|s| - n - 1])
  {
    if |s| > 0 && IsSpace(s[|s| - 1]) then
      var k := TrailingSpaces(s[..|s| - 1]);
      assert forall i :: |s| - 1 - k <= i < |s| - 1 ==> s[i] == s[..|s| - 1][i];
      1 + k
    else 0
  }

  /** `s.trim()`: `s` without its leading and trailing white space. */
  function Trim(s: string): (t: string)
    ensures |t| <= |s|
  {
    var u := s[LeadingSpaces(s)..];
    u[..|u| - TrailingSpaces(u)]
  }

  /** A trimmed string neither starts nor ends with white space. */
  predicate IsTrimmed(t: string)
  {
    |t| == 0 || (!IsSpace(t[0]) && !IsSpace(t[|t| - 1]))
  }

  /** Trim cuts `s` into white space, the trimmed text and white space,
      and the trimmed text is as long as that cut allows. */
  lemma TrimSplits(s: string)
    ensures exists i, j :: 0 <= i <= j <= |s| && Trim(s) == s[i..j]
                           && AllSpaces(s[..i]) && AllSpaces(s[j..])
    ensures IsTrimmed(Trim(s))
  {
    var i := LeadingSpaces(s);
    var u := s[i..];
    var n := TrailingSpaces(u);
    var j := i + |u| - n;
    assert Trim(s) == s[i..j];
    assert s[j..] == u[|u| - n..];
    if j > i {
      assert !IsSpace(s[i]);
      assert s[j - 1] == u[|u| - n - 1];
    }
  }

  /** A string that already starts and ends outside white space is its own trim. */
  lemma TrimOfTrimmed(t: string)
    requires IsTrimmed(t)
    ensures Trim(t) == t
  {
    if |t| > 0 {
      assert LeadingSpaces(t) == 0;
      assert TrailingSpaces(t) == 0;
    }
  }

  /** Trimming twice is trimming once. */
  lemma TrimIdempotent(s: string)
    ensures Trim(Trim(s)) == Trim(s)
  {
    TrimSplits(s);
    TrimOfTrimmed(Trim(s));
  }

  /** Trim removes only white space: text without padding is left alone, and
      any padding around such text is removed. */
  lemma TrimPadded(lead: string, t: string, trail: string)
    requires AllSpaces(lead) && AllSpaces(trail) && IsTrimmed(t)
    ensures Trim(lead + t + trail) == t
  {
    var s := lead + t + trail;
    if |t| == 0 {
      assert s == (lead + trail) + [];
      assert AllSpaces(lead + trail);
      LeadingOfPadded(lead + trail, []);
    } else {
      LeadingOfPadded(lead, t + trail);
      assert s == lead + (t + trail);
      assert s[|lead|..] == t + trail;
      TrailingOfPadded(t, trail);
      assert (t + trail)[..|t|] == t;
    }
  }

  lemma {:induction false} LeadingOfPadded(lead: string, rest: string)
    requires AllSpaces(lead)
    requires |rest| == 0 || !IsSpace(rest[0])
    ensures LeadingSpaces(lead + rest) == |lead|
  {
    if |lead| > 0 {
      assert (lead + rest)[1..] == lead[1..] + rest;
      LeadingOfPadded(lead[1..], rest);
    } else {
      assert lead + rest == rest;
    }
  }

  lemma {:induction false} TrailingOfPadded(t: string, trail: string)
    requires AllSpaces(trail)
    requires |t| == 0 || !IsSpace(t[|t| - 1])
    ensures TrailingSpaces(t + trail) == |trail|
  {
    if |trail| > 0 {
      var s := t + trail;
      assert s[..|s| - 1] == t + trail[..|trail| - 1];
      TrailingOfPadded(t, trail[..|trail| - 1]);
    } else {
      assert t + trail == t;
    }
  }

  /** Blank text trims to nothing; digits are left as they are. */
  lemma TrimOfBlankOrDigits(text: string)
    ensures AllSpaces(text) ==> Trim(text) == []
    ensures IsDigits(text) ==> Trim(text) == text
  {
    if AllSpaces(text) {
      assert text + [] + [] == text;
      TrimPadded(text, [], []);
    }
    if IsDigits(text) {
      TrimOfTrimmed(text);
    }
  }

  predicate IsDigit(c: char)
  {
    '0' <= c <= '9'
  }

  /** The value of a string of decimal digits, most significant first. */
  function DigitsValue(s: string): (v: nat)
    requires forall i :: 0 <= i < |s| ==> IsDigit(s[i])
  {
    if |s| == 0 then 0
    else
      var d := s[|s| - 1] as int - '0' as int;
      assert IsDigit(s[|s| - 1]);
      10 * DigitsValue(s[..|s| - 1]) + d
  }

  /** What `Number(text)` yields, seen through zod's `int()` check: an
      integer, or something that is not an integer (NaN or a fraction). */
  datatype Numeric = Integer(n: int) | NotInteger

  predicate IsDigits(s: string)
  {
    |s| > 0 && forall i :: 0 <= i < |s| ==> IsDigit(s[i])
  }

  /** `Number(text)` for the decimal integer forms: white space around the
      text is ignored, empty text is 0, and an optional sign may precede
      the digits. Every other text is taken as not an integer. */
  function NumberOf(text: string): (r: Numeric)
    ensures AllSpaces(text) ==> r == Integer(0)
    ensures IsDigits(text) ==> r == Integer(DigitsValue(text))
  {
    TrimOfBlankOrDigits(text);
    var t := Trim(text);
    if t == [] then
      Integer(0)
    else if IsDigits(t) then
      Integer(DigitsValue(t))
    else if t[0] == '-' && IsDigits(t[1..]) then
      Integer(-(DigitsValue(t[1..]) as int))
    else if t[0] == '+' && IsDigits(t[1..]) then
      Integer(DigitsValue(t[1..]))
    else
      NotInteger
  }
}
