/**
 * The string operations the router and the registry client apply to
 * registration numbers and to text taken from JSON: ECMAScript's
 * String.prototype.trim, String.prototype.toUpperCase and slice(0, n),
 * and the decimal text of natural numbers.
 */
module Text {

  /** The WhiteSpace and LineTerminator code points of ECMAScript, which trim removes. */
  predicate IsSpace(c: char) {
    || c == '\t' || c == '\n' || c == '\U{000B}' || c == '\U{000C}' || c == '\r' || c == ' '
    || c == '\U{00A0}' || c == '\U{1680}' || ('\U{2000}' <= c <= '\U{200A}')
    || c == '\U{2028}' || c == '\U{2029}' || c == '\U{202F}' || c == '\U{205F}'
    || c == '\U{3000}' || c == '\U{FEFF}'
  }

  /** Drops leading white space. */
  function TrimStart(s: string): (r: string)
    ensures |r| <= |s| && r == s[|s| - |r|..]
    ensures r == [] || !IsSpace(r[0])
    ensures forall k :: 0 <= k < |s| - |r| ==> IsSpace(s[k])
  {
    if s != [] && IsSpace(s[0]) then TrimStart(s[1..]) else s
  }

  /** Drops trailing white space. */
  function TrimEnd(s: string): (r: string)
    ensures |r| <= |s| && r == s[..|r|]
    ensures r == [] || !IsSpace(r[|r| - 1])
    ensures forall k :: |r| <= k < |s| ==> IsSpace(s[k])
  {
    if s != [] && IsSpace(s[|s| - 1]) then TrimEnd(s[..|s| - 1]) else s
  }

  /** String.prototype.trim: the part of s between its leading and its trailing white space. */
  function Trim(s: string): (r: string)
    ensures |r| <= |s|
    ensures r == [] || (!IsSpace(r[0]) && !IsSpace(r[|r| - 1]))
  {
    TrimEnd(TrimStart(s))
  }

  /**
   * Trim keeps a contiguous part of s, and everything it drops before and
   * after that part is white space.
   */
  lemma TrimRemovesOnlySpace(s: string)
    ensures var start := |s| - |TrimStart(s)|;
      && start + |Trim(s)| <= |s|
      && Trim(s) == s[start..start + |Trim(s)|]
      && (forall k :: 0 <= k < start ==> IsSpace(s[k]))
      && (forall k :: start + |Trim(s)| <= k < |s| ==> IsSpace(s[k]))
  {
    var t := TrimStart(s);
    var start := |s| - |t|;
    var r := TrimEnd(t);
    assert t == s[start..];
    assert r == t[..|r|];
    forall k | start + |r| <= k < |s| ensures IsSpace(s[k]) {
      assert s[k] == t[k - start];
    }
  }

  lemma TrimIdempotent(s: string)
    ensures Trim(Trim(s)) == Trim(s)
  {
    var r := Trim(s);
    TrimStartKeeps(r);
    TrimEndKeeps(r);
  }

  /**
   * toUpperCase of one character: the ASCII and Latin-1 letters, including
   * the special cases of the sharp s (to "SS"), y with diaeresis and micro sign.
   */
  function UpperChar(c: char): (u: string)
    ensures 1 <= |u| <= 2
    ensures IsSpace(c) ==> u == [c]
    ensures forall k :: 0 <= k < |u| ==> !IsSpace(u[k]) || u == [c]
  {
    if 'a' <= c <= 'z' then [(c as int - 32) as char]
    else if '\U{00E0}' <= c <= '\U{00FE}' && c != '\U{00F7}' then [(c as int - 32) as char]
    else if c == '\U{00FF}' then ['\U{0178}']
    else if c == '\U{00B5}' then ['\U{039C}']
    else if c == '\U{00DF}' then "SS"
    else [c]
  }

  /** String.prototype.toUpperCase, character by character: each character gives one or two. */
  function ToUpper(s: string): (r: string)
    ensures |s| <= |r| <= 2 * |s|
  {
    if s == [] then [] else UpperChar(s[0]) + ToUpper(s[1..])
  }

  /** Upper-casing keeps a non-empty string non-empty and keeps whether it starts with white space. */
  lemma ToUpperHead(s: string)
    requires s != []
    ensures ToUpper(s) != []
    ensures IsSpace(ToUpper(s)[0]) <==> IsSpace(s[0])
  {
    var u := UpperChar(s[0]);
    assert ToUpper(s) == u + ToUpper(s[1..]);
    assert ToUpper(s)[0] == u[0];
  }

  /** Upper-casing keeps a non-empty string non-empty and keeps whether it ends with white space. */
  lemma ToUpperLast(s: string)
    requires s != []
    ensures ToUpper(s) != []
    ensures IsSpace(ToUpper(s)[|ToUpper(s)| - 1]) <==> IsSpace(s[|s| - 1])
  {
    var init, last := s[..|s| - 1], s[|s| - 1];
    assert s == init + [last];
    ToUpperConcat(init, [last]);
    assert ToUpper([last]) == UpperChar(last);
    var u := UpperChar(last);
    assert ToUpper(s)[|ToUpper(s)| - 1] == u[|u| - 1];
  }

  lemma {:induction false} ToUpperConcat(a: string, b: string)
    ensures ToUpper(a + b) == ToUpper(a) + ToUpper(b)
  {
    if a == [] {
      assert a + b == b;
    } else {
      assert (a + b)[0] == a[0] && (a + b)[1..] == a[1..] + b;
      ToUpperConcat(a[1..], b);
    }
  }

  lemma UpperCharIsUpper(c: char)
    ensures ToUpper(UpperChar(c)) == UpperChar(c)
  {
    var u := UpperChar(c);
    forall k | 0 <= k < |u| ensures UpperChar(u[k]) == [u[k]] {
    }
    assert ToUpper(u) == UpperChar(u[0]) + ToUpper(u[1..]);
    if |u| == 2 {
      assert ToUpper(u[1..]) == UpperChar(u[1]) + ToUpper(u[1..][1..]);
      assert u[1..][1..] == [];
    }
  }

  /** Upper-casing twice is upper-casing once. */
  lemma {:induction false} ToUpperIdempotent(s: string)
    ensures ToUpper(ToUpper(s)) == ToUpper(s)
  {
    if s != [] {
      ToUpperConcat(UpperChar(s[0]), ToUpper(s[1..]));
      UpperCharIsUpper(s[0]);
      ToUpperIdempotent(s[1..]);
    }
  }

  lemma {:induction false} TrimStartUpper(s: string)
    ensures TrimStart(ToUpper(s)) == ToUpper(TrimStart(s))
  {
    if s != [] {
      if IsSpace(s[0]) {
        assert ToUpper(s) == [s[0]] + ToUpper(s[1..]);
        assert (([s[0]] + ToUpper(s[1..]))[1..]) == ToUpper(s[1..]);
        TrimStartUpper(s[1..]);
      } else {
        ToUpperHead(s);
        TrimStartKeeps(s);
        TrimStartKeeps(ToUpper(s));
      }
    }
  }

  lemma {:induction false} TrimEndUpper(s: string)
    ensures TrimEnd(ToUpper(s)) == ToUpper(TrimEnd(s))
  {
    if s != [] {
      var init, last := s[..|s| - 1], s[|s| - 1];
      assert s == init + [last];
      ToUpperConcat(init, [last]);
      assert ToUpper([last]) == UpperChar(last);
      var u := UpperChar(last);
      if IsSpace(last) {
        assert ToUpper(s) == ToUpper(init) + [last];
        assert (ToUpper(init) + [last])[..|ToUpper(s)| - 1] == ToUpper(init);
        TrimEndUpper(init);
      } else {
        assert ToUpper(s)[|ToUpper(s)| - 1] == u[|u| - 1];
      }
    }
  }

  /** Trimming and upper-casing commute, so trim().toUpperCase() and toUpperCase().trim() agree. */
  lemma TrimUpperCommute(s: string)
    ensures Trim(ToUpper(s)) == ToUpper(Trim(s))
  {
    TrimStartUpper(s);
    TrimEndUpper(TrimStart(s));
  }

  /** slice(0, n): the first n characters, or all of s when it is shorter. */
  function Prefix(s: string, n: nat): (r: string)
    ensures r <= s
    ensures |r| == if |s| <= n then |s| else n
  {
    if |s| <= n then s else s[..n]
  }

  predicate IsDigit(c: char) {
    '0' <= c <= '9'
  }

  predicate AllDigits(s: string) {
    forall k :: 0 <= k < |s| ==> IsDigit(s[k])
  }

  lemma DigitNotSpace(c: char)
    requires IsDigit(c)
    ensures !IsSpace(c)
  {
  }

  lemma TrimStartKeeps(s: string)
    requires s == [] || !IsSpace(s[0])
    ensures TrimStart(s) == s
  {
  }

  lemma TrimEndKeeps(s: string)
    requires s == [] || !IsSpace(s[|s| - 1])
    ensures TrimEnd(s) == s
  {
  }

  /** Digits are not white space, so trim leaves a run of digits as it is. */
  lemma TrimDigits(s: string)
    ensures AllDigits(s) ==> Trim(s) == s
  {
    if s != [] && AllDigits(s) {
      DigitNotSpace(s[0]);
      DigitNotSpace(s[|s| - 1]);
      TrimStartKeeps(s);
      TrimEndKeeps(s);
    }
  }

  function DigitChar(d: nat): (c: char)
    requires d < 10
    ensures IsDigit(c)
  {
    ('0' as int + d) as char
  }

  /** The decimal text of n, as String(n) writes it: digits only, no leading zero. */
  function NatToString(n: nat): (s: string)
    ensures |s| >= 1 && AllDigits(s)
    ensures s[0] == '0' ==> n == 0
    ensures 1 <= n ==> |s| <= n
  {
    if n < 10 then [DigitChar(n)] else NatToString(n / 10) + [DigitChar(n % 10)]
  }

  /** The number a string of decimal digits denotes. */
  function DecimalValue(s: string): nat
    requires AllDigits(s)
  {
    if s == [] then 0 else DecimalValue(s[..|s| - 1]) * 10 + (s[|s| - 1] as int - '0' as int)
  }

  /** Reading back the decimal text of n gives n. */
  lemma {:induction false} DecimalRoundTrip(n: nat)
    ensures DecimalValue(NatToString(n)) == n
  {
    if 10 <= n {
      var s := NatToString(n);
      assert s[..|s| - 1] == NatToString(n / 10);
      DecimalRoundTrip(n / 10);
    }
  }
}
