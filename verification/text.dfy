/**
 * Text operations the system relies on at its boundaries: JavaScript's
 * String.prototype.trim (the front end's content validation), the decimal
 * rendering of an integer inside a template literal (the front end's URL
 * builders) and Go's strconv.Atoi on a 64-bit platform (the back end's path
 * parameter parsing).
 */
module Text {
  import opened Wrappers

  /** The characters `trim` strips: ECMAScript WhiteSpace (TAB, VT, FF, ZWNBSP and
      the Zs category) and LineTerminator (LF, CR, LS, PS). */
  predicate IsJsSpace(c: char) {
    c == '\t' || c == '\n' || c == '\U{000B}' || c == '\U{000C}' || c == '\r' || c == ' '
    || c == '\U{00A0}' || c == '\U{1680}' || ('\U{2000}' <= c <= '\U{200A}')
    || c == '\U{2028}' || c == '\U{2029}' || c == '\U{202F}' || c == '\U{205F}'
    || c == '\U{3000}' || c == '\U{FEFF}'
  }

  /** Every character is white space (vacuously true of the empty string). */
  predicate Blank(s: string) {
    forall i :: 0 <= i < |s| ==> IsJsSpace(s[i])
  }

  /** Removes leading white space: the result is the longest suffix not starting with it. */
  function TrimStart(s: string): (r: string)
    ensures |r| <= |s| && r == s[|s| - |r|..]
    ensures Blank(s[..|s| - |r|])
    ensures r != [] ==> !IsJsSpace(r[0])
  {
    if s != [] && IsJsSpace(s[0]) then
      var r := TrimStart(s[1..]);
      DropSpaceFront(s, r);
      r
    else s
  }

  /** Removes trailing white space: the result is the longest prefix not ending with it. */
  function TrimEnd(s: string): (r: string)
    ensures |r| <= |s| && r == s[..|r|]
    ensures Blank(s[|r|..])
    ensures r != [] ==> !IsJsSpace(r[|r| - 1])
  {
    if s != [] && IsJsSpace(s[|s| - 1]) then
      var r := TrimEnd(s[..|s| - 1]);
      DropSpaceBack(s, r);
      r
    else s
  }

  /** A white space character in front of a blank prefix of the rest makes a blank prefix of the whole. */
  lemma DropSpaceFront(s: string, r: string)
    requires s != [] && IsJsSpace(s[0])
    requires |r| <= |s| - 1 && r == s[1..][|s| - 1 - |r|..] && Blank(s[1..][..|s| - 1 - |r|])
    ensures r == s[|s| - |r|..] && Blank(s[..|s| - |r|])
  {
    assert s[..|s| - |r|] == [s[0]] + s[1..][..|s| - 1 - |r|];
    BlankConcat([s[0]], s[1..][..|s| - 1 - |r|]);
  }

  /** A white space character after a blank suffix of the rest makes a blank suffix of the whole. */
  lemma DropSpaceBack(s: string, r: string)
    requires s != [] && IsJsSpace(s[|s| - 1])
    requires |r| <= |s| - 1 && r == s[..|s| - 1][..|r|] && Blank(s[..|s| - 1][|r|..])
    ensures r == s[..|r|] && Blank(s[|r|..])
  {
    assert s[|r|..] == s[..|s| - 1][|r|..] + [s[|s| - 1]];
    BlankConcat(s[..|s| - 1][|r|..], [s[|s| - 1]]);
  }

  /** `s.trim()`: white space stripped at both ends. It is empty exactly when `s` is blank. */
  function Trim(s: string): (r: string)
    ensures r == [] <==> Blank(s)
    ensures r != [] ==> !IsJsSpace(r[0]) && !IsJsSpace(r[|r| - 1])
  {
    TrimBlank(s);
    TrimEnd(TrimStart(s))
  }

  lemma BlankConcat(a: string, b: string)
    requires Blank(a) && Blank(b)
    ensures Blank(a + b)
  {
    forall k | 0 <= k < |a + b| ensures IsJsSpace((a + b)[k]) {
      if k < |a| { assert (a + b)[k] == a[k]; } else { assert (a + b)[k] == b[k - |a|]; }
    }
  }

  lemma TrimBlank(s: string)
    ensures TrimEnd(TrimStart(s)) == [] <==> Blank(s)
  {
    var t := TrimStart(s);
    if TrimEnd(t) == [] {
      assert t[|TrimEnd(t)|..] == t;
      TrimmedAway(s, t);
    } else {
      var r := TrimEnd(t);
      assert r[0] == t[0];
      assert t[0] == s[|s| - |t|];
    }
  }

  /** A blank prefix followed by a blank rest: the whole is blank. */
  lemma {:induction false} TrimmedAway(s: string, t: string)
    requires |t| <= |s| && t == s[|s| - |t|..]
    requires Blank(s[..|s| - |t|]) && Blank(t)
    ensures Blank(s)
  {
    var i := |s| - |t|;
    assert s == s[..i] + t;
    BlankConcat(s[..i], t);
  }

  predicate IsDigit(c: char) {
    '0' <= c <= '9'
  }

  predicate AllDigits(s: string) {
    forall i :: 0 <= i < |s| ==> IsDigit(s[i])
  }

  function DigitChar(d: nat): (c: char)
    requires d < 10
    ensures IsDigit(c) && c as int - '0' as int == d
  {
    ('0' as int + d) as char
  }

  /** The value of a string of decimal digits, most significant first. */
  function DigitsValue(s: string): nat
    requires AllDigits(s)
  {
    if s == [] then 0 else DigitsValue(s[..|s| - 1]) * 10 + (s[|s| - 1] as int - '0' as int)
  }

  /** The shortest decimal digit string of a natural number. */
  function NatDigits(n: nat): (s: string)
    ensures s != [] && AllDigits(s)
    ensures |s| > 1 ==> s[0] != '0'
  {
    if n < 10 then [DigitChar(n)] else NatDigits(n / 10) + [DigitChar(n % 10)]
  }

  /** `${n}` for an integer-valued JavaScript number: a minus sign for negative
      values, then the shortest decimal digits. */
  function DecimalString(n: int): (s: string)
    ensures s != [] && (s[0] == '-' || IsDigit(s[0]))
    ensures forall i :: 0 <= i < |s| ==> s[i] != '/'
  {
    if n < 0 then "-" + NatDigits(-n) else NatDigits(n)
  }

  const MinInt64: int := -0x8000_0000_0000_0000
  const MaxInt64: int := 0x7FFF_FFFF_FFFF_FFFF

  /** strconv.Atoi with a 64-bit int: an optional sign, at least one decimal digit and
      nothing else; a value outside the int range is an error like a syntax error. */
  function Atoi(s: string): (r: Option<int>)
    ensures r.Some? ==> MinInt64 <= r.value <= MaxInt64
    ensures r.Some? ==> s != [] && AllDigits(if s[0] == '-' || s[0] == '+' then s[1..] else s)
  {
    if s == [] then None
    else
      var body := if s[0] == '-' || s[0] == '+' then s[1..] else s;
      if body == [] || !AllDigits(body) then None
      else
        var v: int := if s[0] == '-' then -(DigitsValue(body) as int) else DigitsValue(body);
        if MinInt64 <= v <= MaxInt64 then Some(v) else None
  }

  lemma {:induction false} NatDigitsValue(n: nat)
    ensures DigitsValue(NatDigits(n)) == n
  {
    if n >= 10 {
      NatDigitsValue(n / 10);
      var s := NatDigits(n);
      assert s[..|s| - 1] == NatDigits(n / 10);
    }
  }

  /** Parsing the decimal rendering of an int64 gives the number back: the id a URL
      carries is the id the handler reads. */
  lemma AtoiDecimalString(n: int)
    requires MinInt64 <= n <= MaxInt64
    ensures Atoi(DecimalString(n)) == Some(n)
  {
    if n < 0 {
      NatDigitsValue(-n);
      assert DecimalString(n)[1..] == NatDigits(-n);
    } else {
      NatDigitsValue(n);
    }
  }
}
