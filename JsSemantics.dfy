/** The few pieces of JavaScript value semantics the timer relies on:
    nullable numbers, truthiness, the truncating remainder, String.prototype.trim,
    parseInt (radix omitted), Number.prototype.toString on integers and padStart(2, "0").
    Numbers are modelled as unbounded integers (the timer only ever holds whole
    milliseconds and seconds). */
module JsSemantics {

  datatype Option<+T> = None | Some(value: T)

  /** `null` used in arithmetic: ToNumber(null) is 0. */
  function ToNumber(o: Option<int>): int
  {
    if o.Some? then o.value else 0
  }

  /** Truthiness of a nullable number: `null` and `0` are falsy. */
  predicate Truthy(o: Option<int>)
  {
    o.Some? && o.value != 0
  }

  /** `parseInt(x) || 0`: NaN (and -0) become 0. */
  function IntOr0(o: Option<int>): int
  {
    if o.Some? then o.value else 0
  }

  function Abs(x: int): (r: int)
    ensures r >= 0 && (r == x || r == -x)
  {
    if x < 0 then -x else x
  }

  function Max(a: int, b: int): int { if a < b then b else a }
  function Min(a: int, b: int): int { if a < b then a else b }

  /** JavaScript `a % 60`: the remainder truncates toward zero, so it takes the
      sign of the dividend (Dafny's `%` never is negative). */
  function JsRem60(a: int): (r: int)
    ensures -60 < r < 60
    ensures a >= 0 ==> r >= 0
    ensures a <= 0 ==> r <= 0
    ensures (a - r) % 60 == 0
  {
    if a >= 0 then a % 60 else -((-a) % 60)
  }

  // ---------------------------------------------------------------------------
  // Whitespace and trim
  // ---------------------------------------------------------------------------

  /** WhiteSpace and LineTerminator code points of ECMAScript: what `trim` and
      `parseInt` strip. */
  predicate IsSpace(c: char)
  {
    || c == '\t' || c == '\n' || c == '\U{000B}' || c == '\U{000C}' || c == '\r'
    || c == ' ' || c == '\U{00A0}' || c == '\U{1680}'
    || ('\U{2000}' <= c <= '\U{200A}')
    || c == '\U{2028}' || c == '\U{2029}' || c == '\U{202F}' || c == '\U{205F}'
    || c == '\U{3000}' || c == '\U{FEFF}'
  }

  predicate AllSpace(s: string)
  {
    forall i :: 0 <= i < |s| ==> IsSpace(s[i])
  }

  /** Drops the leading whitespace: the result is the suffix of `s` that starts
      at its first non-space character. */
  function TrimStart(s: string): (r: string)
    ensures |r| <= |s|
    decreases |s|
  {
    if |s| > 0 && IsSpace(s[0]) then TrimStart(s[1..]) else s
  }

  /** What `TrimStart` keeps is a suffix that starts with a non-space, and
      what it drops is all whitespace. */
  lemma {:induction false} TrimStartShape(s: string)
    ensures var r := TrimStart(s);
      && r == s[|s| - |r|..]
      && (r == [] || !IsSpace(r[0]))
      && (forall i :: 0 <= i < |s| - |r| ==> IsSpace(s[i]))
    decreases |s|
  {
    if |s| > 0 && IsSpace(s[0]) {
      TrimStartShape(s[1..]);
      var r := TrimStart(s);
      assert s[1..][|s| - 1 - |r|..] == s[|s| - |r|..];
      forall i | 0 <= i < |s| - |r| ensures IsSpace(s[i]) {
        if i > 0 { assert s[i] == s[1..][i - 1]; }
      }
    } else {
      assert s[0..] == s;
    }
  }

  /** Drops the trailing whitespace: the result is the prefix of `s` that ends
      at its last non-space character. */
  function TrimEnd(s: string): (r: string)
    ensures |r| <= |s|
    decreases |s|
  {
    if |s| > 0 && IsSpace(s[|s| - 1]) then TrimEnd(s[..|s| - 1]) else s
  }

  /** What `TrimEnd` keeps is a prefix that ends with a non-space, and what it
      drops is all whitespace. */
  lemma {:induction false} TrimEndShape(s: string)
    ensures var r := TrimEnd(s);
      && r == s[..|r|]
      && (r == [] || !IsSpace(r[|r| - 1]))
      && (forall i :: |r| <= i < |s| ==> IsSpace(s[i]))
    decreases |s|
  {
    if |s| > 0 && IsSpace(s[|s| - 1]) {
      TrimEndShape(s[..|s| - 1]);
      var r := TrimEnd(s);
      assert s[..|s| - 1][..|r|] == s[..|r|];
      forall i | |r| <= i < |s| ensures IsSpace(s[i]) {
        if i < |s| - 1 { assert s[i] == s[..|s| - 1][i]; }
      }
    } else {
      assert s[..|s|] == s;
    }
  }

  /** String.prototype.trim. */
  function Trim(s: string): (r: string)
    ensures |r| <= |s|
    ensures r == [] <==> AllSpace(s)
    ensures r != [] ==> !IsSpace(r[0]) && !IsSpace(r[|r| - 1])
  {
    TrimEnds(s);
    TrimEnd(TrimStart(s))
  }

  lemma TrimEnds(s: string)
    ensures var r := TrimEnd(TrimStart(s));
      && (r == [] <==> AllSpace(s))
      && (r != [] ==> !IsSpace(r[0]) && !IsSpace(r[|r| - 1]))
  {
    var t := TrimStart(s);
    var r := TrimEnd(t);
    TrimStartShape(s);
    TrimEndShape(t);
    if r == [] {
      TrimEmptyOnlyIfSpace(s);
    } else {
      assert r[0] == t[0];
    }
  }

  lemma TrimEmptyOnlyIfSpace(s: string)
    requires TrimEnd(TrimStart(s)) == []
    ensures AllSpace(s)
  {
    TrimEndEmpty(TrimStart(s));
    SpacesBeforeTrimStart(s, TrimStart(s));
  }

  lemma TrimEndEmpty(x: string)
    requires TrimEnd(x) == []
    ensures AllSpace(x)
  {
    TrimEndShape(x);
    assert x[0..] == x;
  }

  lemma SpacesBeforeTrimStart(s: string, t: string)
    requires t == TrimStart(s) && AllSpace(t)
    ensures AllSpace(s)
  {
    TrimStartShape(s);
    assert |t| == 0;
  }

  lemma {:induction false} TrimStartSkips(p: string, t: string)
    requires AllSpace(p)
    requires t == [] || !IsSpace(t[0])
    ensures TrimStart(p + t) == t
    decreases |p|
  {
    if p != [] {
      assert (p + t)[1..] == p[1..] + t;
      TrimStartSkips(p[1..], t);
    } else {
      assert p + t == t;
    }
  }

  lemma {:induction false} TrimEndSkips(t: string, q: string)
    requires AllSpace(q)
    requires t == [] || !IsSpace(t[|t| - 1])
    ensures TrimEnd(t + q) == t
    decreases |q|
  {
    if q != [] {
      assert (t + q)[..|t + q| - 1] == t + q[..|q| - 1];
      TrimEndSkips(t, q[..|q| - 1]);
    } else {
      assert t + q == t;
    }
  }

  /** `trim` keeps exactly the text between the outer whitespace: whatever
      surrounds a string with non-space ends, trimming gives that string back. */
  lemma TrimOfPadded(p: string, t: string, q: string)
    requires AllSpace(p) && AllSpace(q)
    requires t == [] || (!IsSpace(t[0]) && !IsSpace(t[|t| - 1]))
    ensures Trim(p + t + q) == t
  {
    if t == [] {
      assert p + t + q == p + q;
      assert AllSpace(p + q) by {
        forall i | 0 <= i < |p + q| ensures IsSpace((p + q)[i]) {
          if i >= |p| { assert (p + q)[i] == q[i - |p|]; }
        }
      }
    } else {
      assert p + t + q == p + (t + q);
      TrimStartSkips(p, t + q);
      TrimEndSkips(t, q);
    }
  }

  // ---------------------------------------------------------------------------
  // parseInt and integer to string
  // ---------------------------------------------------------------------------

  /** The digit value of a character in radices up to 36; 36 for a non-digit. */
  function DigitValue(c: char): int
  {
    if '0' <= c <= '9' then c as int - '0' as int
    else if 'a' <= c <= 'z' then c as int - 'a' as int + 10
    else if 'A' <= c <= 'Z' then c as int - 'A' as int + 10
    else 36
  }

  /** Length of the longest prefix of `s` made of digits of `radix`. */
  function DigitPrefix(s: string, radix: int): (n: nat)
    ensures n <= |s|
  {
    if |s| > 0 && DigitValue(s[0]) < radix then 1 + DigitPrefix(s[1..], radix) else 0
  }

  /** The prefix is made of digits and stops at the first character that is
      not one. */
  lemma {:induction false} DigitPrefixIsLongest(s: string, radix: int)
    ensures var n := DigitPrefix(s, radix);
      && (forall i :: 0 <= i < n ==> DigitValue(s[i]) < radix)
      && (n < |s| ==> DigitValue(s[n]) >= radix)
    decreases |s|
  {
    if |s| > 0 && DigitValue(s[0]) < radix {
      DigitPrefixIsLongest(s[1..], radix);
      var n := DigitPrefix(s, radix);
      forall i | 0 <= i < n ensures DigitValue(s[i]) < radix {
        if i > 0 { assert s[i] == s[1..][i - 1]; }
      }
    }
  }

  /** The number a digit string denotes, most significant digit first, in
      base 16 when `hex` holds and base 10 otherwise. */
  function DigitsValue(ds: string, hex: bool): int
  {
    if ds == [] then 0
    else
      var high := DigitsValue(ds[..|ds| - 1], hex);
      (if hex then high * 16 else high * 10) + DigitValue(ds[|ds| - 1])
  }

  /** `parseInt(s)` with the radix omitted; `None` stands for NaN. Leading
      whitespace is skipped and one sign is read; the rest is `ParseDigits`. */
  function ParseInt(s: string): (r: Option<int>)
    ensures AllSpace(s) ==> r == None
  {
    TrimStartShape(s);
    var t := TrimStart(s);
    if |t| > 0 && t[0] == '-' then Negate(ParseDigits(t[1..]))
    else if |t| > 0 && t[0] == '+' then ParseDigits(t[1..])
    else ParseDigits(t)
  }

  function Negate(o: Option<int>): Option<int>
  {
    if o.Some? then Some(-o.value) else None
  }

  /** The unsigned part of `parseInt`: "0x"/"0X" selects base 16, otherwise base
      10, and the longest run of digits that follows is the value; anything after
      it is ignored, and no digit at all is NaN. */
  function ParseDigits(u: string): Option<int>
  {
    var hex := |u| >= 2 && u[0] == '0' && (u[1] == 'x' || u[1] == 'X');
    var radix := if hex then 16 else 10;
    var body := if hex then u[2..] else u;
    var n := DigitPrefix(body, radix);
    if n == 0 then None else Some(DigitsValue(body[..n], hex))
  }

  function DigitChar(d: int): (c: char)
    requires 0 <= d < 10
    ensures DigitValue(c) == d
  {
    ('0' as int + d) as char
  }

  predicate AllDecimal(s: string)
  {
    forall i :: 0 <= i < |s| ==> DigitValue(s[i]) < 10
  }

  /** Decimal digits of a natural number, without leading zeros. */
  function NatToString(n: nat): (r: string)
    ensures |r| >= 1 && AllDecimal(r)
    ensures r[0] == '0' <==> n == 0
    ensures |r| == 1 <==> n < 10
  {
    if n < 10 then [DigitChar(n)] else NatToString(n / 10) + [DigitChar(n % 10)]
  }

  /** `String(n)` for an integer: for a negative `n`, a minus sign in front of
      `String(-n)`. */
  function IntToString(n: int): (r: string)
    ensures |r| >= 1
    ensures r[0] == '-' <==> n < 0
    ensures n >= 0 ==> AllDecimal(r)
    decreases if n < 0 then 1 else 0
  {
    if n < 0 then "-" + IntToString(-n) else NatToString(n)
  }

  /** `s.padStart(2, "0")`. */
  function PadStart2(s: string): string
  {
    if |s| >= 2 then s else if |s| == 1 then "0" + s else "00"
  }

  /** `padStart(2, "0")` puts zeros in front of a text shorter than two
      characters until it has two, and leaves a longer text alone. */
  lemma PadStart2Shape(s: string)
    ensures var r := PadStart2(s);
      && |r| == (if |s| >= 2 then |s| else 2)
      && r[|r| - |s|..] == s
      && (forall i :: 0 <= i < |r| - |s| ==> r[i] == '0')
  {
  }

  lemma {:induction false} NatToStringValue(n: nat)
    ensures DigitsValue(NatToString(n), false) == n
  {
    if n >= 10 {
      var p := NatToString(n / 10);
      var r := p + [DigitChar(n % 10)];
      assert r[..|r| - 1] == p;
      NatToStringValue(n / 10);
    }
  }

  lemma {:induction false} AllDigitsPrefix(s: string, radix: int)
    requires forall i :: 0 <= i < |s| ==> DigitValue(s[i]) < radix
    ensures DigitPrefix(s, radix) == |s|
    decreases |s|
  {
    if s != [] {
      AllDigitsPrefix(s[1..], radix);
    }
  }

  /** Reads back a decimal string with no "0x" in front. */
  lemma ParsePlainDecimal(u: string)
    requires |u| >= 1 && AllDecimal(u)
    requires |u| >= 2 ==> u[1] != 'x' && u[1] != 'X'
    ensures ParseDigits(u) == Some(DigitsValue(u, false))
  {
    AllDigitsPrefix(u, 10);
    assert u[..|u|] == u;
  }

  /** Reading back what Number.prototype.toString wrote gives the same integer. */
  lemma ParseIntOfIntToString(n: int)
    ensures ParseInt(IntToString(n)) == Some(n)
  {
    if n < 0 {
      ParseNegative(-n);
    } else {
      ParseNatural(n);
    }
  }

  lemma ParseNatural(m: nat)
    ensures ParseInt(NatToString(m)) == Some(m)
  {
    var u := NatToString(m);
    DigitsOfNat(m);
    DigitIsNotSpace(u[0]);
    NothingToTrim(u);
    ParseUnsigned(u);
  }

  lemma ParseNegative(m: nat)
    ensures ParseInt("-" + NatToString(m)) == Some(-(m as int))
  {
    DigitsOfNat(m);
    ParseMinus(NatToString(m));
  }

  lemma DigitsOfNat(m: nat)
    ensures ParseDigits(NatToString(m)) == Some(m)
  {
    NatToStringValue(m);
    ParsePlainDecimal(NatToString(m));
  }

  lemma ParseUnsigned(u: string)
    requires TrimStart(u) == u && u != [] && u[0] != '-' && u[0] != '+'
    ensures ParseInt(u) == ParseDigits(u)
  {
  }

  lemma ParseMinus(u: string)
    ensures ParseInt("-" + u) == Negate(ParseDigits(u))
  {
    var t := "-" + u;
    assert t[1..] == u;
    NothingToTrim(t);
  }

  lemma DigitIsNotSpace(c: char)
    requires DigitValue(c) < 10
    ensures !IsSpace(c)
  {
  }

  lemma NothingToTrim(s: string)
    requires s == [] || !IsSpace(s[0])
    ensures TrimStart(s) == s
  {
  }

  lemma LeadingZeroValue(d: char)
    requires DigitValue(d) < 10
    ensures DigitsValue(['0', d], false) == DigitValue(d)
  {
    assert ['0', d][..1] == ['0'];
    assert ['0'][..0] == [];
  }

  /** `parseInt` skips leading whitespace, reads the longest run of decimal
      digits, and ignores whatever follows. */
  lemma ParseIntReadsLeadingNumber(p: string, d: string, rest: string)
    requires AllSpace(p) && d != [] && AllDecimal(d)
    requires rest == [] || DigitValue(rest[0]) >= 10
    requires d == "0" && rest != [] ==> rest[0] != 'x' && rest[0] != 'X'
    ensures ParseInt(p + d + rest) == Some(DigitsValue(d, false))
  {
    var u := d + rest;
    DigitIsNotSpace(d[0]);
    assert p + d + rest == p + u;
    TrimStartSkips(p, u);
    ParseDigitsOfLeading(d, rest);
  }

  /** The unsigned part reads exactly the leading decimal digits. */
  lemma ParseDigitsOfLeading(d: string, rest: string)
    requires d != [] && AllDecimal(d)
    requires rest == [] || DigitValue(rest[0]) >= 10
    requires d == "0" && rest != [] ==> rest[0] != 'x' && rest[0] != 'X'
    ensures ParseDigits(d + rest) == Some(DigitsValue(d, false))
  {
    var u := d + rest;
    DigitsThenOther(d, rest);
    assert u[..|d|] == d;
    if |u| >= 2 && u[0] == '0' {
      assert u[1] == if |d| >= 2 then d[1] else rest[0];
    }
  }

  /** The digit run of a decimal string followed by a non-digit is that string. */
  lemma {:induction false} DigitsThenOther(d: string, rest: string)
    requires AllDecimal(d)
    requires rest == [] || DigitValue(rest[0]) >= 10
    ensures DigitPrefix(d + rest, 10) == |d|
    decreases |d|
  {
    if d == [] {
      assert d + rest == rest;
    } else {
      assert (d + rest)[1..] == d[1..] + rest;
      assert AllDecimal(d[1..]) by {
        forall i | 0 <= i < |d[1..]| ensures DigitValue(d[1..][i]) < 10 {
          assert d[1..][i] == d[i + 1];
        }
      }
      DigitsThenOther(d[1..], rest);
    }
  }

  /** The two-character, zero-padded form reads back as the same integer too. */
  lemma ParseIntOfPadded(n: int)
    ensures ParseInt(PadStart2(IntToString(n))) == Some(n)
  {
    if 0 <= n < 10 {
      var u := NatToString(n);
      var v := ['0', u[0]];
      assert PadStart2(IntToString(n)) == v;
      ParsePlainDecimal(v);
      NothingToTrim(v);
      LeadingZeroValue(u[0]);
    } else {
      ParseIntOfIntToString(n);
    }
  }
}
