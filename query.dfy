/**
 * The query-string arithmetic of `GET /messages/:otherUserId`: JavaScript's
 * `parseInt(text, 10)` and the `limit`/`page` clamps built on it
 * (src/routes/messages.js:70-71). A query parameter is `None` when it is absent.
 */
module Query {
  import opened Wrappers
  import opened Json

  /** The characters `parseInt` skips before the number: JavaScript's white space and line terminators. */
  predicate IsSpace(c: char)
  {
    || '\t' <= c <= '\r'
    || c == ' ' || c == '\U{A0}' || c == '\U{1680}'
    || '\U{2000}' <= c <= '\U{200A}'
    || c == '\U{2028}' || c == '\U{2029}' || c == '\U{202F}' || c == '\U{205F}'
    || c == '\U{3000}' || c == '\U{FEFF}'
  }

  predicate IsDigit(c: char) { '0' <= c <= '9' }

  predicate AllDigits(s: string) { forall i :: 0 <= i < |s| ==> IsDigit(s[i]) }

  /** `s` without its leading white space. */
  function TrimStart(s: string): (r: string)
    ensures |r| <= |s| && r == s[|s| - |r|..]
    ensures forall i :: 0 <= i < |s| - |r| ==> IsSpace(s[i])
    ensures r == [] || !IsSpace(r[0])
  {
    if s != [] && IsSpace(s[0]) then TrimStart(s[1..]) else s
  }

  /** The longest prefix of `s` made of decimal digits. */
  function DigitPrefix(s: string): (r: string)
    ensures |r| <= |s| && r == s[..|r|]
    ensures AllDigits(r)
    ensures |r| == |s| || !IsDigit(s[|r|])
  {
    if s != [] && IsDigit(s[0]) then [s[0]] + DigitPrefix(s[1..]) else []
  }

  /** The number a string of decimal digits denotes. */
  function DigitsValue(d: string): nat
    requires AllDigits(d)
  {
    if d == [] then 0 else 10 * DigitsValue(d[..|d| - 1]) + (d[|d| - 1] as int - '0' as int)
  }

  /**
   * `parseInt(s, 10)`: leading white space is skipped, then the number at the
   * start of what is left is read. `None` is `NaN`.
   */
  function ParseInt(s: string): Option<int>
  {
    ParseSigned(TrimStart(s))
  }

  /**
   * The number at the start of `t`: one optional sign, then the digits up to
   * the first non-digit. `None` when no digit follows the sign. A negative
   * zero is the integer 0.
   */
  function ParseSigned(t: string): Option<int>
  {
    var negative := t != [] && t[0] == '-';
    var unsigned := if t != [] && (t[0] == '-' || t[0] == '+') then t[1..] else t;
    var d := DigitPrefix(unsigned);
    if d == [] then None
    else
      var v: int := DigitsValue(d);
      Some(if negative then -v else v)
  }

  /** `q || fallback`: an absent or empty parameter is replaced by the fallback. */
  function OrDefault(q: Option<string>, fallback: string): (r: string)
    ensures q.Some? && q.value != "" ==> r == q.value
    ensures q.None? || q.value == "" ==> r == fallback
  {
    if q.None? || q.value == "" then fallback else q.value
  }

  function Min(a: int, b: int): (r: int)
    ensures r <= a && r <= b && (r == a || r == b)
  {
    if a <= b then a else b
  }

  function Max(a: int, b: int): (r: int)
    ensures r >= a && r >= b && (r == a || r == b)
  {
    if a <= b then b else a
  }

  /** `Math.min(parseInt(limit || '50', 10), 200)`; `None` is `NaN`. */
  function LimitOf(q: Option<string>): (r: Option<int>)
    ensures r.None? <==> ParseInt(OrDefault(q, "50")).None?
    ensures r.Some? ==> r.value <= 200
    ensures r.Some? && ParseInt(OrDefault(q, "50")).value <= 200 ==> r.value == ParseInt(OrDefault(q, "50")).value
  {
    match ParseInt(OrDefault(q, "50"))
    case None => None
    case Some(v) => Some(Min(v, 200))
  }

  /** `Math.max(parseInt(page || '1', 10), 1)`; `None` is `NaN`. */
  function PageOf(q: Option<string>): (r: Option<int>)
    ensures r.None? <==> ParseInt(OrDefault(q, "1")).None?
    ensures r.Some? ==> r.value >= 1
    ensures r.Some? && ParseInt(OrDefault(q, "1")).value >= 1 ==> r.value == ParseInt(OrDefault(q, "1")).value
  {
    match ParseInt(OrDefault(q, "1"))
    case None => None
    case Some(v) => Some(Max(v, 1))
  }

  /** The digits of a natural number read back give that number. */
  lemma {:induction false} DigitsValueOfNatDigits(n: nat)
    ensures AllDigits(NatDigits(n)) && DigitsValue(NatDigits(n)) == n
  {
    if n >= 10 {
      DigitsValueOfNatDigits(n / 10);
      var d := NatDigits(n);
      assert d[..|d| - 1] == NatDigits(n / 10);
    }
  }

  /** A string of digits is its own digit prefix. */
  lemma DigitPrefixOfDigits(s: string)
    requires AllDigits(s)
    ensures DigitPrefix(s) == s
  {
  }

  /** A string that starts with a digit or a sign has no leading white space to skip. */
  lemma NoSpaceToTrim(s: string)
    requires s != [] && (IsDigit(s[0]) || s[0] == '-' || s[0] == '+')
    ensures TrimStart(s) == s
  {
    assert !IsSpace(s[0]);
  }

  /** `parseInt` of a plain string of digits. */
  lemma ParseDigits(d: string)
    requires d != [] && AllDigits(d)
    ensures ParseInt(d) == Some(DigitsValue(d))
  {
    NoSpaceToTrim(d);
    DigitPrefixOfDigits(d);
  }

  /** `parseInt` of a minus sign followed by digits. */
  lemma ParseNegative(d: string)
    requires d != [] && AllDigits(d)
    ensures ParseInt("-" + d) == Some(-(DigitsValue(d) as int))
  {
    var s := "-" + d;
    assert s[0] == '-' && s[1..] == d;
    NoSpaceToTrim(s);
    DigitPrefixOfDigits(d);
    assert DigitPrefix(TrimStart(s)[1..]) == d;
  }

  /** `parseInt(String(n), 10) == n` for every integer `n`. */
  lemma ParseDecimal(n: int)
    ensures ParseInt(IntToDecimal(n)) == Some(n)
  {
    if n < 0 {
      assert IntToDecimal(n) == "-" + NatDigits(-n);
      ParseNegativeDecimal(n);
    } else {
      assert IntToDecimal(n) == NatDigits(n);
      ParseNatDecimal(n);
    }
  }

  lemma ParseNatDecimal(n: nat)
    ensures ParseInt(NatDigits(n)) == Some(n)
  {
    DigitsValueOfNatDigits(n);
    ParseDigits(NatDigits(n));
  }

  lemma ParseNegativeDecimal(n: int)
    requires n < 0
    ensures ParseInt("-" + NatDigits(-n)) == Some(n)
  {
    var d := NatDigits(-n);
    DigitsValueOfNatDigits(-n);
    assert -(DigitsValue(d) as int) == n;
    ParseNegative(d);
  }

  /** Leading white space is skipped whatever follows it. */
  lemma {:induction false} TrimSkipsSpace(w: string, s: string)
    requires forall i :: 0 <= i < |w| ==> IsSpace(w[i])
    ensures TrimStart(w + s) == TrimStart(s)
  {
    if w == [] {
      assert w + s == s;
    } else {
      assert (w + s)[0] == w[0] && (w + s)[1..] == w[1..] + s;
      TrimSkipsSpace(w[1..], s);
    }
  }

  /** Leading white space never changes what `parseInt` reads. */
  lemma ParseSkipsSpace(w: string, s: string)
    requires forall i :: 0 <= i < |w| ==> IsSpace(w[i])
    ensures ParseInt(w + s) == ParseInt(s)
  {
    TrimSkipsSpace(w, s);
  }

  /** Reading stops at the first character that is not a digit: `parseInt("12abc")` is 12. */
  lemma {:induction false} DigitPrefixStops(d: string, rest: string)
    requires AllDigits(d) && (rest == [] || !IsDigit(rest[0]))
    ensures DigitPrefix(d + rest) == d
  {
    if d != [] {
      assert (d + rest)[1..] == d[1..] + rest;
      DigitPrefixStops(d[1..], rest);
    }
  }

  lemma ParseStopsAtNonDigit(n: nat, rest: string)
    requires rest == [] || !IsDigit(rest[0])
    ensures ParseInt(NatDigits(n) + rest) == Some(n)
  {
    var s := NatDigits(n) + rest;
    DigitsValueOfNatDigits(n);
    NoSpaceToTrim(s);
    assert s[0] != '-' && s[0] != '+';
    DigitPrefixStops(NatDigits(n), rest);
  }

  /** Without parameters the page holds 50 messages and is the first one. */
  lemma Defaults()
    ensures LimitOf(None) == Some(50) && PageOf(None) == Some(1)
    ensures LimitOf(Some("")) == Some(50) && PageOf(Some("")) == Some(1)
  {
    ParseFifty();
    ParseOne();
  }

  lemma ParseFifty()
    ensures ParseInt("50") == Some(50)
  {
    assert "50"[..1] == "5";
    assert DigitsValue("50") == 50;
    ParseDigits("50");
  }

  lemma ParseOne()
    ensures ParseInt("1") == Some(1)
  {
    assert DigitsValue("1") == 1;
    ParseDigits("1");
  }
}
