/** Integer defaults: strtol and friends with base 0, and SimpleItoa. */
module Numbers {
  import opened Names

  // ---------- printing ----------

  function DigitChar(d: nat): char
    requires d < 10
  {
    '0' + d as char
  }

  function Digits(n: nat): string {
    if n < 10 then [DigitChar(n)] else Digits(n / 10) + [DigitChar(n % 10)]
  }

  /** SimpleItoa. */
  function Itoa(v: int): string {
    if v < 0 then "-" + Digits(-v) else Digits(v)
  }

  // ---------- parsing ----------

  function DigitValue(c: char): (d: nat)
  {
    if '0' <= c <= '9' then (c - '0') as nat
    else if 'a' <= c <= 'f' then (c - 'a') as nat + 10
    else if 'A' <= c <= 'F' then (c - 'A') as nat + 10
    else 16
  }

  predicate AllDigits(base: nat, s: string) {
    forall c :: c in s ==> DigitValue(c) < base
  }

  function Magnitude(base: nat, s: string): nat {
    if s == "" then 0 else Magnitude(base, s[..|s| - 1]) * base + DigitValue(s[|s| - 1])
  }

  predicate Space(c: char) {
    c == ' ' || c == '\t' || c == '\n' || c == '\r' || c == 11 as char || c == 12 as char
  }

  function SkipSpaces(s: string): string {
    if s != "" && Space(s[0]) then SkipSpaces(s[1..]) else s
  }

  datatype Parsed = Junk | Number(negative: bool, magnitude: nat)

  /** What strtol(s, &end, 0) reads, when it stops exactly at the end of a non-empty text;
      Junk is the case that the builder reports as an unparsable default. */
  function ParseInteger(s: string): Parsed {
    var t := SkipSpaces(s);
    var negative := t != "" && t[0] == '-';
    var u := if t != "" && (t[0] == '-' || t[0] == '+') then t[1..] else t;
    if |u| >= 3 && u[0] == '0' && (u[1] == 'x' || u[1] == 'X') && AllDigits(16, u[2..]) then
      Number(negative, Magnitude(16, u[2..]))
    else if u != "" && u[0] == '0' && AllDigits(8, u) then
      Number(negative, Magnitude(8, u))
    else if u != "" && u[0] != '0' && AllDigits(10, u) then
      Number(negative, Magnitude(10, u))
    else Junk
  }

  /** A default as the builder reads it: as a C string, whose end it takes for the end of the number; only a text that
      is empty as a whole is refused for being empty. */
  function ParseDefault(text: string): Parsed {
    if text != "" && CStr(text) == "" then Number(false, 0) else ParseInteger(CStr(text))
  }

  /** strtol and strtoll: out-of-range values are clamped to a signed width. */
  function ClampSigned(p: Parsed, half: int): int
    requires p.Number?
  {
    var v: int := if p.negative then -(p.magnitude as int) else p.magnitude;
    if v < -half then -half else if v > half - 1 then half - 1 else v
  }

  /** strtoul and strtoull: too large is the maximum, and a minus sign negates modulo the width. */
  function ClampUnsigned(p: Parsed, width: nat): int
    requires p.Number? && width > 0
  {
    if p.magnitude > width - 1 then width - 1
    else if p.negative then (width - p.magnitude) % width
    else p.magnitude
  }

  // ---------- round trip ----------

  lemma {:induction false} DigitsParse(n: nat)
    ensures AllDigits(10, Digits(n)) && Magnitude(10, Digits(n)) == n
    ensures |Digits(n)| > 0 && '0' <= Digits(n)[0] <= '9'
    ensures Digits(n)[0] == '0' ==> n == 0
  {
    if n >= 10 {
      DigitsParse(n / 10);
      var d := Digits(n);
      assert d[..|d| - 1] == Digits(n / 10);
    } else {
      var d := Digits(n);
      assert d[..|d| - 1] == "" && Magnitude(10, "") == 0;
    }
  }

  lemma {:induction false} DigitsNulFree(n: nat)
    ensures NulFree(Digits(n))
  {
    if n >= 10 {
      DigitsNulFree(n / 10);
    }
  }

  lemma ItoaReads(v: int)
    ensures Itoa(v) != "" && ParseInteger(Itoa(v)) == Number(v < 0, if v < 0 then -v else v)
  {
    var n := if v < 0 then -v else v;
    DigitsParse(n);
    var s := Itoa(v);
    assert !Space(s[0]);
    assert SkipSpaces(s) == s;
    if v < 0 {
      assert s[1..] == Digits(n);
    }
    if n == 0 {
      assert Digits(0) == "0";
      assert Magnitude(8, "0") == Magnitude(8, "") * 8 + 0 by { assert "0"[..0] == ""; }
    }
  }

  /** A printed integer parses back to itself. */
  lemma ItoaParses(v: int)
    ensures NulFree(Itoa(v)) && ParseDefault(Itoa(v)) == Number(v < 0, if v < 0 then -v else v)
  {
    ItoaReads(v);
    DigitsNulFree(if v < 0 then -v else v);
    hide ParseInteger;
    CStrCuts(Itoa(v));
  }
}
