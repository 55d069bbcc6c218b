/** Character classes, decimal numbers and the scanf conversions the server relies on.
    A byte string is a Dafny string. */
module Text {

  datatype Option<+T> = None | Some(value: T) {
    predicate IsFailure() { None? }

    function PropagateFailure<U>(): Option<U>
      requires None?
    {
      None
    }

    function Extract(): T
      requires Some?
    {
      value
    }
  }

  /** isspace in the C locale. */
  predicate IsSpace(c: char) {
    c == ' ' || 9 <= c as int <= 13
  }

  predicate IsDigit(c: char) {
    '0' <= c <= '9'
  }

  /** Where "%s" stops: at white space, and in sscanf at the end of the C string. */
  predicate EndsToken(c: char) {
    IsSpace(c) || c == '\0'
  }

  /** What "%<max>s" reads back whole: one non-empty word of at most max bytes. */
  predicate IsToken(s: string, max: nat) {
    0 < |s| <= max && forall c :: c in s ==> !EndsToken(c)
  }

  /** A C string that fits a buffer of max + 1 bytes. */
  predicate IsCString(s: string, max: nat) {
    |s| <= max && '\0' !in s
  }

  // ---------------------------------------------------------------- printf

  function Digit(d: nat): char
    requires d < 10
  {
    ('0' as int + d) as char
  }

  /** printf "%u". */
  function DecNat(n: nat): (s: string)
    ensures |s| > 0
    ensures forall c :: c in s ==> IsDigit(c)
  {
    if n < 10 then [Digit(n)] else DecNat(n / 10) + [Digit(n % 10)]
  }

  /** printf "%d". */
  function Dec(n: int): (s: string)
    ensures |s| > 0
    ensures forall c :: c in s ==> IsDigit(c) || c == '-'
  {
    if n < 0 then "-" + DecNat(-n) else DecNat(n)
  }

  /** What snprintf leaves in a buffer of this size. */
  function Snprintf(size: nat, s: string): string
    requires size > 0
  {
    if |s| < size then s else s[..size - 1]
  }

  function Pow10(k: nat): nat {
    if k == 0 then 1 else 10 * Pow10(k - 1)
  }

  lemma {:induction false} DecNatLength(n: nat, k: nat)
    requires k > 0 && n < Pow10(k)
    ensures |DecNat(n)| <= k
  {
    if n >= 10 {
      assert k > 1;
      DecNatLength(n / 10, k - 1);
    }
  }

  const INT_MIN := -0x8000_0000
  const INT_MAX := 0x7fff_ffff
  const UINT_MAX := 0xffff_ffff

  predicate IsInt32(n: int) {
    INT_MIN <= n <= INT_MAX
  }

  predicate IsUint32(n: int) {
    0 <= n <= UINT_MAX
  }

  lemma DecLengths(n: int)
    ensures IsInt32(n) ==> |Dec(n)| <= 11
    ensures IsUint32(n) ==> |Dec(n)| <= 10
  {
    assert Pow10(10) == 10_000_000_000 by {
      assert Pow10(5) == 100_000;
      assert Pow10(7) == 10_000_000;
      assert Pow10(9) == 1_000_000_000;
    }
    if -10_000_000_000 < n < 10_000_000_000 {
      DecNatLength(if n < 0 then -n else n, 10);
    }
  }

  // ----------------------------------------------------------------- scanf

  function SkipSpaces(s: string): (r: string)
    ensures |r| <= |s|
    ensures r == "" || !IsSpace(r[0])
  {
    if s != "" && IsSpace(s[0]) then SkipSpaces(s[1..]) else s
  }

  /** Length of the word at the start of s, cut at max bytes. */
  function TokenLength(s: string, max: nat): (n: nat)
    ensures n <= |s| && n <= max
    ensures forall i :: 0 <= i < n ==> !EndsToken(s[i])
    ensures n == |s| || n == max || EndsToken(s[n])
  {
    if s == "" || max == 0 || EndsToken(s[0]) then 0 else 1 + TokenLength(s[1..], max - 1)
  }

  /** The conversion "%<max>s": the token read and the input left. */
  function ScanToken(s: string, max: nat): (r: Option<(string, string)>)
    ensures r.Some? ==> IsToken(r.value.0, max) && |r.value.1| < |s|
  {
    var t := SkipSpaces(s);
    var n := TokenLength(t, max);
    if n == 0 then None else Some((t[..n], t[n..]))
  }

  function ScanDigits(s: string, acc: nat): (r: (nat, string))
    ensures |r.1| <= |s|
  {
    if s != "" && IsDigit(s[0]) then ScanDigits(s[1..], 10 * acc + (s[0] as int - '0' as int)) else (acc, s)
  }

  /** The common part of "%d" and "%u": optional sign, at least one digit. */
  function ScanInt(s: string): (r: Option<(int, string)>)
    ensures r.Some? ==> |r.value.1| < |s|
  {
    var t := SkipSpaces(s);
    var u := if t != "" && (t[0] == '-' || t[0] == '+') then t[1..] else t;
    if u == "" || !IsDigit(u[0]) then None
    else
      var digits := ScanDigits(u[1..], u[0] as int - '0' as int);
      var v: int := digits.0;
      Some((if t[0] == '-' then -v else v, digits.1))
  }

  /** A value stored through an int pointer. */
  function ToInt32(v: int): (r: int)
    ensures IsInt32(r) && (IsInt32(v) ==> r == v)
  {
    (v + 0x8000_0000) % 0x1_0000_0000 - 0x8000_0000
  }

  /** A value stored through an unsigned int pointer. */
  function ToUint32(v: int): (r: nat)
    ensures IsUint32(r) && (IsUint32(v) ==> r == v)
  {
    v % 0x1_0000_0000
  }

  // ---------------------------------------------- scanf undoes printf

  lemma {:induction false} TokenLengthWhole(tok: string, rest: string, max: nat)
    requires |tok| <= max && forall c :: c in tok ==> !EndsToken(c)
    requires rest == "" || IsSpace(rest[0])
    ensures TokenLength(tok + rest, max) == |tok|
  {
    if tok == "" {
      assert tok + rest == rest;
    } else {
      assert (tok + rest)[1..] == tok[1..] + rest;
      TokenLengthWhole(tok[1..], rest, max - 1);
    }
  }

  lemma ScanTokenWhole(s: string, tok: string, rest: string, max: nat)
    requires IsToken(tok, max) && SkipSpaces(s) == tok + rest
    requires rest == "" || IsSpace(rest[0])
    ensures ScanToken(s, max) == Some((tok, rest))
  {
    TokenLengthWhole(tok, rest, max);
    assert (tok + rest)[..|tok|] == tok && (tok + rest)[|tok|..] == rest;
  }

  lemma {:induction false} ScanDigitsDecNat(n: nat, rest: string)
    ensures ScanDigits(DecNat(n) + rest, 0) == ScanDigits(rest, n)
  {
    if n < 10 {
      assert (DecNat(n) + rest)[1..] == rest;
    } else {
      var d := [Digit(n % 10)];
      assert DecNat(n) + rest == DecNat(n / 10) + (d + rest);
      ScanDigitsDecNat(n / 10, d + rest);
      assert (d + rest)[1..] == rest;
    }
  }

  lemma ScanFirstDigit(u: string, m: nat, rest: string)
    requires u != "" && IsDigit(u[0]) && ScanDigits(u, 0) == ScanDigits(rest, m)
    requires rest == "" || !IsDigit(rest[0])
    ensures ScanDigits(u[1..], u[0] as int - '0' as int) == (m, rest)
  {
  }

  lemma ScanIntDec(s: string, n: int, rest: string)
    requires SkipSpaces(s) == Dec(n) + rest
    requires rest == "" || !IsDigit(rest[0])
    ensures ScanInt(s) == Some((n, rest))
  {
    hide DecNat, SkipSpaces;
    var m: nat := if n < 0 then -n else n;
    var u := DecNat(m) + rest;
    var t := Dec(n) + rest;
    assert IsDigit(u[0]) by { assert u[0] == DecNat(m)[0]; }
    assert (if n < 0 then t[1..] else t) == u;
    ScanDigitsDecNat(m, rest);
    ScanFirstDigit(u, m, rest);
  }

  lemma SkipOneSpace(c: char, s: string)
    requires IsSpace(c) && (s == "" || !IsSpace(s[0]))
    ensures SkipSpaces([c] + s) == s
  {
    assert ([c] + s)[1..] == s;
  }

  lemma ScanNextToken(tok: string, rest: string, max: nat)
    requires IsToken(tok, max) && (rest == "" || IsSpace(rest[0]))
    ensures ScanToken(" " + (tok + rest), max) == Some((tok, rest))
  {
    assert (tok + rest)[0] == tok[0] && tok[0] in tok;
    SkipOneSpace(' ', tok + rest);
    ScanTokenWhole(" " + (tok + rest), tok, rest, max);
  }

  lemma ScanNextInt(n: int, rest: string)
    requires rest == "" || !IsDigit(rest[0])
    ensures ScanInt(" " + (Dec(n) + rest)) == Some((n, rest))
  {
    assert (Dec(n) + rest)[0] == Dec(n)[0] && Dec(n)[0] in Dec(n);
    SkipOneSpace(' ', Dec(n) + rest);
    ScanIntDec(" " + (Dec(n) + rest), n, rest);
  }
}
