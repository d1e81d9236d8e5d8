/** NUL-terminated strings and the C library calls the server applies to them. */
module CStrings {

  /** The character classes the server's string calls look for. */
  datatype CharClass = Nul | Eol | Blank | NonBlank | Slash | NonSpace | NonDigit

  predicate Has(k: CharClass, c: char) {
    match k
    case Nul => c == '\0'
    case Eol => c == '\r' || c == '\n'
    case Blank => c == ' ' || c == '\t'
    case NonBlank => !(c == ' ' || c == '\t')
    case Slash => c == '/'
    case NonSpace => !(c == ' ' || '\t' <= c <= '\r')
    case NonDigit => !('0' <= c <= '9')
  }

  /** The first position at or after `from` that holds a character of class `k`, or the end. */
  function Find(s: string, from: nat, k: CharClass): (j: nat)
    requires from <= |s|
    ensures from <= j <= |s|
    ensures forall i | from <= i < j :: !Has(k, s[i])
    ensures j < |s| ==> Has(k, s[j])
    decreases |s| - from
  {
    if from == |s| || Has(k, s[from]) then from else Find(s, from + 1, k)
  }

  lemma FindIs(s: string, from: nat, k: CharClass, j: nat)
    requires from <= j <= |s|
    requires forall i | from <= i < j :: !Has(k, s[i])
    requires j < |s| ==> Has(k, s[j])
    ensures Find(s, from, k) == j
  {
  }

  /** The C string at offset `i` of a buffer. */
  function CStrAt(buf: string, i: nat): string {
    if i <= |buf| then buf[i..Find(buf, i, Nul)] else ""
  }

  /** The C string that starts at the first byte of `s`. */
  function CStr(s: string): string {
    s[..Find(s, 0, Nul)]
  }

  /** The C string at `i` ends, NUL included, before `bound`. */
  predicate EndsBefore(buf: string, i: nat, bound: nat) {
    i <= |buf| && Find(buf, i, Nul) < bound <= |buf|
  }

  /** A string that ends before `bound` depends on the first `bound` bytes only. */
  lemma CStrAtStable(a: string, b: string, i: nat, bound: nat)
    requires EndsBefore(a, i, bound)
    requires bound <= |b| && a[..bound] == b[..bound]
    ensures CStrAt(b, i) == CStrAt(a, i)
    ensures EndsBefore(b, i, bound)
  {
    var n := Find(a, i, Nul);
    assert forall j | i <= j <= n :: b[j] == a[..bound][j] == a[j];
    FindIs(b, i, Nul, n);
  }

  /** What is left of the C string `text` at offset `from` after a NUL is written at offset `at`. */
  function CutAt(text: string, from: int, at: int): string {
    if from <= at < from + |text| then text[..at - from] else text
  }

  /** A NUL written anywhere cuts a string if it falls inside it and leaves it alone otherwise. */
  lemma NulCuts(a: string, b: string, i: nat, bound: nat, at: int)
    requires EndsBefore(a, i, bound) && bound <= |b|
    requires forall j | 0 <= j < bound :: b[j] == if j == at then '\0' else a[j]
    ensures CStrAt(b, i) == CutAt(CStrAt(a, i), i, at)
    ensures EndsBefore(b, i, bound)
  {
    var n := Find(a, i, Nul);
    var m := if i <= at < n then at else n;
    FindIs(b, i, Nul, m);
    assert CStrAt(b, i) == b[i..m] && CStrAt(a, i) == a[i..n];
    var cut := CutAt(a[i..n], i, at);
    assert |cut| == m - i;
    forall j | 0 <= j < m - i ensures b[i..m][j] == cut[j] {
      assert b[i + j] == a[i + j];
    }
  }

  /** What follows leading blanks. */
  function SkipBlanks(s: string): string {
    s[Find(s, 0, NonBlank)..]
  }

  function Lower(c: char): char {
    if 'A' <= c <= 'Z' then (c as int + 32) as char else c
  }

  /** strcasecmp(a, b) == 0 */
  predicate EqNoCase(a: string, b: string) {
    |a| == |b| && forall i | 0 <= i < |a| :: Lower(a[i]) == Lower(b[i])
  }

  /** strncasecmp(s, prefix, |prefix|) == 0 */
  predicate StartsNoCase(s: string, prefix: string) {
    |prefix| <= |s| && EqNoCase(s[..|prefix|], prefix)
  }

  // ---- numbers ----

  const LONG_MAX: int := 0x7fff_ffff_ffff_ffff
  const INT_MAX: int := 0x7fff_ffff

  function DigitValue(c: char): int {
    c as int - '0' as int
  }

  function DecValue(ds: string): int {
    if ds == "" then 0 else DecValue(ds[..|ds| - 1]) * 10 + DigitValue(ds[|ds| - 1])
  }

  /** Conversion of a long to a 32-bit int. */
  function ToInt32(n: int): (r: int)
    ensures -INT_MAX - 1 <= r <= INT_MAX
    ensures -INT_MAX - 1 <= n <= INT_MAX ==> r == n
  {
    (n + INT_MAX + 1) % 0x1_0000_0000 - INT_MAX - 1
  }

  /** atol, saturating like glibc's strtol, stored in an int. */
  function AtolInt(s: string): int {
    var t := s[Find(s, 0, NonSpace)..];
    var neg := t != "" && t[0] == '-';
    var u := if neg || (t != "" && t[0] == '+') then t[1..] else t;
    var v := DecValue(u[..Find(u, 0, NonDigit)]);
    ToInt32(if neg then (if v > LONG_MAX then -LONG_MAX - 1 else -v)
            else if v > LONG_MAX then LONG_MAX else v)
  }

  /** printf("%d") of a non-negative number. */
  function Decimal(n: nat): (s: string)
    ensures s != "" && forall i | 0 <= i < |s| :: '0' <= s[i] <= '9'
  {
    if n < 10 then [(n + '0' as int) as char] else Decimal(n / 10) + [(n % 10 + '0' as int) as char]
  }

  /** printf("%d") of an int. */
  function FormatInt(n: int): string {
    if n < 0 then "-" + Decimal(-n) else Decimal(n)
  }

  lemma {:induction false} DecValueOfDecimal(n: nat)
    ensures DecValue(Decimal(n)) == n
  {
    if n < 10 {
      assert Decimal(n)[..0] == "";
    } else {
      DecValueOfDecimal(n / 10);
      assert Decimal(n)[..|Decimal(n)| - 1] == Decimal(n / 10);
    }
  }

  /** atol reads back exactly what printf("%d") wrote, over the whole range of int. */
  lemma AtolInvertsFormat(n: int)
    requires -INT_MAX - 1 <= n <= INT_MAX
    ensures AtolInt(FormatInt(n)) == n
  {
    hide Decimal, DecValue;
    var s := FormatInt(n);
    var d := Decimal(if n < 0 then -n else n);
    DecValueOfDecimal(if n < 0 then -n else n);
    FindIs(s, 0, NonSpace, 0);
    assert s[0..] == s;
    FindIs(d, 0, NonDigit, |d|);
    assert d[..|d|] == d;
    assert n < 0 ==> s[1..] == d;
  }
}
