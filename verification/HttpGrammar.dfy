/** A grammar of request heads, in plain characters, and the proof that the reference reading accepts
    exactly what the grammar says. It uses none of the functions the parser and the reference share:
    letters agree up to case, gaps are runs of blanks and tabs, lines end at CRLF and their text at a NUL,
    and numbers are sums of powers of ten. */
module HttpGrammar {
  import opened CStrings
  import opened HttpReference

  // ---- characters ----

  /** The same character, or the same letter in the other case. */
  predicate SameLetter(a: char, b: char) {
    || a == b
    || ('a' <= a <= 'z' && a as int == b as int + 32)
    || ('a' <= b <= 'z' && b as int == a as int + 32)
  }

  predicate Spells(text: string, word: string) {
    |text| == |word| && forall i | 0 <= i < |text| :: SameLetter(text[i], word[i])
  }

  predicate BlankChar(c: char) {
    c == ' ' || c == '\t'
  }

  /** Blanks and tabs only. */
  predicate Gap(s: string) {
    forall i | 0 <= i < |s| :: BlankChar(s[i])
  }

  /** No blank and no tab. */
  predicate Solid(s: string) {
    forall i | 0 <= i < |s| :: !BlankChar(s[i])
  }

  predicate OneLine(s: string) {
    '\r' !in s && '\n' !in s
  }

  /** Text that may stand on a line and in a C string. */
  predicate Printable(s: string) {
    OneLine(s) && '\0' !in s
  }

  // ---- the request line ----

  ghost predicate WithAuthority(target: string, url: string, scheme: string, authority: string) {
    target == scheme + authority + url && Spells(scheme, "http://") && '/' !in authority
  }

  /** A request target with this absolute path: the path itself, or behind http:// and an authority. */
  ghost predicate TargetWith(target: string, url: string) {
    && url != "" && url[0] == '/'
    && (target == url || exists scheme, authority :: WithAuthority(target, url, scheme, authority))
  }

  ghost predicate LineParts(line: string, url: string, verb: string, gap: string, target: string, gap': string,
                            version: string)
  {
    && line == verb + gap + target + gap' + version
    && Spells(verb, "GET") && Spells(version, "HTTP/1.1")
    && gap != "" && Gap(gap) && gap' != "" && Gap(gap')
    && Solid(target) && TargetWith(target, url)
  }

  /** GET, a target with this path, and HTTP/1.1, in any letter case, with gaps between them. */
  ghost predicate RequestLineOf(line: string, url: string) {
    exists verb, gap, target, gap', version :: LineParts(line, url, verb, gap, target, gap', version)
  }

  lemma SpellsIs(text: string, word: string)
    ensures EqNoCase(text, word) <==> Spells(text, word)
  {
    if |text| == |word| {
      forall i | 0 <= i < |text| ensures Lower(text[i]) == Lower(word[i]) <==> SameLetter(text[i], word[i]) {
      }
    }
  }

  lemma StartsSpelling(s: string, word: string)
    ensures StartsNoCase(s, word) <==> |word| <= |s| && Spells(s[..|word|], word)
  {
    hide EqNoCase, Spells;
    if |word| <= |s| { SpellsIs(s[..|word|], word); }
  }

  lemma PathGrammar(target: string, url: string)
    ensures AbsPath(target) == Some(url) <==> TargetWith(target, url)
  {
    StartsSpelling(target, "http://");
    if AbsPath(target) == Some(url) { PathParts(target, url); }
    if TargetWith(target, url) { PathReads(target, url); }
  }

  lemma PathParts(target: string, url: string)
    requires AbsPath(target) == Some(url)
    ensures TargetWith(target, url)
  {
    StartsSpelling(target, "http://");
    hide StartsNoCase, Spells;
    if StartsNoCase(target, "http://") {
      var k := Find(target[7..], 0, Slash);
      assert target[..7] + target[7..][..k] + target[7 + k..] == target;
      assert WithAuthority(target, url, target[..7], target[7..][..k]);
    } else {
      assert target[0..] == target;
    }
  }

  lemma NoScheme(url: string)
    requires url != "" && url[0] == '/'
    ensures !StartsNoCase(url, "http://")
  {
    if StartsNoCase(url, "http://") { NameChar(url, "http://", 0); }
  }

  lemma PathReads(target: string, url: string)
    requires TargetWith(target, url)
    ensures AbsPath(target) == Some(url)
  {
    StartsSpelling(target, "http://");
    if target == url {
      NoScheme(url);
      assert target[0..] == target;
    } else {
      var scheme, authority :| WithAuthority(target, url, scheme, authority);
      assert target[..7] == scheme && target[7..] == authority + url;
      hide Spells;
      FindIs(target[7..], 0, Slash, |authority|);
      assert target[7 + |authority|..] == url;
    }
  }

  lemma LineReads(line: string, url: string, verb: string, gap: string, target: string, gap': string,
                  version: string)
    requires LineParts(line, url, verb, gap, target, gap', version)
    ensures RequestTarget(line) == Some(url)
  {
    hide EqNoCase, Spells, AbsPath, TargetWith, Find, SkipBlanks, RequestTarget, Solid, Gap;
    SpellsIs(verb, "GET");
    SpellsIs(version, "HTTP/1.1");
    PathGrammar(target, url);
    SolidWord(verb, "GET");
    SolidWord(version, "HTTP/1.1");
    PathNotEmpty(target, url);
    var rest := target + gap' + version;
    SolidStart(version, version);
    SolidStart(target, rest);
    CutOff(verb, gap, rest);
    CutOff(target, gap', version);
    assert verb + gap + target + gap' + version == verb + gap + rest;
    ReadsBy(line, |verb|, rest, |target|);
  }

  lemma PathNotEmpty(target: string, url: string)
    requires TargetWith(target, url)
    ensures target != ""
  {
    hide Spells;
  }

  lemma SolidStart(solid: string, s: string)
    requires Solid(solid) && solid != "" && solid <= s
    ensures s != "" && !BlankChar(s[0])
  {
    assert s[0] == solid[0];
  }

  /** The first word and the gap behind it. */
  lemma CutOff(solid: string, gap: string, rest: string)
    requires Solid(solid) && gap != "" && Gap(gap) && rest != "" && !BlankChar(rest[0])
    ensures var s, k := solid + gap + rest, |solid|;
      k < |s| && Find(s, 0, Blank) == k && s[..k] == solid && SkipBlanks(s[k + 1..]) == rest
  {
    assert gap == [gap[0]] + gap[1..];
    Split(solid, gap[0], gap[1..] + rest);
    assert solid + gap + rest == solid + [gap[0]] + (gap[1..] + rest);
    Skip(gap[1..], rest);
  }

  lemma ReadsBy(line: string, i: nat, rest: string, k: nat)
    requires Find(line, 0, Blank) == i < |line| && EqNoCase(line[..i], "GET") && SkipBlanks(line[i + 1..]) == rest
    requires Find(rest, 0, Blank) == k < |rest| && EqNoCase(SkipBlanks(rest[k + 1..]), "HTTP/1.1")
    ensures RequestTarget(line) == AbsPath(rest[..k])
  {
    hide EqNoCase, AbsPath, Find, SkipBlanks;
  }

  lemma SolidWord(text: string, word: string)
    requires Spells(text, word) && word in {"GET", "HTTP/1.1"}
    ensures Solid(text) && text != ""
  {
    forall i | 0 <= i < |text| ensures !BlankChar(text[i]) {
      assert SameLetter(text[i], word[i]);
    }
  }

  /** The first blank splits a line. */
  lemma Split(solid: string, blank: char, rest: string)
    requires Solid(solid) && BlankChar(blank)
    ensures var s := solid + [blank] + rest;
      Find(s, 0, Blank) == |solid| && s[..|solid|] == solid && s[|solid| + 1..] == rest
  {
    FindIs(solid + [blank] + rest, 0, Blank, |solid|);
  }

  lemma Skip(gap: string, rest: string)
    requires Gap(gap) && rest != "" && !BlankChar(rest[0])
    ensures SkipBlanks(gap + rest) == rest
  {
    FindIs(gap + rest, 0, NonBlank, |gap|);
  }

  /** What SkipBlanks skips is a gap, and what it leaves does not start with one. */
  lemma Skipped(s: string) returns (gap: string)
    ensures Gap(gap) && s == gap + SkipBlanks(s)
    ensures SkipBlanks(s) != "" ==> !BlankChar(SkipBlanks(s)[0])
  {
    gap := s[..Find(s, 0, NonBlank)];
  }

  lemma SplitAt(s: string) returns (solid: string)
    requires Find(s, 0, Blank) < |s|
    ensures var k := Find(s, 0, Blank); Solid(solid) && solid == s[..k] && BlankChar(s[k])
    ensures var k := Find(s, 0, Blank); s == solid + [s[k]] + s[k + 1..]
  {
    solid := s[..Find(s, 0, Blank)];
  }

  lemma LineSplits(line: string, url: string)
    requires RequestTarget(line) == Some(url)
    ensures RequestLineOf(line, url)
  {
    hide EqNoCase, AbsPath, Find, SkipBlanks;
    var i := Find(line, 0, Blank);
    var verb := SplitAt(line);
    var after := line[i + 1..];
    var gap := Skipped(after);
    var rest := SkipBlanks(after);
    var k := Find(rest, 0, Blank);
    var target := SplitAt(rest);
    var gap' := Skipped(rest[k + 1..]);
    var version := SkipBlanks(rest[k + 1..]);
    PathGrammar(target, url);
    SpellsIs(verb, "GET");
    SpellsIs(version, "HTTP/1.1");
    hide TargetWith, Spells;
    GapCons(line[i], gap);
    GapCons(rest[k], gap');
    Joined(verb, line[i], gap, target, rest[k], gap', version);
    assert LineParts(line, url, verb, [line[i]] + gap, target, [rest[k]] + gap', version);
  }

  lemma GapCons(c: char, gap: string)
    requires BlankChar(c) && Gap(gap)
    ensures Gap([c] + gap)
  {
  }

  lemma Joined(a: string, x: char, b: string, c: string, y: char, d: string, e: string)
    ensures a + [x] + (b + (c + [y] + (d + e))) == a + ([x] + b) + c + ([y] + d) + e
  {
  }

  /** The reference accepts a request line, with this URL, exactly if it has that form. */
  lemma RequestLineGrammar(line: string, url: string)
    ensures RequestTarget(line) == Some(url) <==> RequestLineOf(line, url)
  {
    hide RequestTarget;
    if RequestTarget(line) == Some(url) { LineSplits(line, url); }
    if RequestLineOf(line, url) {
      var verb, gap, target, gap', version :| LineParts(line, url, verb, gap, target, gap', version);
      LineReads(line, url, verb, gap, target, gap', version);
    }
  }

  // ---- header lines ----

  ghost predicate FieldParts(line: string, name: string, value: string, word: string, gap: string) {
    && line == word + gap + value && Spells(word, name) && Gap(gap)
    && (value != "" ==> !BlankChar(value[0]))
  }

  /** A header line with this name, in any letter case, and this value behind any gap. */
  ghost predicate Field(line: string, name: string, value: string) {
    exists word, gap :: FieldParts(line, name, value, word, gap)
  }

  /** Some Connection header says keep-alive. */
  ghost predicate AsksToStay(headers: seq<string>) {
    exists i, v :: 0 <= i < |headers| && Field(headers[i], "Connection:", v) && Spells(v, "keep-alive")
  }

  ghost predicate NoField(headers: seq<string>, name: string, from: nat) {
    forall i, v | from <= i < |headers| :: !Field(headers[i], name, v)
  }

  /** The value of the last header with this name. */
  ghost predicate LastField(headers: seq<string>, name: string, value: Option<string>) {
    match value
    case None => NoField(headers, name, 0)
    case Some(v) => exists i :: 0 <= i < |headers| && Field(headers[i], name, v) && NoField(headers, name, i + 1)
  }

  lemma FieldGrammar(line: string, name: string, value: string)
    ensures StartsNoCase(line, name) && SkipBlanks(line[|name|..]) == value <==> Field(line, name, value)
  {
    StartsSpelling(line, name);
    hide StartsNoCase, Spells, SkipBlanks;
    if |name| <= |line| && Spells(line[..|name|], name) && SkipBlanks(line[|name|..]) == value {
      FieldSplits(line, name, value);
    }
    if Field(line, name, value) {
      var word, gap :| FieldParts(line, name, value, word, gap);
      FieldReads(line, name, value, word, gap);
    }
  }

  lemma FieldSplits(line: string, name: string, value: string)
    requires |name| <= |line| && Spells(line[..|name|], name) && SkipBlanks(line[|name|..]) == value
    ensures Field(line, name, value)
  {
    hide Spells, SkipBlanks;
    var gap := Skipped(line[|name|..]);
    assert line == line[..|name|] + gap + value;
    assert FieldParts(line, name, value, line[..|name|], gap);
  }

  lemma FieldReads(line: string, name: string, value: string, word: string, gap: string)
    requires FieldParts(line, name, value, word, gap)
    ensures |name| <= |line| && Spells(line[..|name|], name) && SkipBlanks(line[|name|..]) == value
  {
    assert |word| == |name|;
    hide Spells, SkipBlanks;
    assert line[..|name|] == word && line[|name|..] == gap + value;
    SkipTo(gap, value);
  }

  lemma SkipTo(gap: string, value: string)
    requires Gap(gap) && (value != "" ==> !BlankChar(value[0]))
    ensures SkipBlanks(gap + value) == value
  {
    FindIs(gap + value, 0, NonBlank, |gap|);
  }

  lemma StayGrammar(headers: seq<string>)
    ensures KeepsAlive(headers) <==> AsksToStay(headers)
  {
    hide StartsNoCase, EqNoCase, SkipBlanks, Field, Spells;
    forall i, v | 0 <= i < |headers|
      ensures Field(headers[i], "Connection:", v) && Spells(v, "keep-alive") ==> IsKeepAlive(headers[i])
    {
      FieldGrammar(headers[i], "Connection:", v);
      SpellsIs(v, "keep-alive");
    }
    if i :| 0 <= i < |headers| && IsKeepAlive(headers[i]) {
      StartsSpelling(headers[i], "Connection:");
      var v := SkipBlanks(headers[i][11..]);
      FieldGrammar(headers[i], "Connection:", v);
      SpellsIs(v, "keep-alive");
      assert Field(headers[i], "Connection:", v);
    }
  }

  lemma {:induction false} LastIs(headers: seq<string>, name: string)
    ensures LastField(headers, name, LastValue(headers, name))
    decreases |headers|
  {
    hide StartsNoCase, SkipBlanks, Field;
    if headers != [] {
      var last := |headers| - 1;
      LastIs(headers[..last], name);
      StartsSpelling(headers[last], name);
      if StartsNoCase(headers[last], name) {
        FieldGrammar(headers[last], name, SkipBlanks(headers[last][|name|..]));
      } else {
        forall v ensures !Field(headers[last], name, v) { FieldGrammar(headers[last], name, v); }
        NoneAtEnd(headers, headers[last], name, LastValue(headers, name));
      }
    }
  }

  lemma NoneAtEnd(headers: seq<string>, last: string, name: string, value: Option<string>)
    requires headers != [] && last == headers[|headers| - 1] && forall v :: !Field(last, name, v)
    requires LastField(headers[..|headers| - 1], name, value)
    ensures LastField(headers, name, value)
  {
    hide Field;
    var before := headers[..|headers| - 1];
    assert forall i | 0 <= i < |before| :: before[i] == headers[i];
    if value.Some? {
      var i :| 0 <= i < |before| && Field(before[i], name, value.value) && NoField(before, name, i + 1);
      assert Field(headers[i], name, value.value);
    }
  }

  /** There is only one such value. */
  lemma LastOnce(headers: seq<string>, name: string, a: Option<string>, b: Option<string>)
    requires LastField(headers, name, a) && LastField(headers, name, b)
    ensures a == b
  {
    hide Field;
    if a.Some? && b.Some? {
      var i :| 0 <= i < |headers| && Field(headers[i], name, a.value) && NoField(headers, name, i + 1);
      var j :| 0 <= j < |headers| && Field(headers[j], name, b.value) && NoField(headers, name, j + 1);
      assert i == j;
      FieldGrammar(headers[i], name, a.value);
      FieldGrammar(headers[i], name, b.value);
    }
  }

  lemma LastGrammar(headers: seq<string>, name: string, value: Option<string>)
    ensures LastValue(headers, name) == value <==> LastField(headers, name, value)
  {
    hide LastField, LastValue;
    LastIs(headers, name);
    if LastField(headers, name, value) { LastOnce(headers, name, value, LastValue(headers, name)); }
  }

  // ---- numbers ----

  /** A blank, or one of the five control characters from the tab to the carriage return. */
  predicate SpaceChar(c: char) {
    c == ' ' || c == '\t' || c == '\n' || c == '\U{0b}' || c == '\U{0c}' || c == '\r'
  }

  predicate Digits(s: string) {
    forall i | 0 <= i < |s| :: '0' <= s[i] <= '9'
  }

  function TenTo(k: nat): nat {
    if k == 0 then 1 else 10 * TenTo(k - 1)
  }

  /** The sum of the digits' worth by place, from the left. */
  function Worth(digits: string): int {
    if digits == "" then 0
    else (digits[0] as int - '0' as int) * TenTo(|digits| - 1) + Worth(digits[1..])
  }

  /** As a long, at its bounds when it does not fit. */
  function Clipped(n: int): int {
    if n < -0x8000_0000_0000_0000 then -0x8000_0000_0000_0000
    else if n > 0x7fff_ffff_ffff_ffff then 0x7fff_ffff_ffff_ffff
    else n
  }

  /** The int whose 32 bits are the low ones of `n`. */
  predicate LowBits(n: int, r: int) {
    -0x8000_0000 <= r < 0x8000_0000 && (n - r) % 0x1_0000_0000 == 0
  }

  function Signed(sign: string, digits: string): int {
    if sign == "-" then 0 - Worth(digits) else Worth(digits)
  }

  ghost predicate NumberParts(text: string, n: int, space: string, sign: string, digits: string, rest: string) {
    && text == space + sign + digits + rest
    && (forall i | 0 <= i < |space| :: SpaceChar(space[i]))
    && sign in {"", "+", "-"} && Digits(digits)
    && (rest != "" ==> !('0' <= rest[0] <= '9'))
    && (sign == "" && digits == "" && rest != "" ==> !SpaceChar(rest[0]) && rest[0] != '+' && rest[0] != '-')
    && LowBits(Clipped(Signed(sign, digits)), n)
  }

  /** A number as atol reads it into an int. */
  ghost predicate Number(text: string, n: int) {
    exists space, sign, digits, rest :: NumberParts(text, n, space, sign, digits, rest)
  }

  lemma {:induction false} WorthAppend(digits: string, c: char)
    requires Digits(digits + [c]) && Digits(digits) && '0' <= c <= '9'
    ensures Worth(digits + [c]) == Worth(digits) * 10 + (c as int - '0' as int)
    decreases |digits|
  {
    var all := digits + [c];
    if digits == "" {
      assert all[1..] == "" && all[0] == c && TenTo(0) == 1;
    } else {
      assert all[1..] == digits[1..] + [c];
      WorthAppend(digits[1..], c);
      var d, m := digits[0] as int - '0' as int, TenTo(|digits| - 1);
      assert TenTo(|digits|) == 10 * m;
      assert d * (10 * m) == 10 * (d * m);
    }
  }

  lemma {:induction false} WorthIs(digits: string)
    requires Digits(digits)
    ensures DecValue(digits) == Worth(digits) >= 0
    decreases |digits|
  {
    if digits != "" {
      var last := |digits| - 1;
      WorthIs(digits[..last]);
      WorthAppend(digits[..last], digits[last]);
      assert digits[..last] + [digits[last]] == digits;
    }
  }

  lemma LowBitsIs(n: int, r: int)
    ensures ToInt32(n) == r <==> LowBits(n, r)
  {
    var m, h := 0x1_0000_0000, 0x8000_0000;
    assert (n + h) / m * m + (n + h) % m == n + h;
    if LowBits(n, r) {
      var q := (n - r) / m;
      assert n + h == m * q + (r + h);
    }
    if ToInt32(n) == r {
      assert n - r == (n + h) / m * m;
    }
  }

  /** atol reads exactly that number. */
  lemma NumberGrammar(text: string, n: int)
    ensures AtolInt(text) == n <==> Number(text, n)
  {
    if Number(text, n) {
      var space, sign, digits, rest :| NumberParts(text, n, space, sign, digits, rest);
      NumberReads(text, n, space, sign, digits, rest);
    }
    if AtolInt(text) == n { NumberSplits(text, n); }
  }

  /** atol's steps, given where they stop. */
  lemma AtolBy(text: string, i: nat, sign: string, k: nat)
    requires Find(text, 0, NonSpace) == i && i + |sign| <= |text| && text[i..i + |sign|] == sign
    requires sign in {"", "+", "-"} && (sign == "" && i < |text| ==> text[i] != '+' && text[i] != '-')
    requires Find(text[i + |sign|..], 0, NonDigit) == k
    ensures var digits := text[i + |sign|..][..k];
      Digits(digits) && AtolInt(text) == ToInt32(Clipped(Signed(sign, digits)))
  {
    hide ToInt32, Find, DecValue, Worth;
    var digits := text[i + |sign|..][..k];
    DigitsBefore(text[i + |sign|..], k);
    SignAt(text, i, sign);
    WorthIs(digits);
  }

  lemma DigitsBefore(u: string, k: nat)
    requires Find(u, 0, NonDigit) == k
    ensures Digits(u[..k])
  {
  }

  lemma SignAt(text: string, i: nat, sign: string)
    requires i + |sign| <= |text| && text[i..i + |sign|] == sign
    ensures text[i..][|sign|..] == text[i + |sign|..]
    ensures sign != "" ==> text[i] == sign[0]
  {
    assert sign != "" ==> text[i] == text[i..i + |sign|][0];
  }

  lemma NumberReads(text: string, n: int, space: string, sign: string, digits: string, rest: string)
    requires NumberParts(text, n, space, sign, digits, rest)
    ensures AtolInt(text) == n
  {
    hide ToInt32, LowBits, Clipped, AtolInt, Signed;
    var i := |space|;
    NumberPlaces(text, n, space, sign, digits, rest);
    AtolBy(text, i, sign, |digits|);
    LowBitsIs(Clipped(Signed(sign, digits)), n);
  }

  lemma NumberPlaces(text: string, n: int, space: string, sign: string, digits: string, rest: string)
    requires NumberParts(text, n, space, sign, digits, rest)
    ensures var i := |space|;
      && i + |sign| <= |text| && text[i..i + |sign|] == sign && text[i + |sign|..] == digits + rest
      && Find(text, 0, NonSpace) == i && Find(digits + rest, 0, NonDigit) == |digits|
      && (digits + rest)[..|digits|] == digits
      && (sign == "" && i < |text| ==> text[i] != '+' && text[i] != '-')
  {
    hide LowBits, Clipped, Signed, Find;
    Places(space, sign, digits, rest);
    var i := |space|;
    assert forall j | 0 <= j < i :: text[j] == space[j];
    assert i < |text| ==> text[i] == (sign + digits + rest)[0] by { assert text[i..] == sign + digits + rest; }
    SpaceEnds(text, i);
    DigitsEnd(digits, rest);
  }

  lemma Places(space: string, sign: string, digits: string, rest: string)
    ensures var text, i := space + sign + digits + rest, |space|;
      && text[i..] == sign + digits + rest && text[i..i + |sign|] == sign && text[i + |sign|..] == digits + rest
      && (digits + rest)[..|digits|] == digits
  {
  }

  lemma SpaceEnds(text: string, i: nat)
    requires i <= |text| && (forall j | 0 <= j < i :: SpaceChar(text[j])) && (i < |text| ==> !SpaceChar(text[i]))
    ensures Find(text, 0, NonSpace) == i
  {
    FindIs(text, 0, NonSpace, i);
  }

  lemma DigitsEnd(digits: string, rest: string)
    requires Digits(digits) && (rest != "" ==> !('0' <= rest[0] <= '9'))
    ensures Find(digits + rest, 0, NonDigit) == |digits|
  {
    FindIs(digits + rest, 0, NonDigit, |digits|);
  }

  lemma NumberSplits(text: string, n: int)
    requires AtolInt(text) == n
    ensures Number(text, n)
  {
    hide ToInt32, LowBits, Clipped, AtolInt, Signed, Number, Digits;
    var i := Find(text, 0, NonSpace);
    var sign := if i < |text| && (text[i] == '-' || text[i] == '+') then [text[i]] else "";
    var u := text[i + |sign|..];
    var k := Find(u, 0, NonDigit);
    AtolBy(text, i, sign, k);
    LowBitsIs(Clipped(Signed(sign, u[..k])), n);
    FourParts(text, i, sign, k);
    SplitParts(text, n, i, sign, k);
  }

  lemma FourParts(text: string, i: nat, sign: string, k: nat)
    requires i + |sign| <= |text| && text[i..i + |sign|] == sign && k <= |text[i + |sign|..]|
    ensures var u := text[i + |sign|..]; text == text[..i] + sign + u[..k] + u[k..]
  {
  }

  lemma SplitParts(text: string, n: int, i: nat, sign: string, k: nat)
    requires i == Find(text, 0, NonSpace) && i + |sign| <= |text| && k == Find(text[i + |sign|..], 0, NonDigit)
    requires sign == if i < |text| && (text[i] == '-' || text[i] == '+') then [text[i]] else ""
    requires var u := text[i + |sign|..];
      Digits(u[..k]) && text == text[..i] + sign + u[..k] + u[k..] && LowBits(Clipped(Signed(sign, u[..k])), n)
    ensures Number(text, n)
  {
    hide LowBits, Clipped, Signed, Find;
    var u := text[i + |sign|..];
    SpaceStarts(text, i);
    RestStarts(u, k);
    if sign == "" { UnsignedStart(text, i, k); }
    assert NumberParts(text, n, text[..i], sign, u[..k], u[k..]);
  }

  lemma SpaceStarts(text: string, i: nat)
    requires i == Find(text, 0, NonSpace)
    ensures forall j | 0 <= j < i :: SpaceChar(text[..i][j])
    ensures i < |text| ==> !SpaceChar(text[i])
  {
  }

  lemma RestStarts(u: string, k: nat)
    requires k == Find(u, 0, NonDigit)
    ensures u[k..] != "" ==> !('0' <= u[k..][0] <= '9')
  {
  }

  lemma UnsignedStart(text: string, i: nat, k: nat)
    requires i <= |text| && k <= |text[i..]|
    ensures text[i..][..k] == "" && text[i..][k..] != "" ==> i < |text| && text[i..][k..][0] == text[i]
  {
  }

  /** The value of the last Content-Length header, or 0. */
  ghost predicate Declares(headers: seq<string>, n: int) {
    || (n == 0 && LastField(headers, "Content-Length:", None))
    || exists v :: LastField(headers, "Content-Length:", Some(v)) && Number(v, n)
  }

  lemma LengthGrammar(headers: seq<string>, n: int)
    ensures DeclaredLength(headers) == n <==> Declares(headers, n)
  {
    hide LastField, LastValue, Number, AtolInt;
    forall value ensures LastValue(headers, "Content-Length:") == value
                         <==> LastField(headers, "Content-Length:", value)
    {
      LastGrammar(headers, "Content-Length:", value);
    }
    forall v ensures AtolInt(v) == n <==> Number(v, n) { NumberGrammar(v, n); }
  }

  // ---- the head ----

  /** The C string at the start of the line's text. */
  predicate CutsTo(raw: string, text: string) {
    && '\0' !in text
    && (raw == text || (|text| < |raw| && raw[..|text|] == text && raw[|text|] == '\0'))
  }

  ghost predicate LineAt(s: string, text: string, raw: string) {
    OneLine(raw) && CutsTo(raw, text) && raw + "\r\n" <= s
  }

  /** The input starts with a line of this text, and the next line with the byte at `next`. */
  ghost predicate LineOf(s: string, text: string, next: nat) {
    exists raw :: LineAt(s, text, raw) && next == |raw| + 2
  }

  /** Header lines and then a blank line, `n` bytes in all. */
  ghost predicate FieldLines(s: string, headers: seq<string>, n: nat)
    decreases |headers|
  {
    if headers == [] then LineOf(s, "", n)
    else exists next: nat :: headers[0] != "" && LineOf(s, headers[0], next) && next <= |s| && next <= n
                        && FieldLines(s[next..], headers[1..], n - next)
  }

  ghost predicate HeadParts(s: string, url: string, headers: seq<string>, n: nat, line: string, next: nat) {
    && LineOf(s, line, next) && RequestLineOf(line, url)
    && next <= |s| && next <= n && FieldLines(s[next..], headers, n - next)
  }

  /** The input starts with a complete head of `n` bytes. */
  ghost predicate HeadOf(s: string, url: string, headers: seq<string>, n: nat) {
    exists line, next :: HeadParts(s, url, headers, n, line, next)
  }

  /** Its first line is complete and no request line. */
  ghost predicate RefusedHead(s: string) {
    exists line, next :: LineOf(s, line, next) && forall url :: !RequestLineOf(line, url)
  }

  lemma CutGrammar(raw: string, text: string)
    ensures CStr(raw) == text <==> CutsTo(raw, text)
  {
    if CutsTo(raw, text) { FindIs(raw, 0, Nul, |text|); }
  }

  lemma LineGrammar(s: string, text: string, next: nat)
    ensures LineOf(s, text, next)
      <==> FirstLine(s).Whole? && FirstLine(s).next == next && CStr(FirstLine(s).text) == text
  {
    hide CStr, FirstLine, CutsTo;
    if LineOf(s, text, next) {
      var raw :| LineAt(s, text, raw) && next == |raw| + 2;
      CutGrammar(raw, text);
      RawReads(s, raw);
    }
    if FirstLine(s).Whole? && FirstLine(s).next == next && CStr(FirstLine(s).text) == text {
      var raw := FirstLine(s).text;
      CutGrammar(raw, text);
      RawSplits(s);
      assert LineAt(s, text, raw);
    }
  }

  lemma RawReads(s: string, raw: string)
    requires OneLine(raw) && raw + "\r\n" <= s
    ensures FirstLine(s) == Whole(raw, |raw| + 2)
  {
    var line := raw + "\r\n";
    assert s[|raw|] == line[|raw|] && s[|raw| + 1] == line[|raw| + 1];
    assert forall i | 0 <= i < |raw| :: s[i] == line[i] == raw[i];
    FindIs(s, 0, Eol, |raw|);
    assert s[..|raw|] == raw;
  }

  lemma RawSplits(s: string)
    requires FirstLine(s).Whole?
    ensures var Whole(raw, next) := FirstLine(s);
      OneLine(raw) && raw + "\r\n" <= s && next == |raw| + 2
  {
    var raw := FirstLine(s).text;
    assert raw + "\r\n" == s[..|raw| + 2];
  }

  /** What the reference makes of the line in front. */
  lemma LineRead(s: string, off: nat, url: string, before: seq<string>, text: string, next: nat)
    requires LineOf(s, text, next)
    ensures 0 < next <= |s|
    ensures ReadHeaders(s, off, url, before)
         == if text == "" then Ready(url, before, off + next)
            else ReadHeaders(s[next..], off + next, url, before + [text])
  {
    hide FirstLine, CStr, LineOf;
    LineGrammar(s, text, next);
  }

  lemma {:induction false} FieldLinesRead(s: string, off: nat, url: string, before: seq<string>,
                                       headers: seq<string>, n: nat)
    requires FieldLines(s, headers, n)
    ensures ReadHeaders(s, off, url, before) == Ready(url, before + headers, off + n)
    decreases |headers|
  {
    hide LineOf, ReadHeaders;
    if headers == [] {
      LineRead(s, off, url, before, "", n);
      assert before + headers == before;
    } else {
      var next: nat :| headers[0] != "" && LineOf(s, headers[0], next) && next <= |s| && next <= n
                  && FieldLines(s[next..], headers[1..], n - next);
      LineRead(s, off, url, before, headers[0], next);
      FieldLinesRead(s[next..], off + next, url, before + [headers[0]], headers[1..], n - next);
      assert before + [headers[0]] + headers[1..] == before + headers;
    }
  }

  lemma {:induction false} FieldLinesSplit(s: string, off: nat, url: string, before: seq<string>)
    returns (headers: seq<string>, n: nat)
    requires ReadHeaders(s, off, url, before).Ready?
    ensures ReadHeaders(s, off, url, before) == Ready(url, before + headers, off + n) && FieldLines(s, headers, n)
    decreases |s|
  {
    hide FirstLine, CStr, LineOf;
    var text, next := CStr(FirstLine(s).text), FirstLine(s).next;
    LineGrammar(s, text, next);
    headers, n := [], next;
    if text == "" {
      assert before + headers == before;
    } else {
      var rest, m := FieldLinesSplit(s[next..], off + next, url, before + [text]);
      headers, n := [text] + rest, next + m;
      assert before + [text] + rest == before + headers;
      assert headers[1..] == rest;
    }
  }

  /** The reference finds a head, with these parts, exactly if the grammar does. */
  lemma HeadGrammar(s: string, url: string, headers: seq<string>, n: nat)
    ensures ReadHead(s) == Ready(url, headers, n) <==> HeadOf(s, url, headers, n)
  {
    if HeadOf(s, url, headers, n) {
      var line, next :| HeadParts(s, url, headers, n, line, next);
      HeadReads(s, url, headers, n, line, next);
    }
    if ReadHead(s) == Ready(url, headers, n) { HeadSplits(s, url, headers, n); }
  }

  lemma HeadReads(s: string, url: string, headers: seq<string>, n: nat, line: string, next: nat)
    requires HeadParts(s, url, headers, n, line, next)
    ensures ReadHead(s) == Ready(url, headers, n)
  {
    hide FirstLine, CStr, LineOf, RequestTarget, RequestLineOf, FieldLines, ReadHeaders;
    LineGrammar(s, line, next);
    RequestLineGrammar(line, url);
    FieldLinesRead(s[next..], next, url, [], headers, n - next);
    assert [] + headers == headers;
  }

  lemma HeadSplits(s: string, url: string, headers: seq<string>, n: nat)
    requires ReadHead(s) == Ready(url, headers, n)
    ensures HeadOf(s, url, headers, n)
  {
    hide FirstLine, CStr, LineOf, RequestTarget, RequestLineOf, FieldLines;
    var line, next := CStr(FirstLine(s).text), FirstLine(s).next;
    LineGrammar(s, line, next);
    ReadsThisUrl(s, url);
    RequestLineGrammar(line, url);
    hide ReadHeaders;
    var hs, m := FieldLinesSplit(s[next..], next, url, []);
    assert [] + hs == hs;
    assert HeadParts(s, url, headers, n, line, next);
  }

  lemma ReadsThisUrl(s: string, url: string)
    requires ReadHead(s).Ready? && ReadHead(s).url == url
    ensures FirstLine(s).Whole?
    ensures var text, next := FirstLine(s).text, FirstLine(s).next;
      RequestTarget(CStr(text)) == Some(url) && ReadHead(s) == ReadHeaders(s[next..], next, url, [])
  {
    hide FirstLine, CStr, RequestTarget;
    var Whole(text, next) := FirstLine(s);
    SameUrl(s[next..], next, RequestTarget(CStr(text)).value, []);
  }

  lemma {:induction false} SameUrl(s: string, off: nat, url: string, before: seq<string>)
    requires ReadHeaders(s, off, url, before).Ready?
    ensures ReadHeaders(s, off, url, before).url == url
  {
    hide FieldLines;
    var _, _ := FieldLinesSplit(s, off, url, before);
  }

  /** It refuses the first line exactly if the line is complete and no request line. */
  lemma RefusedGrammar(s: string)
    ensures ReadHead(s) == Rejected <==> RefusedHead(s)
  {
    hide FirstLine, CStr, LineOf, RequestTarget, RequestLineOf, ReadHeaders;
    if ReadHead(s) == Rejected {
      var line, next := CStr(FirstLine(s).text), FirstLine(s).next;
      LineGrammar(s, line, next);
      forall url ensures !RequestLineOf(line, url) { RequestLineGrammar(line, url); }
    }
    if RefusedHead(s) {
      var line, next :| LineOf(s, line, next) && forall url :: !RequestLineOf(line, url);
      LineGrammar(s, line, next);
      if RequestTarget(line).Some? { RequestLineGrammar(line, RequestTarget(line).value); }
    }
  }
}
