/** The string helpers of Go's standard library that the gateway's parsers rest on:
    `strings.Split`, `strings.Join`, `strings.Trim`, `strings.TrimSpace`,
    `strconv.Atoi` and the `%d` verb. A Go string is modelled as its sequence of code points. */
module Text {

  datatype Option<+T> = None | Some(value: T)

  // ----- Splitting and joining -------------------------------------------------

  /** `strings.Join` with a one-character separator. */
  function Join(parts: seq<string>, sep: char): string {
    if parts == [] then ""
    else if |parts| == 1 then parts[0]
    else parts[0] + [sep] + Join(parts[1..], sep)
  }

  /** `strings.Split` with a one-character separator. */
  function Split(s: string, sep: char): (parts: seq<string>)
    ensures |parts| >= 1
    ensures forall i :: 0 <= i < |parts| ==> sep !in parts[i]
  {
    if s == "" then [""]
    else
      var rest := Split(s[1..], sep);
      if s[0] == sep then [""] + rest else [[s[0]] + rest[0]] + rest[1..]
  }

  lemma SplitStep(s: string, sep: char)
    ensures var rest := if s == "" then [""] else Split(s[1..], sep);
            Split(s, sep) == if s == "" then [""]
                             else if s[0] == sep then [""] + rest
                             else [[s[0]] + rest[0]] + rest[1..]
  {
  }

  lemma {:induction false} SplitPrefix(p: string, s: string, sep: char)
    requires sep !in p
    ensures Split(p + s, sep) == [p + Split(s, sep)[0]] + Split(s, sep)[1..]
  {
    hide Split;
    var rest := Split(s, sep);
    if p == "" {
      assert p + s == s && p + rest[0] == rest[0];
    } else {
      SplitPrefix(p[1..], s, sep);
      SplitStep(p + s, sep);
      assert (p + s)[1..] == p[1..] + s;
      var after := Split(p[1..] + s, sep);
      assert after[0] == p[1..] + rest[0] && after[1..] == rest[1..];
      assert [p[0]] + (p[1..] + rest[0]) == p + rest[0];
    }
  }

  /** Splitting a joined list gives the list back when no part holds the separator. */
  lemma {:induction false} SplitJoin(parts: seq<string>, sep: char)
    requires parts != []
    requires forall p :: p in parts ==> sep !in p
    ensures Split(Join(parts, sep), sep) == parts
  {
    var s := parts[0];
    if |parts| == 1 {
      SplitPrefix(s, "", sep);
      assert s + "" == s;
    } else {
      var tail := Join(parts[1..], sep);
      SplitJoin(parts[1..], sep);
      SplitPrefix(s, [sep] + tail, sep);
      assert ([sep] + tail)[1..] == tail;
      assert s + ([sep] + tail) == Join(parts, sep);
      assert Split([sep] + tail, sep) == [""] + parts[1..];
      assert s + "" == s;
    }
  }

  lemma ConcatParts<T>(h: T, a: seq<T>, b: seq<T>)
    requires a != []
    ensures (a + b)[0] == a[0] && (a + b)[1..] == a[1..] + b
    ensures [h] + (a + b) == [h] + a + b && [h] + (a[1..] + b) == [h] + a[1..] + b
  {
  }

  /** Splitting works piece by piece. */
  lemma {:induction false} SplitConcat(a: string, b: string, sep: char)
    ensures Split(a + [sep] + b, sep) == Split(a, sep) + Split(b, sep)
  {
    hide Split;
    var s := a + [sep] + b;
    SplitStep(s, sep);
    SplitStep(a, sep);
    if a == "" {
      assert s[1..] == b;
    } else {
      SplitConcat(a[1..], b, sep);
      assert s[0] == a[0] && s[1..] == a[1..] + [sep] + b;
      var ra, rb := Split(a[1..], sep), Split(b, sep);
      ConcatParts(if a[0] == sep then "" else [a[0]] + ra[0], ra, rb);
    }
  }

  /** A part without the separator is among the pieces of any joined list it is in. */
  lemma {:induction false} PartOfJoin(parts: seq<string>, sep: char, x: string)
    requires x in parts && sep !in x
    ensures x in Split(Join(parts, sep), sep)
  {
    SplitPrefix(x, "", sep);
    assert x + "" == x;
    if |parts| > 1 {
      SplitConcat(parts[0], Join(parts[1..], sep), sep);
      if x != parts[0] { PartOfJoin(parts[1..], sep, x); }
    }
  }

  // ----- Trimming --------------------------------------------------------------

  function TrimLeft(s: string, cut: char -> bool): (r: string) {
    if s == "" || !cut(s[0]) then s else TrimLeft(s[1..], cut)
  }

  function TrimRight(s: string, cut: char -> bool): (r: string) {
    if s == "" || !cut(s[|s| - 1]) then s else TrimRight(s[..|s| - 1], cut)
  }

  /** `strings.TrimFunc`. */
  function Trim(s: string, cut: char -> bool): (r: string) {
    TrimRight(TrimLeft(s, cut), cut)
  }

  /** No character to cut stands at either end. */
  predicate Trimmed(s: string, cut: char -> bool) {
    s == "" || (!cut(s[0]) && !cut(s[|s| - 1]))
  }

  lemma {:induction false} TrimLeftEnds(s: string, cut: char -> bool)
    ensures var r := TrimLeft(s, cut);
            r == "" || (!cut(r[0]) && s != "" && r[|r| - 1] == s[|s| - 1])
  {
    if s != "" && cut(s[0]) { TrimLeftEnds(s[1..], cut); }
  }

  lemma {:induction false} TrimRightEnds(s: string, cut: char -> bool)
    ensures var r := TrimRight(s, cut);
            r == "" || (!cut(r[|r| - 1]) && s != "" && r[0] == s[0])
  {
    if s != "" && cut(s[|s| - 1]) { TrimRightEnds(s[..|s| - 1], cut); }
  }

  /** The result of trimming is trimmed, and a trimmed string is left alone. */
  lemma TrimTrims(s: string, cut: char -> bool)
    ensures Trimmed(Trim(s, cut), cut)
    ensures Trimmed(s, cut) ==> Trim(s, cut) == s
  {
    TrimLeftEnds(s, cut);
    TrimRightEnds(TrimLeft(s, cut), cut);
  }

  /** Trimming separators loses only empty pieces. */
  lemma {:induction false} TrimLeftKeepsPieces(s: string, cut: char -> bool, sep: char, x: string)
    requires (forall c :: cut(c) <==> c == sep) && x != "" && x in Split(s, sep)
    ensures x in Split(TrimLeft(s, cut), sep)
  {
    if s != "" && cut(s[0]) { TrimLeftKeepsPieces(s[1..], cut, sep, x); }
  }

  lemma {:induction false} TrimRightKeepsPieces(s: string, cut: char -> bool, sep: char, x: string)
    requires (forall c :: cut(c) <==> c == sep) && x != "" && x in Split(s, sep)
    ensures x in Split(TrimRight(s, cut), sep)
  {
    if s != "" && cut(s[|s| - 1]) {
      var init := s[..|s| - 1];
      SplitConcat(init, "", sep);
      assert s == init + [sep] + "";
      TrimRightKeepsPieces(init, cut, sep, x);
    }
  }

  /** Unicode White_Space, the class `strings.TrimSpace` cuts. */
  predicate IsSpace(c: char) {
    c in "\t\n \r" || c == '\U{0B}' || c == '\U{0C}' || c == '\U{85}' || c == '\U{A0}' || c == '\U{1680}'
    || '\U{2000}' <= c <= '\U{200A}' || c == '\U{2028}' || c == '\U{2029}' || c == '\U{202F}'
    || c == '\U{205F}' || c == '\U{3000}'
  }

  function TrimSpace(s: string): (r: string) {
    Trim(s, IsSpace)
  }

  /** Text without white space at its ends is left alone. */
  lemma TrimSpaceFixes(s: string)
    requires s != "" && !IsSpace(s[0]) && !IsSpace(s[|s| - 1])
    ensures TrimSpace(s) == s
  {
    TrimTrims(s, IsSpace);
  }

  /** Trimming removes cut characters from the ends and nothing else. */
  lemma TrimRemovesEnds(s: string, cut: char -> bool) returns (left: string, right: string)
    ensures s == left + Trim(s, cut) + right && AllCut(left, cut) && AllCut(right, cut)
  {
    left := TrimLeftRemoves(s, cut);
    right := TrimRightRemoves(TrimLeft(s, cut), cut);
  }

  predicate AllCut(s: string, cut: char -> bool) {
    forall i :: 0 <= i < |s| ==> cut(s[i])
  }

  lemma {:induction false} TrimLeftRemoves(s: string, cut: char -> bool) returns (left: string)
    ensures s == left + TrimLeft(s, cut) && AllCut(left, cut)
  {
    if s == "" || !cut(s[0]) {
      left := "";
    } else {
      var rest := TrimLeftRemoves(s[1..], cut);
      left := [s[0]] + rest;
    }
  }

  lemma {:induction false} TrimRightRemoves(s: string, cut: char -> bool) returns (right: string)
    ensures s == TrimRight(s, cut) + right && AllCut(right, cut)
  {
    if s == "" || !cut(s[|s| - 1]) {
      right := "";
    } else {
      var rest := TrimRightRemoves(s[..|s| - 1], cut);
      right := rest + [s[|s| - 1]];
    }
  }

  // ----- Decimal integers ------------------------------------------------------

  const MAX_INT64 := 0x7FFF_FFFF_FFFF_FFFF

  predicate IsDigit(c: char) {
    '0' <= c <= '9'
  }

  function DigitChar(d: nat): (c: char)
    requires d < 10
    ensures IsDigit(c) && c as int - '0' as int == d
  {
    ('0' as int + d) as char
  }

  /** The `%d` verb for a non-negative number. */
  function Itoa(n: nat): (s: string)
    ensures s != "" && forall c :: c in s ==> IsDigit(c)
  {
    if n < 10 then [DigitChar(n)] else Itoa(n / 10) + [DigitChar(n % 10)]
  }

  function DigitsValue(s: string): (v: nat)
    requires forall c :: c in s ==> IsDigit(c)
  {
    if s == "" then 0
    else
      assert IsDigit(s[|s| - 1]);
      10 * DigitsValue(s[..|s| - 1]) + (s[|s| - 1] as int - '0' as int)
  }

  /** `strconv.Atoi`: an optional sign, at least one digit, nothing else, and a 64-bit result. */
  function Atoi(s: string): (r: Option<int>) {
    var negative := s != "" && s[0] == '-';
    var digits := if s != "" && s[0] in "+-" then s[1..] else s;
    if digits == "" || exists c :: c in digits && !IsDigit(c) then None
    else
      var v: int := DigitsValue(digits);
      if negative then (if v > MAX_INT64 + 1 then None else Some(-v))
      else (if v > MAX_INT64 then None else Some(v))
  }

  lemma {:induction false} DigitsValueItoa(n: nat)
    ensures DigitsValue(Itoa(n)) == n
  {
    if n >= 10 {
      DigitsValueItoa(n / 10);
      assert Itoa(n)[..|Itoa(n)| - 1] == Itoa(n / 10);
    }
  }

  /** What `%d` prints, `Atoi` reads back. */
  lemma AtoiItoa(n: nat)
    requires n <= MAX_INT64
    ensures Atoi(Itoa(n)) == Some(n)
  {
    DigitsValueItoa(n);
    assert IsDigit(Itoa(n)[0]);
  }

  predicate AllDigits(s: string) {
    s != "" && forall c :: c in s ==> IsDigit(c)
  }

  /** A sign in front of digits, and the limits of 64 bits. */
  lemma AtoiSigned(digits: string, sign: char)
    requires AllDigits(digits) && (sign == '+' || sign == '-')
    ensures var v: int := DigitsValue(digits);
            Atoi([sign] + digits) == if sign == '+' then (if v <= 0x7FFF_FFFF_FFFF_FFFF then Some(v) else None)
                                     else (if v <= 0x8000_0000_0000_0000 then Some(-v) else None)
  {
    hide DigitsValue;
    assert ([sign] + digits)[1..] == digits;
  }

  lemma AtoiUnsigned(digits: string)
    requires AllDigits(digits)
    ensures var v: int := DigitsValue(digits); Atoi(digits) == if v <= 0x7FFF_FFFF_FFFF_FFFF then Some(v) else None
  {
    hide DigitsValue;
    assert IsDigit(digits[0]);
  }
}
