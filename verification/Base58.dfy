/** Base58 (src/base58.cpp): the conversion of byte strings to base 58 and back, in digit
    buffers that are rewritten in place. */
module Base58 {
  import opened Powers
  import opened Wrappers

  type Digits = seq<nat>

  // ----- Positional numbers, most significant digit first -----

  predicate Below(d: Digits, base: nat) {
    forall i :: 0 <= i < |d| ==> d[i] < base
  }

  function ValueOf(d: Digits, base: nat): nat {
    if d == [] then 0 else ValueOf(d[..|d| - 1], base) * base + d[|d| - 1]
  }

  /** The digits of `n` without leading zeros. */
  function DigitsOf(n: nat, base: nat): (d: Digits)
    requires base >= 2
    ensures d != [] ==> d[0] != 0
    ensures Below(d, base)
  {
    if n == 0 then [] else DigitsOf(n / base, base) + [n % base]
  }

  lemma QuotientRemainder(n: nat, base: nat)
    requires base > 0
    ensures (n / base) * base + n % base == n
  {
  }

  lemma ValueSnoc(d: Digits, x: nat, base: nat)
    ensures ValueOf(d + [x], base) == ValueOf(d, base) * base + x
  {
    assert (d + [x])[..|d|] == d;
  }

  lemma {:induction false} ValueOfDigits(n: nat, base: nat)
    requires base >= 2
    ensures ValueOf(DigitsOf(n, base), base) == n
  {
    hide ValueOf, DigitsOf, Below;
    DigitsUnfold(n, base);
    if n > 0 {
      QuotientSmaller(n, base);
      ValueOfDigits(n / base, base);
      ValueSnoc(DigitsOf(n / base, base), n % base, base);
      QuotientRemainder(n, base);
    } else {
      NoValue(base);
    }
  }

  lemma {:induction false} DigitsUnfold(n: nat, base: nat)
    requires base >= 2
    ensures DigitsOf(n, base) == if n == 0 then [] else DigitsOf(n / base, base) + [n % base]
  {
    hide Below;
  }

  lemma QuotientSmaller(n: nat, base: nat)
    requires base >= 2 && n > 0
    ensures n / base < n
  {
    QuotientRemainder(n, base);
    MulMono(2, base, n / base);
  }

  lemma {:induction false} DigitsOfValue(d: Digits, base: nat)
    requires base >= 2 && Below(d, base) && (d == [] || d[0] != 0)
    ensures DigitsOf(ValueOf(d, base), base) == d
  {
    if d != [] {
      var h, x := d[..|d| - 1], d[|d| - 1];
      DigitsOfValue(h, base);
      var v := ValueOf(h, base);
      DivModIs(v * base + x, base, v, x);
      if h == [] {
        assert d == [x];
      } else {
        Positive(h, base);
        MulMono(1, v, base);
      }
      assert d == h + [x];
    }
  }

  lemma {:induction false} Positive(d: Digits, base: nat)
    requires base >= 2 && d != [] && d[0] != 0
    ensures ValueOf(d, base) > 0
  {
    if |d| > 1 {
      Positive(d[..|d| - 1], base);
      MulMono(1, ValueOf(d[..|d| - 1], base), base);
    }
  }

  function Zeros(n: nat): (z: Digits)
    ensures |z| == n && forall i :: 0 <= i < n ==> z[i] == 0
  {
    seq(n, _ => 0)
  }

  function LeadingZeros(d: Digits): (n: nat)
    ensures n <= |d| && (forall i :: 0 <= i < n ==> d[i] == 0) && (n < |d| ==> d[n] != 0)
  {
    if d == [] || d[0] != 0 then 0 else 1 + LeadingZeros(d[1..])
  }

  lemma {:induction false} LeadingZerosIs(d: Digits, n: nat)
    requires n <= |d| && (forall i :: 0 <= i < n ==> d[i] == 0) && (n < |d| ==> d[n] != 0)
    ensures LeadingZeros(d) == n
  {
    if n > 0 {
      LeadingZerosIs(d[1..], n - 1);
    }
  }

  /** Leading zeros are kept as leading zeros; the rest is converted as one number. */
  function Convert(d: Digits, from: nat, to: nat): (r: Digits)
    requires to >= 2
    ensures Below(r, to)
  {
    var r := Zeros(LeadingZeros(d)) + DigitsOf(ValueOf(d, from), to);
    r
  }

  lemma {:induction false} ValueZeros(n: nat, d: Digits, base: nat)
    ensures ValueOf(Zeros(n) + d, base) == ValueOf(d, base)
    decreases n + |d|
  {
    var z := Zeros(n) + d;
    if d != [] {
      ValueZeros(n, d[..|d| - 1], base);
      assert z[..|z| - 1] == Zeros(n) + d[..|d| - 1];
    } else if n > 0 {
      ValueZeros(n - 1, [], base);
      assert z[..n - 1] == Zeros(n - 1) + [];
      assert z[n - 1] == 0;
    } else {
      assert z == [];
    }
  }

  /** Converting there and back gives every digit string again, zeros included. */
  lemma ConvertTwice(d: Digits, a: nat, b: nat)
    requires a >= 2 && b >= 2 && Below(d, a)
    ensures Convert(Convert(d, a, b), b, a) == d
  {
    var n := LeadingZeros(d);
    var rest := d[n..];
    assert d == Zeros(n) + rest;
    ValueZeros(n, rest, a);
    var v := ValueOf(rest, a);
    var e := Convert(d, a, b);
    LeadingZerosIs(e, n);
    ValueZeros(n, DigitsOf(v, b), b);
    ValueOfDigits(v, b);
    DigitsOfValue(rest, a);
  }

  // ----- The alphabet -----

  /** `pszBase58`: the letters and digits in code order, except 0, I, O and l. */
  function Char(d: nat): char
    requires d < 58
  {
    if d < 9 then ('1' as int + d) as char
    else if d < 17 then ('A' as int + d - 9) as char
    else if d < 22 then ('J' as int + d - 17) as char
    else if d < 33 then ('P' as int + d - 22) as char
    else if d < 44 then ('a' as int + d - 33) as char
    else ('m' as int + d - 44) as char
  }

  /** `mapBase58`: the digit of a character, or -1. */
  function DigitOf(c: char): int {
    if '1' <= c <= '9' then c as int - '1' as int
    else if 'A' <= c <= 'H' then c as int - 'A' as int + 9
    else if 'J' <= c <= 'N' then c as int - 'J' as int + 17
    else if 'P' <= c <= 'Z' then c as int - 'P' as int + 22
    else if 'a' <= c <= 'k' then c as int - 'a' as int + 33
    else if 'm' <= c <= 'z' then c as int - 'm' as int + 44
    else -1
  }

  predicate IsSpace(c: char) {
    c == ' ' || '\t' <= c <= '\r'
  }

  /** The alphabet and the table are inverse to each other. */
  lemma AlphabetDigits(d: nat)
    requires d < 58
    ensures DigitOf(Char(d)) == d
  {
  }

  lemma AlphabetChars(c: char)
    requires DigitOf(c) != -1
    ensures 0 <= DigitOf(c) < 58 && Char(DigitOf(c)) == c && !IsSpace(c)
  {
  }

  /** The alphabet is the digits and letters without 0, O, I and l, and ascends with the digits. */
  lemma AlphabetExact(c: char)
    ensures DigitOf(c) != -1 <==> ('0' <= c <= '9' || 'A' <= c <= 'Z' || 'a' <= c <= 'z') && c !in {'0', 'O', 'I', 'l'}
  {
  }

  lemma AlphabetAscends(d: nat, e: nat)
    requires d < e < 58
    ensures Char(d) < Char(e)
  {
  }

  function Chars(d: Digits): (s: string)
    requires Below(d, 58)
    ensures |s| == |d|
  {
    seq(|d|, i requires 0 <= i < |d| => Char(d[i]))
  }

  predicate AllDigits(s: string) {
    forall c :: c in s ==> DigitOf(c) != -1
  }

  function Values(s: string): (d: Digits)
    requires AllDigits(s)
    ensures |d| == |s| && Below(d, 58)
  {
    var d := seq(|s|, i requires 0 <= i < |s| => Digit(s[i]));
    d
  }

  function Digit(c: char): (d: nat)
    ensures d < 58
  {
    if DigitOf(c) == -1 then 0 else AlphabetChars(c); DigitOf(c)
  }

  lemma ValuesOfChars(d: Digits)
    requires Below(d, 58)
    ensures AllDigits(Chars(d)) && Values(Chars(d)) == d
  {
    var s := Chars(d);
    forall i | 0 <= i < |s| ensures DigitOf(s[i]) == d[i] {
      AlphabetDigits(d[i]);
    }
  }

  lemma CharsOfValues(s: string)
    requires AllDigits(s)
    ensures Chars(Values(s)) == s
  {
    var d := Values(s);
    forall i | 0 <= i < |s| ensures Chars(d)[i] == s[i] {
      assert s[i] in s;
      AlphabetChars(s[i]);
    }
  }

  // ----- What the two functions compute -----

  type byte = x: nat | x < 256

  function Encoded(bytes: seq<byte>): string {
    Chars(Convert(bytes, 256, 58))
  }

  function SpacesAt(s: string): (n: nat)
    ensures n <= |s| && (forall i :: 0 <= i < n ==> IsSpace(s[i])) && (n < |s| ==> !IsSpace(s[n]))
  {
    if s == [] || !IsSpace(s[0]) then 0 else 1 + SpacesAt(s[1..])
  }

  /** The length of the word a string starts with. */
  function WordAt(s: string): (n: nat)
    ensures n <= |s| && (forall i :: 0 <= i < n ==> !IsSpace(s[i])) && (n < |s| ==> IsSpace(s[n]))
  {
    if s == [] || IsSpace(s[0]) then 0 else 1 + WordAt(s[1..])
  }

  /** One word of base 58 digits, with spaces around it. */
  function Decoded(s: string): Option<Digits> {
    var t := s[SpacesAt(s)..];
    var word, tail := t[..WordAt(t)], t[WordAt(t)..];
    if AllDigits(word) && SpacesAt(tail) == |tail| then Some(Convert(Values(word), 58, 256)) else None
  }

  lemma PlainWord(s: string)
    requires AllDigits(s)
    ensures SpacesAt(s) == 0 && WordAt(s) == |s|
  {
    forall i | 0 <= i < |s| ensures !IsSpace(s[i]) {
      assert s[i] in s;
      AlphabetChars(s[i]);
    }
  }

  /** Decoding what was encoded gives every byte string back. */
  lemma DecodeEncode(bytes: seq<byte>)
    ensures Decoded(Encoded(bytes)) == Some(bytes)
  {
    var d := Convert(bytes, 256, 58);
    ValuesOfChars(d);
    var s := Encoded(bytes);
    PlainWord(s);
    assert s[0..] == s && s[..|s|] == s;
    ConvertTwice(bytes, 256, 58);
  }

  /** Encoding what was decoded gives every word of the alphabet back. */
  lemma EncodeDecode(s: string)
    requires AllDigits(s)
    ensures Decoded(s).Some? && Below(Decoded(s).value, 256) && Chars(Convert(Decoded(s).value, 256, 58)) == s
  {
    PlainWord(s);
    assert s[0..] == s && s[..|s|] == s;
    ConvertTwice(Values(s), 58, 256);
    CharsOfValues(s);
  }

  /** Spaces around a word do not matter. */
  lemma SpacesIgnored(a: string, s: string, b: string)
    requires AllDigits(s)
    requires (forall c :: c in a ==> IsSpace(c)) && forall c :: c in b ==> IsSpace(c)
    requires s != []
    ensures Decoded(a + s + b) == Decoded(s)
  {
    PlainWord(s);
    var t := a + s + b;
    assert s[0] in s;
    AlphabetChars(s[0]);
    SpacesIs(t, |a|);
    assert t[|a|..] == s + b;
    WordIs(s + b, |s|);
    assert (s + b)[..|s|] == s && (s + b)[|s|..] == b;
    SpacesIs(b, |b|);
    assert s[0..] == s && s[..|s|] == s;
  }

  /** Only blanks: spaces and the five control characters from tab to carriage return. */
  ghost predicate Blank(s: string) {
    forall i :: 0 <= i < |s| ==> s[i] == ' ' || 9 <= s[i] as int <= 13
  }

  ghost predicate WordBetween(s: string, i: int, j: int, word: string) {
    0 <= i <= j <= |s| && s[i..j] == word && Blank(s[..i]) && Blank(s[j..])
  }

  /** Decoding accepts exactly the encoded forms with blanks around them. */
  lemma DecodeExact(s: string, bytes: seq<byte>)
    ensures Decoded(s) == Some(bytes) <==> exists i, j :: WordBetween(s, i, j, Encoded(bytes))
  {
    hide Encoded, Decoded;
    if Decoded(s) == Some(bytes) {
      DecodedWord(s, bytes);
    }
    if i, j :| WordBetween(s, i, j, Encoded(bytes)) {
      WordDecoded(s, i, j, bytes);
    }
  }

  lemma DecodedWord(s: string, bytes: seq<byte>)
    requires Decoded(s) == Some(bytes)
    ensures exists i, j :: WordBetween(s, i, j, Encoded(bytes))
  {
    hide Convert, Values, Decoded, Blank;
    var i, j := DecodedParts(s);
    var word := s[i..j];
    PlainDecoded(word);
    EncodeDecode(word);
    assert WordBetween(s, i, j, Encoded(bytes));
  }

  lemma DecodedParts(s: string) returns (i: nat, j: nat)
    requires Decoded(s).Some?
    ensures i <= j <= |s| && Blank(s[..i]) && Blank(s[j..]) && AllDigits(s[i..j])
    ensures Decoded(s).value == Convert(Values(s[i..j]), 58, 256)
  {
    hide Convert, Values, AllDigits, SpacesAt, WordAt, Blank, IsSpace;
    i := SpacesAt(s);
    var t := s[i..];
    j := i + WordAt(t);
    assert t[..WordAt(t)] == s[i..j];
    assert t[WordAt(t)..] == s[j..];
    BlankStart(s, i);
    BlankStart(s[j..], |s| - j);
    assert s[j..][..|s| - j] == s[j..];
  }

  lemma BlankStart(s: string, n: nat)
    requires n <= |s| && forall i :: 0 <= i < n ==> IsSpace(s[i])
    ensures Blank(s[..n])
  {
  }

  lemma PlainDecoded(word: string)
    requires AllDigits(word)
    ensures Decoded(word) == Some(Convert(Values(word), 58, 256))
  {
    hide Convert, Values;
    PlainWord(word);
    assert word[0..] == word && word[..|word|] == word;
  }

  lemma WordDecoded(s: string, i: int, j: int, bytes: seq<byte>)
    requires WordBetween(s, i, j, Encoded(bytes))
    ensures Decoded(s) == Some(bytes)
  {
    DecodeEncode(bytes);
    EncodedDigits(bytes);
    hide Encoded, Decoded;
    var word := s[i..j];
    assert s == s[..i] + word + s[j..];
    if word == [] {
      OnlyBlanks(s);
      OnlyBlanks(word);
    } else {
      BlankSpaces(s[..i]);
      BlankSpaces(s[j..]);
      SpacesIgnored(s[..i], word, s[j..]);
    }
  }

  lemma EncodedDigits(bytes: seq<byte>)
    ensures AllDigits(Encoded(bytes))
  {
    hide Convert;
    ValuesOfChars(Convert(bytes, 256, 58));
  }

  lemma BlankSpaces(s: string)
    requires Blank(s)
    ensures forall c :: c in s ==> IsSpace(c)
  {
  }

  lemma OnlyBlanks(s: string)
    requires Blank(s)
    ensures Decoded(s) == Decoded("")
  {
    SpacesIs(s, |s|);
    assert s[|s|..] == "" && ""[0..] == "";
  }

  lemma {:induction false} SpacesIs(s: string, n: nat)
    requires n <= |s| && (forall i :: 0 <= i < n ==> IsSpace(s[i])) && (n < |s| ==> !IsSpace(s[n]))
    ensures SpacesAt(s) == n
  {
    if n > 0 {
      SpacesIs(s[1..], n - 1);
    }
  }

  lemma {:induction false} WordIs(s: string, n: nat)
    requires n <= |s| && (forall i :: 0 <= i < n ==> !IsSpace(s[i])) && (n < |s| ==> IsSpace(s[n]))
    ensures WordAt(s) == n
  {
    if n > 0 {
      WordIs(s[1..], n - 1);
    }
  }

  // ----- The buffers are large enough -----

  lemma {:induction false} PowBaseStrict(a: nat, b: nat, n: nat)
    requires a < b && n > 0
    ensures Pow(a, n) < Pow(b, n)
  {
    if n == 1 {
      assert Pow(a, 0) == 1 && Pow(b, 0) == 1;
    } else {
      PowBaseStrict(a, b, n - 1);
      ProductStrict(a, b, Pow(a, n - 1), Pow(b, n - 1));
    }
  }

  lemma ProductStrict(a: nat, b: nat, p: nat, q: nat)
    requires a < b && p < q
    ensures a * p < b * q
  {
    MulMono(a, b, p);
    MulMono(p + 1, q, b);
    MulDistrib(p, 1, b);
  }

  /** From k-th powers to the numbers themselves. */
  lemma RootMono(x: nat, y: nat, k: nat)
    requires k > 0 && Pow(x, k) <= Pow(y, k)
    ensures x <= y
  {
    if x > y {
      PowBaseStrict(y, x, k);
    }
  }

  lemma Pow58()
    ensures Pow(58, 11) == 24986644000165537792
  {
    assert Pow(58, 3) == 195112;
    hide Pow;
    PowAdd(58, 3, 3);
    PowAdd(58, 3, 2);
    PowAdd(58, 6, 5);
    assert Pow(58, 2) == 3364 by {
      Pow58Small();
    }
  }

  lemma Pow58Small()
    ensures Pow(58, 2) == 3364
  {
    assert Pow(58, 1) == 58;
  }

  lemma Power2(n: nat)
    ensures n == 64 ==> Pow(2, n) == 18446744073709551616
    ensures n == 129 ==> Pow(2, n) == 680564733841876926926749214863536422912
  {
    hide Pow;
    Power2One();
    PowAdd(2, 8, 8);
    PowAdd(2, 16, 16);
    PowAdd(2, 32, 32);
    PowAdd(2, 64, 64);
    PowAdd(2, 1, 128);
  }

  lemma Power2One()
    ensures Pow(2, 1) == 2 && Pow(2, 8) == 256
  {
    assert Pow(2, 1) == 2 && Pow(2, 4) == 16;
  }

  /** 256^n fits into floor(138n / 100) + 1 digits of base 58. */
  lemma Room58(n: nat)
    ensures Pow(256, n) <= Pow(58, n * 138 / 100 + 1)
  {
    hide Pow;
    var size := n * 138 / 100 + 1;
    Pow58();
    Power2(64);
    Power2One();
    PowMul(2, 8, n);
    PowMul(2, 8 * n, 8);
    PowMul(2, 64, n);
    assert 8 * n * 8 == 64 * n;
    assert Pow(Pow(256, n), 8) == Pow(Pow(2, 64), n);
    PowBase(Pow(2, 64), Pow(58, 11), n);
    PowMul(58, 11, n);
    PowMul(58, size, 8);
    PowMono(58, 11 * n, size * 8);
    RootMono(Pow(256, n), Pow(58, size), 8);
  }

  /** 58^n fits into floor(733n / 1000) + 1 bytes. */
  lemma Room256(n: nat)
    ensures Pow(58, n) <= Pow(256, n * 733 / 1000 + 1)
  {
    hide Pow;
    var size := n * 733 / 1000 + 1;
    Pow58();
    PowAdd(58, 11, 11);
    Power2(129);
    Power2One();
    PowMul(58, n, 22);
    PowMul(58, 22, n);
    assert n * 22 == 22 * n;
    PowBase(Pow(58, 22), Pow(2, 129), n);
    PowMul(2, 129, n);
    PowMul(2, 8, size);
    PowMul(2, 8 * size, 22);
    PowMono(2, 129 * n, 8 * size * 22);
    RootMono(Pow(58, n), Pow(256, size), 22);
  }

  // ----- The digit buffer -----

  /** The number in the `i` lowest digits. */
  function Low(d: Digits, base: nat, i: nat): nat
    requires i <= |d|
  {
    if i == 0 then 0 else Low(d, base, i - 1) + d[|d| - i] * Pow(base, i - 1)
  }

  lemma {:induction false} LowSame(d: Digits, e: Digits, base: nat, i: nat)
    requires |d| == |e| && i <= |d| && forall j :: |d| - i <= j < |d| ==> d[j] == e[j]
    ensures Low(d, base, i) == Low(e, base, i)
  {
    if i > 0 {
      LowSame(d, e, base, i - 1);
    }
  }

  lemma {:induction false} LowShift(d: Digits, base: nat, i: nat)
    requires i < |d|
    ensures Low(d, base, i + 1) == Low(d[..|d| - 1], base, i) * base + d[|d| - 1]
  {
    var n := |d| - 1;
    if i == 0 {
      assert Pow(base, 0) == 1;
    } else {
      LowShift(d, base, i - 1);
      ShiftAlgebra(Low(d[..n], base, i - 1), d[n - i], Pow(base, i - 1), base);
    }
  }

  lemma ShiftAlgebra(l: int, x: int, p: int, b: int)
    ensures (l + x * p) * b == l * b + x * (b * p)
  {
  }

  lemma {:induction false} LowIsValue(d: Digits, base: nat)
    ensures ValueOf(d, base) == Low(d, base, |d|)
  {
    if d != [] {
      LowIsValue(d[..|d| - 1], base);
      LowShift(d, base, |d| - 1);
    }
  }

  /** Digits that are zero do not count. */
  lemma {:induction false} LowZeros(d: Digits, base: nat, i: nat, n: nat)
    requires i <= n <= |d| && forall j :: |d| - n <= j < |d| - i ==> d[j] == 0
    ensures Low(d, base, n) == Low(d, base, i)
  {
    if i < n {
      LowZeros(d, base, i, n - 1);
    }
  }

  lemma DigitStep(low: int, was: int, c: int, x: int, mul: int, base: int, p: int, c0: int)
    requires base > 0 && low + c * p == mul * was + c0
    ensures var n := c + mul * x; low + (n % base) * p + (n / base) * (base * p) == mul * (was + x * p) + c0
  {
    var n := c + mul * x;
    var q, r := n / base, n % base;
    assert (q * base + r) * p == q * (base * p) + r * p;
    assert (c + mul * x) * p == c * p + mul * (x * p);
    assert mul * (was + x * p) == mul * was + mul * (x * p);
  }

  lemma NoCarry(v: nat, c: nat, p: nat)
    requires v + c * p < p
    ensures c == 0
  {
    if c >= 1 {
      MulMono(1, c, p);
    }
  }

  /** The buffer of digits, of which only the last `length` are in use. */
  ghost predicate Buffer(b: Digits, base: nat, length: nat) {
    length <= |b| && Below(b, base) && forall j :: 0 <= j < |b| - length ==> b[j] == 0
  }

  /** "buffer = buffer * mul + ch", as far as there are digits or a carry. The carry is used up
      when the result fits. */
  method MulAdd(buf: array<nat>, base: nat, mul: nat, ch: nat, length: nat) returns (used: nat)
    requires base >= 2 && Buffer(buf[..], base, length)
    requires mul * ValueOf(buf[..], base) + ch < Pow(base, buf.Length)
    modifies buf
    ensures Buffer(buf[..], base, used)
    ensures ValueOf(buf[..], base) == mul * ValueOf(old(buf[..]), base) + ch
  {
    hide Pow, Low, ValueOf, DigitPart, CarryPart;
    ghost var was := buf[..];
    var carry: nat := ch;
    var i: nat := 0;
    StartRound(was, base, ch, mul);
    while (carry != 0 || i < length) && i < buf.Length
      invariant 0 <= i <= buf.Length
      invariant Below(buf[..], base)
      invariant forall j :: 0 <= j < buf.Length - i ==> buf[j] == was[j]
      invariant Rounds(buf[..], was, base, mul, ch, carry, i)
      decreases buf.Length - i
    {
      ghost var before, c := buf[..], carry;
      var at := buf.Length - 1 - i;
      MulMono(0, mul, buf[at]);
      carry := carry + mul * buf[at];
      buf[at] := DigitPart(carry, base);
      carry := CarryPart(carry, base);
      NextRound(before, buf[..], was, base, mul, ch, c, i);
      i := i + 1;
    }
    LowIsValue(buf[..], base);
    LowIsValue(was, base);
    if i == buf.Length {
      LastRound(buf[..], was, base, mul, ch, carry);
    } else {
      LowZeros(buf[..], base, i, buf.Length);
      LowZeros(was, base, i, buf.Length);
      CarryUsed(buf[..], was, base, mul, ch, i);
    }
    assert carry == 0;
    used := i;
  }

  function DigitPart(n: nat, base: nat): (r: nat)
    requires base > 0
    ensures r < base
  {
    n % base
  }

  function CarryPart(n: nat, base: nat): nat
    requires base > 0
  {
    n / base
  }

  /** After `i` rounds the low digits and the carry hold the low part of the new number. */
  ghost predicate Rounds(now: Digits, was: Digits, base: nat, mul: nat, ch: nat, carry: nat, i: nat)
    requires i <= |now| == |was|
  {
    Low(now, base, i) + carry * Pow(base, i) == mul * Low(was, base, i) + ch
  }

  lemma StartRound(was: Digits, base: nat, ch: nat, mul: nat)
    ensures Rounds(was, was, base, mul, ch, ch, 0)
  {
  }

  lemma NextRound(before: Digits, now: Digits, was: Digits, base: nat, mul: nat, ch: nat, c: nat, i: nat)
    requires i < |before| == |now| == |was| && base > 0
    requires Rounds(before, was, base, mul, ch, c, i)
    requires var at := |was| - 1 - i; now == before[at := DigitPart(c + mul * was[at], base)]
    ensures Rounds(now, was, base, mul, ch, CarryPart(c + mul * was[|was| - 1 - i], base), i + 1)
  {
    hide Pow, Low;
    var at := |was| - 1 - i;
    LowNext(now, base, i);
    LowNext(was, base, i);
    LowSame(before, now, base, i);
    DigitStep(Low(before, base, i), Low(was, base, i), c, was[at], mul, base, Pow(base, i), ch);
    PowNext(base, i);
  }

  lemma LastRound(now: Digits, was: Digits, base: nat, mul: nat, ch: nat, carry: nat)
    requires |now| == |was| && Rounds(now, was, base, mul, ch, carry, |was|)
    requires mul * Low(was, base, |was|) + ch < Pow(base, |was|)
    ensures carry == 0 && Low(now, base, |was|) == mul * Low(was, base, |was|) + ch
  {
    hide Pow, Low;
    NoCarry(Low(now, base, |was|), carry, Pow(base, |was|));
  }

  lemma CarryUsed(now: Digits, was: Digits, base: nat, mul: nat, ch: nat, i: nat)
    requires i <= |now| == |was| && Rounds(now, was, base, mul, ch, 0, i)
    ensures Low(now, base, i) == mul * Low(was, base, i) + ch
  {
  }

  lemma LowNext(d: Digits, base: nat, i: nat)
    requires i < |d|
    ensures Low(d, base, i + 1) == Low(d, base, i) + d[|d| - 1 - i] * Pow(base, i)
  {
  }

  lemma {:induction false} ValueBound(d: Digits, base: nat)
    requires Below(d, base)
    ensures ValueOf(d, base) < Pow(base, |d|)
  {
    if d != [] {
      ValueBound(d[..|d| - 1], base);
      MulMono(ValueOf(d[..|d| - 1], base) + 1, Pow(base, |d| - 1), base);
      MulDistrib(ValueOf(d[..|d| - 1], base), 1, base);
    }
  }

  /** Writes the number of the digits `d` of base `mul` into a buffer of base `base`. */
  method Collect(d: Digits, mul: nat, base: nat, size: nat) returns (b: Digits, length: nat)
    requires base >= 2 && mul >= 1 && Below(d, mul) && Pow(mul, |d|) <= Pow(base, size)
    ensures |b| == size && Buffer(b, base, length)
    ensures ValueOf(b, base) == ValueOf(d, mul)
  {
    hide Pow, Low, ValueOf;
    var buf := new nat[size](_ => 0);
    length := 0;
    NoValue(mul);
    AllZero(buf[..], base);
    for k := 0 to |d|
      invariant Buffer(buf[..], base, length)
      invariant ValueOf(buf[..], base) == ValueOf(d[..k], mul)
    {
      ValueNext(d, k, mul);
      ValueBound(d[..k + 1], mul);
      PowMono(mul, k + 1, |d|);
      length := MulAdd(buf, base, mul, d[k], length);
    }
    assert d[..|d|] == d;
    b := buf[..];
  }

  lemma NoValue(base: nat)
    ensures ValueOf([], base) == 0
  {
  }

  lemma ValueNext(d: Digits, k: nat, base: nat)
    requires k < |d|
    ensures ValueOf(d[..k + 1], base) == base * ValueOf(d[..k], base) + d[k]
  {
    assert d[..k + 1][..k] == d[..k];
  }

  lemma AllZero(d: Digits, base: nat)
    requires forall i :: 0 <= i < |d| ==> d[i] == 0
    ensures ValueOf(d, base) == 0
  {
    assert d == Zeros(|d|) + [];
    ValueZeros(|d|, [], base);
  }

  /** What follows the leading zeros of a buffer are the digits of its number. */
  lemma StripBuffer(b: Digits, base: nat, from: nat)
    requires base >= 2 && Below(b, base) && from <= |b|
    requires (forall j :: 0 <= j < from ==> b[j] == 0) && (from < |b| ==> b[from] != 0)
    ensures b[from..] == DigitsOf(ValueOf(b, base), base)
  {
    assert b == Zeros(from) + b[from..];
    ValueZeros(from, b[from..], base);
    DigitsOfValue(b[from..], base);
  }

  /** Skips the unused part of a buffer and then its leading zeros. */
  method Strip(b: Digits, base: nat, length: nat) returns (r: Digits)
    requires base >= 2 && Buffer(b, base, length)
    ensures r == DigitsOf(ValueOf(b, base), base)
  {
    var it := |b| - length;
    while it != |b| && b[it] == 0
      invariant it <= |b|
      invariant forall j :: 0 <= j < it ==> b[j] == 0
    {
      it := it + 1;
    }
    StripBuffer(b, base, it);
    r := b[it..];
  }

  /** Counts leading zeros. */
  method CountZeros(d: Digits) returns (n: nat)
    ensures n == LeadingZeros(d)
  {
    n := 0;
    while n != |d| && d[n] == 0
      invariant n <= |d|
      invariant forall j :: 0 <= j < n ==> d[j] == 0
    {
      n := n + 1;
    }
    LeadingZerosIs(d, n);
  }

  lemma ConvertRest(d: Digits, from: nat, to: nat)
    requires to >= 2
    ensures Convert(d, from, to) == Zeros(LeadingZeros(d)) + DigitsOf(ValueOf(d[LeadingZeros(d)..], from), to)
  {
    var n := LeadingZeros(d);
    assert d == Zeros(n) + d[n..];
    ValueZeros(n, d[n..], from);
  }

  // ----- EncodeBase58 and DecodeBase58 -----

  method WriteDigits(zeroes: nat, digits: Digits) returns (str: string)
    requires Below(digits, 58)
    ensures Below(Zeros(zeroes) + digits, 58) && str == Chars(Zeros(zeroes) + digits)
  {
    hide Char;
    OneIsZero();
    str := seq(zeroes, _ => '1');
    for i := 0 to |digits|
      invariant |str| == zeroes + i
      invariant forall j :: 0 <= j < zeroes ==> str[j] == '1'
      invariant forall j :: 0 <= j < i ==> str[zeroes + j] == Char(digits[j])
    {
      str := str + [Char(digits[i])];
    }
  }

  lemma OneIsZero()
    ensures Char(0) == '1'
  {
  }

  method EncodeBase58(bytes: seq<byte>) returns (str: string)
    ensures str == Encoded(bytes)
  {
    hide Convert, DigitsOf, ValueOf, LeadingZeros, Char, Chars;
    var zeroes := CountZeros(bytes);
    var rest: Digits := bytes[zeroes..];
    var size := |rest| * 138 / 100 + 1;
    Room58(|rest|);
    var b58, length := Collect(rest, 256, 58, size);
    var digits := Strip(b58, 58, length);
    ConvertRest(bytes, 256, 58);
    str := WriteDigits(zeroes, digits);
  }

  /** Skips spaces from place `from` on. */
  method SkipSpaces(s: string, from: nat) returns (k: nat)
    requires from <= |s|
    ensures from <= k <= |s| && k - from == SpacesAt(s[from..])
  {
    k := from;
    while k != |s| && IsSpace(s[k])
      invariant from <= k <= |s| && forall j :: from <= j < k ==> IsSpace(s[j])
    {
      k := k + 1;
    }
    SpacesIs(s[from..], k - from);
  }

  method DecodeBase58(psz: string) returns (ok: bool, vch: Digits)
    ensures ok <==> Decoded(psz).Some?
    ensures ok ==> vch == Decoded(psz).value
  {
    hide SpacesAt, WordAt, Convert, DigitOf, IsSpace, Values, DigitsOf, ValueOf, Pow, AllDigits;
    vch := [];
    var k := SkipSpaces(psz, 0);
    assert psz[0..] == psz;
    var t := psz[k..];
    var zeroes := 0;
    while zeroes != |t| && t[zeroes] == '1'
      invariant 0 <= zeroes <= |t| && forall j :: 0 <= j < zeroes ==> t[j] == '1'
    {
      zeroes := zeroes + 1;
    }
    var word, bad := ReadWord(t, zeroes);
    if bad {
      return false, vch;
    }
    var end := zeroes + |word|;
    WholeWord(t, zeroes, word);
    var b256, length := CollectWord(word, |t| - zeroes);
    var e := SkipSpaces(t, end);
    if e != |t| {
      return false, vch;
    }
    var digits := Strip(b256, 256, length);
    vch := Zeros(zeroes) + digits;
    ok := true;
  }

  method CollectWord(word: Digits, room: nat) returns (b: Digits, length: nat)
    requires Below(word, 58) && |word| <= room
    ensures Buffer(b, 256, length) && ValueOf(b, 256) == ValueOf(word, 58)
  {
    hide Pow;
    Room256(room);
    PowMono(58, |word|, room);
    b, length := Collect(word, 58, 256, room * 733 / 1000 + 1);
  }

  /** The digits from `from` up to the next space, unless another character comes first. */
  method ReadWord(t: string, from: nat) returns (word: Digits, bad: bool)
    requires from <= |t| && forall j :: 0 <= j < from ==> t[j] == '1'
    ensures Below(word, 58) && from + |word| <= |t|
    ensures forall j :: 0 <= j < |word| ==> DigitOf(t[from + j]) == word[j]
    ensures if bad then !AllDigits(t[..WordAt(t)]) else from + |word| < |t| ==> IsSpace(t[from + |word|])
  {
    word, bad := [], false;
    while from + |word| != |t| && !IsSpace(t[from + |word|])
      invariant Below(word, 58) && from + |word| <= |t|
      invariant forall j :: 0 <= j < |word| ==> DigitOf(t[from + j]) == word[j]
      decreases |t| - |word|
    {
      var c := t[from + |word|];
      if DigitOf(c) == -1 {
        forall j | 0 <= j < from + |word| ensures DigitOf(t[j]) != -1 {
          assert j >= from ==> DigitOf(t[from + (j - from)]) == word[j - from];
        }
        BadWord(t, from + |word|);
        return word, true;
      }
      AlphabetChars(c);
      word := word + [DigitOf(c)];
    }
  }

  lemma BadWord(t: string, at: nat)
    requires at < |t| && !IsSpace(t[at]) && DigitOf(t[at]) == -1
    requires forall j :: 0 <= j < at ==> DigitOf(t[j]) != -1
    ensures !AllDigits(t[..WordAt(t)])
  {
    forall j | 0 <= j < at ensures !IsSpace(t[j]) {
      AlphabetChars(t[j]);
    }
    assert WordAt(t) > at;
    assert t[..WordAt(t)][at] == t[at];
  }

  lemma OneIsDigit()
    ensures DigitOf('1') == 0
  {
  }

  /** The word at the start of `t`, with `zeroes` ones in front. */
  lemma WholeWord(t: string, zeroes: nat, d: Digits)
    requires zeroes + |d| <= |t| && Below(d, 58)
    requires forall j :: 0 <= j < zeroes ==> t[j] == '1'
    requires forall j :: 0 <= j < |d| ==> DigitOf(t[zeroes + j]) == d[j]
    requires zeroes < |t| ==> t[zeroes] != '1'
    requires zeroes + |d| < |t| ==> IsSpace(t[zeroes + |d|])
    ensures WordAt(t) == zeroes + |d|
    ensures var w := t[..zeroes + |d|];
      AllDigits(w) && Convert(Values(w), 58, 256) == Zeros(zeroes) + DigitsOf(ValueOf(d, 58), 256)
  {
    hide DigitOf, IsSpace, Convert, Values, WordAt, DigitsOf, ValueOf;
    var w := t[..zeroes + |d|];
    OneIsDigit();
    forall j | 0 <= j < |w| ensures DigitOf(t[j]) != -1 && !IsSpace(t[j]) {
      if j >= zeroes {
        assert DigitOf(t[zeroes + (j - zeroes)]) == d[j - zeroes];
      }
      AlphabetChars(t[j]);
    }
    WordIs(t, |w|);
    WordDigits(w, zeroes, d);
  }

  lemma WordDigits(w: string, zeroes: nat, d: Digits)
    requires |w| == zeroes + |d| && AllDigits(w)
    requires forall j :: 0 <= j < zeroes ==> w[j] == '1'
    requires forall j :: 0 <= j < |d| ==> DigitOf(w[zeroes + j]) == d[j]
    requires |d| > 0 ==> w[zeroes] != '1'
    ensures Convert(Values(w), 58, 256) == Zeros(zeroes) + DigitsOf(ValueOf(d, 58), 256)
  {
    hide Convert, ValueOf, DigitsOf, LeadingZeros;
    var v := Values(w);
    assert forall j :: 0 <= j < |v| ==> v[j] == Digit(w[j]);
    LeadingZerosIs(v, zeroes);
    ConvertRest(v, 58, 256);
    assert v[zeroes..] == d;
  }
}
