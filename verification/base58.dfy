/** The base 58 codec of bitcoin addresses (gryphon/lib/validation.py:6-85). */
module Base58 {
  import opened Numerals

  type Bytes = b: seq<nat> | IsNumeral(b, 256)

  const DIGITS58 := "123456789" + "ABCDEFGH" + "JKLMN" + "PQRSTUVWXYZ" + "abcdefghijk" + "mnopqrstuvwxyz"

  datatype Result<+T> = Ok(value: T) | ValueError

  // ---- the alphabet ----

  function Range(first: char, n: nat): string
    requires first as int + n < 0xD800
  {
    seq(n, i requires 0 <= i < n => (first as int + i) as char)
  }

  /** The alphabet is in increasing order of its characters, so none occurs twice. */
  lemma AlphabetAscends()
    ensures |DIGITS58| == 58
    ensures forall i, j :: 0 <= i < j < 58 ==> DIGITS58[i] < DIGITS58[j]
  {
    NumbersAndUpper();
    Upper();
    Lower();
  }

  predicate Base58Character(c: char) {
    || '1' <= c <= '9'
    || ('A' <= c <= 'Z' && c != 'I' && c != 'O')
    || ('a' <= c <= 'z' && c != 'l')
  }

  /** The alphabet is the digits without zero and the letters without capital I, capital O and small l. */
  lemma AlphabetIs(c: char)
    ensures c in DIGITS58 <==> Base58Character(c)
  {
    NumbersAndUpper();
    Upper();
    Lower();
    RangeHas('1', 9, c);
    RangeHas('A', 8, c);
    RangeHas('J', 5, c);
    RangeHas('P', 11, c);
    RangeHas('a', 11, c);
    RangeHas('m', 14, c);
    hide Range;
  }

  lemma RangeHas(first: char, n: nat, c: char)
    requires first as int + n < 0xD800
    ensures c in Range(first, n) <==> first as int <= c as int < first as int + n
  {
    if first as int <= c as int < first as int + n {
      assert Range(first, n)[c as int - first as int] == c;
    }
  }

  lemma NumbersAndUpper()
    ensures "123456789" == Range('1', 9) && "ABCDEFGH" == Range('A', 8)
  {
  }

  lemma Upper()
    ensures "JKLMN" == Range('J', 5) && "PQRSTUVWXYZ" == Range('P', 11)
  {
  }

  lemma Lower()
    ensures "abcdefghijk" == Range('a', 11) && "mnopqrstuvwxyz" == Range('m', 14)
  {
  }

  /** The first place of `c`, or -1. */
  function Find(s: string, c: char): (k: int)
    ensures k == -1 ==> c !in s
    ensures k != -1 ==> 0 <= k < |s| && s[k] == c
  {
    if s == "" then -1 else if s[0] == c then 0 else
      var k := Find(s[1..], c);
      if k == -1 then -1 else k + 1
  }

  predicate InAlphabet(s: string) { forall i :: 0 <= i < |s| ==> s[i] in DIGITS58 }

  function Indexes(s: string): (ds: seq<nat>)
    requires InAlphabet(s)
    ensures |ds| == |s| && IsNumeral(ds, 58)
    ensures forall i :: 0 <= i < |ds| ==> DIGITS58[ds[i]] == s[i]
  {
    AlphabetAscends();
    seq(|s|, i requires 0 <= i < |s| => Find(DIGITS58, s[i]))
  }

  function Symbol(d: nat): char
    requires d < 58
  {
    AlphabetAscends();
    DIGITS58[d]
  }

  function Chars(ds: seq<nat>): (s: string)
    requires IsNumeral(ds, 58)
    ensures |s| == |ds| && InAlphabet(s)
  {
    AlphabetAscends();
    seq(|ds|, i requires 0 <= i < |ds| => Symbol(ds[i]))
  }

  lemma IndexesOfChars(ds: seq<nat>)
    requires IsNumeral(ds, 58)
    ensures Indexes(Chars(ds)) == ds
  {
    AlphabetAscends();
    forall i | 0 <= i < |ds| ensures Indexes(Chars(ds))[i] == ds[i] {
      var a, b := Indexes(Chars(ds))[i], ds[i];
      assert DIGITS58[a] == DIGITS58[b];
    }
  }

  lemma CharsOfIndexes(s: string)
    requires InAlphabet(s)
    ensures Chars(Indexes(s)) == s
  {
  }

  // ---- bytes and integers ----

  /** The sum of the last `i` bytes, each shifted to its place. */
  function ShiftedSum(b: seq<nat>, i: nat): nat
    requires i <= |b|
  {
    if i == 0 then 0 else ShiftedSum(b, i - 1) + Times(b[|b| - i], Pow(256, i - 1))
  }

  function BytesToLong(b: Bytes): nat { ShiftedSum(b, |b|) }

  function LongToBytes(n: nat, length: nat): (b: Bytes)
    ensures |b| == length
  {
    seq(length, k requires 0 <= k < length => n / Pow(256, length - 1 - k) % 256)
  }

  lemma {:induction false} ValueFront(d: nat, ds: seq<nat>, base: nat)
    ensures Value([d] + ds, base) == Times(d, Pow(base, |ds|)) + Value(ds, base)
  {
    var all := [d] + ds;
    if ds == [] {
      assert all[..0] == [];
    } else {
      var front := ds[..|ds| - 1];
      assert all[..|all| - 1] == [d] + front;
      ValueFront(d, front, base);
      Shifted(d, Pow(base, |front|), Value(front, base), base);
    }
  }

  lemma Shifted(d: nat, p: nat, v: nat, base: nat)
    ensures Times(Times(d, p) + v, base) == Times(d, Times(base, p)) + Times(v, base)
  {
    assert (d * p + v) * base == d * (base * p) + v * base;
  }

  lemma {:induction false} ShiftedIsValue(b: seq<nat>, i: nat)
    requires i <= |b|
    ensures ShiftedSum(b, i) == Value(b[|b| - i..], 256)
  {
    if i > 0 {
      ShiftedIsValue(b, i - 1);
      assert b[|b| - i..] == [b[|b| - i]] + b[|b| - i + 1..];
      ValueFront(b[|b| - i], b[|b| - i + 1..], 256);
    }
  }

  lemma LongIsValue(b: Bytes)
    ensures BytesToLong(b) == Value(b, 256)
  {
    ShiftedIsValue(b, |b|);
    assert b[0..] == b;
  }

  lemma BytesAreLast(n: nat, length: nat)
    ensures LongToBytes(n, length) == Last(n, length, 256)
  {
    forall k | 0 <= k < length ensures LongToBytes(n, length)[k] == Last(n, length, 256)[k] {
      LastAt(n, length, 256, length - 1 - k);
    }
  }

  // ---- the codec ----

  function Encoded(b: Bytes): string { Chars(Zeros(Leading(b)) + Digits(Value(b, 256), 58)) }

  function Decoded(s: string, length: nat): Result<Bytes> {
    if InAlphabet(s) then Ok(Last(Value(Indexes(s), 58), length, 256)) else ValueError
  }

  /** A character outside the alphabet raises; a number that needs more bytes is cut off. */
  method DecodeBase58(address: string, length: nat) returns (r: Result<Bytes>)
    ensures r == Decoded(address, length)
  {
    var n: nat := 0;
    for i := 0 to |address|
      invariant InAlphabet(address[..i]) && n == Value(Indexes(address[..i]), 58)
    {
      var index := Find(DIGITS58, address[i]);
      if index == -1 { return ValueError; }
      n := Times(n, 58) + index;
      var seen, next := address[..i], address[..i + 1];
      assert next == seen + [address[i]];
      assert Indexes(next)[..i] == Indexes(seen);
    }
    assert address[..|address|] == address;
    BytesAreLast(n, length);
    r := Ok(LongToBytes(n, length));
  }

  function Reversed(s: string): string { if s == "" then "" else Reversed(s[1..]) + [s[0]] }

  lemma {:induction false} ReversedSnoc(s: string, c: char)
    ensures Reversed(s + [c]) == [c] + Reversed(s)
  {
    if s == "" {
      assert Reversed([c]) == Reversed("") + [c];
    } else {
      assert (s + [c])[1..] == s[1..] + [c];
      ReversedSnoc(s[1..], c);
    }
  }

  method CountZeros(b: Bytes) returns (zeros: nat)
    ensures zeros == Leading(b)
  {
    zeros := 0;
    for i := 0 to |b|
      invariant zeros == i && b[..i] == Zeros(i)
    {
      if b[i] != 0 { break; }
      zeros := zeros + 1;
    }
    assert b == Zeros(zeros) + b[zeros..];
    LeadingOf(zeros, b[zeros..]);
  }

  /** The digits of `n`, last one first. */
  method WriteDigits(v: nat) returns (result: string)
    ensures Reversed(result) == Chars(Digits(v, 58))
  {
    hide Digits;
    hide Chars;
    hide Symbol;
    hide InAlphabet;
    result := "";
    DivSmaller(v, 58);
    var n: nat, rest: nat := v / 58, v % 58;
    assert Chars(Digits(v, 58)) + Reversed("") == Chars(Digits(v, 58));
    while n > 0 || rest > 0
      invariant 0 <= rest < 58
      invariant Chars(Digits(v, 58)) == Chars(Digits(n * 58 + rest, 58)) + Reversed(result)
      decreases n * 58 + rest
    {
      StepDigits(n, rest);
      ReversedSnoc(result, Symbol(rest));
      assert Chars(Digits(n, 58)) + [Symbol(rest)] + Reversed(result)
          == Chars(Digits(n, 58)) + ([Symbol(rest)] + Reversed(result));
      result := result + [Symbol(rest)];
      DivSmaller(n, 58);
      n, rest := n / 58, n % 58;
    }
    assert n * 58 + rest == 0 && Digits(0, 58) == [] && Chars([]) == [];
  }

  method EncodeBase58(b: Bytes) returns (s: string)
    ensures s == Encoded(b)
  {
    hide Chars;
    hide Digits;
    var zeros := CountZeros(b);
    LongIsValue(b);
    var result := WriteDigits(BytesToLong(b));
    s := Ones(zeros) + Reversed(result);
    ZerosAreOnes(zeros, Digits(Value(b, 256), 58));
  }

  function Ones(k: nat): string { seq(k, _ => '1') }

  lemma ZerosAreOnes(k: nat, ds: seq<nat>)
    requires IsNumeral(ds, 58)
    ensures Chars(Zeros(k) + ds) == Ones(k) + Chars(ds)
  {
    assert Symbol(0) == '1';
  }

  lemma StepDigits(n: nat, rest: nat)
    requires rest < 58 && n * 58 + rest > 0
    ensures Chars(Digits(n * 58 + rest, 58)) == Chars(Digits(n, 58)) + [Symbol(rest)]
  {
    AlphabetAscends();
    QuotientUnique(n * 58 + rest, 58, n, rest);
  }

  // ---- round trips ----

  /** Decoding undoes encoding. */
  lemma DecodeEncode(b: Bytes)
    ensures Decoded(Encoded(b), |b|) == Ok(b)
  {
    var ds := Digits(Value(b, 256), 58);
    var all := Zeros(Leading(b)) + ds;
    IndexesOfChars(all);
    ZerosInFront(Leading(b), ds, 58);
    ValueOfDigits(Value(b, 256), 58);
    LastOfValue(b, 256);
  }

  /** An encoding denotes the number that the bytes denote, and starts with a 1 for each zero they start with. */
  lemma EncodedIs(b: Bytes)
    ensures InAlphabet(Encoded(b)) && Value(Indexes(Encoded(b)), 58) == BytesToLong(b)
    ensures LeadingOnes(Encoded(b)) == Leading(b)
  {
    var ds := Digits(Value(b, 256), 58);
    var all := Zeros(Leading(b)) + ds;
    LongIsValue(b);
    IndexesOfChars(all);
    ZerosInFront(Leading(b), ds, 58);
    ValueOfDigits(Value(b, 256), 58);
    LeadingOf(Leading(b), ds);
  }

  /** How many 1s a string starts with. */
  function LeadingOnes(s: string): nat
    requires InAlphabet(s)
  {
    Leading(Indexes(s))
  }

  /** Encoding undoes decoding exactly for strings whose number fits in `length` bytes and which start
      with as many 1s as those bytes start with zeros. */
  lemma EncodeDecode(s: string, length: nat)
    requires InAlphabet(s)
    ensures var b := Decoded(s, length).value;
      Encoded(b) == s
      <==> Value(Indexes(s), 58) < Pow(256, length) && LeadingOnes(s) == Leading(b)
  {
    hide Value;
    hide Digits;
    hide Pow;
    hide Last;
    var ds := Indexes(s);
    var n := Value(ds, 58);
    var b := Decoded(s, length).value;
    var m := Value(b, 256);
    var all := Zeros(Leading(b)) + Digits(m, 58);
    ValueOfLast(n, length, 256);
    if Encoded(b) == s {
      IndexesOfChars(all);
      ZerosInFront(Leading(b), Digits(m, 58), 58);
      ValueOfDigits(m, 58);
      LeadingOf(Leading(b), Digits(m, 58));
    }
    if n < Pow(256, length) && Leading(ds) == Leading(b) {
      var k := Leading(ds);
      LeadingZeros(ds);
      ZerosInFront(k, ds[k..], 58);
      DigitsOfValue(ds[k..], 58);
      assert all == ds;
      CharsOfIndexes(s);
    }
  }

  // ---- addresses ----

  /** is_valid_btc_address, for any checksum: 21 bytes of payload, 4 of checksum, written in the one
      way the encoder writes them. */
  predicate IsValidAddress(s: string, checksum: Bytes -> Bytes) {
    var r := Decoded(s, 25);
    r.Ok? && r.value[21..] == FirstFour(checksum(r.value[..21]))
    && s == Encoded(r.value)
  }

  function FirstFour(b: Bytes): Bytes { if |b| <= 4 then b else b[..4] }

  predicate FourBytes(checksum: Bytes -> Bytes, p: Bytes) { |checksum(p)| >= 4 }

  /** An address is valid exactly if it encodes some payload with its checksum: there is one
      spelling per payload. */
  lemma ValidAddresses(s: string, checksum: Bytes -> Bytes)
    requires forall p: Bytes :: FourBytes(checksum, p)
    ensures IsValidAddress(s, checksum)
       <==> exists p: Bytes :: |p| == 21 && FourBytes(checksum, p) && s == Encoded(p + checksum(p)[..4])
  {
    if IsValidAddress(s, checksum) {
      var b := Decoded(s, 25).value;
      var p: Bytes := b[..21];
      assert FourBytes(checksum, p);
      assert b == p + checksum(p)[..4];
    }
    if p: Bytes :| |p| == 21 && FourBytes(checksum, p) && s == Encoded(p + checksum(p)[..4]) {
      var b: Bytes := p + checksum(p)[..4];
      DecodeEncode(b);
      assert b[..21] == p && b[21..] == checksum(p)[..4];
    }
  }
}
