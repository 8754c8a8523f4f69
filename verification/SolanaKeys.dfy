/**
 The base-58 check of Solana public keys: digits are read into a growing little-endian byte array by
 multiply-and-carry, leading '1's add zero bytes, and a key is accepted when the array has 32 bytes.
 */
module SolanaKeys {
  import opened Text

  /**
   Position of `c` in the base-58 alphabet: the digits and letters in order, without '0', 'I', 'O' and 'l';
   -1 for every other character.
   */
  function Digit(c: char): (r: int)
    ensures -1 <= r < 58
  {
    if '1' <= c <= '9' then c as int - '1' as int
    else if 'A' <= c <= 'H' then 9 + (c as int - 'A' as int)
    else if 'J' <= c <= 'N' then 17 + (c as int - 'J' as int)
    else if 'P' <= c <= 'Z' then 22 + (c as int - 'P' as int)
    else if 'a' <= c <= 'k' then 33 + (c as int - 'a' as int)
    else if 'm' <= c <= 'z' then 44 + (c as int - 'm' as int)
    else -1
  }

  lemma DigitIsInjective(c: char, d: char)
    requires Digit(c) == Digit(d) >= 0
    ensures c == d
  {
  }

  /** The digits in order of their value. */
  const ALPHABET: string := "123456789" + ("ABCDEFGH" + ("JKLMN" + ("PQRSTUVWXYZ" + ("abcdefghijk" + "mnopqrstuvwxyz"))))

  /** `run` counts up from `first`. */
  predicate IsRun(run: string, first: char) {
    forall i :: 0 <= i < |run| ==> run[i] as int == first as int + i
  }

  lemma Runs()
    ensures IsRun("123456789", '1') && IsRun("ABCDEFGH", 'A') && IsRun("JKLMN", 'J')
    ensures IsRun("PQRSTUVWXYZ", 'P') && IsRun("abcdefghijk", 'a') && IsRun("mnopqrstuvwxyz", 'm')
    ensures |"123456789"| == 9 && |"ABCDEFGH"| == 8 && |"JKLMN"| == 5
    ensures |"PQRSTUVWXYZ"| == 11 && |"abcdefghijk"| == 11 && |"mnopqrstuvwxyz"| == 14
  {
  }

  lemma Placed(a: string, b: string, c: string, d: string, e: string, f: string, i: nat)
    requires |a| == 9 && |b| == 8 && |c| == 5 && |d| == 11 && |e| == 11 && |f| == 14
    requires IsRun(a, '1') && IsRun(b, 'A') && IsRun(c, 'J') && IsRun(d, 'P') && IsRun(e, 'a') && IsRun(f, 'm')
    ensures var s := a + (b + (c + (d + (e + f))));
      |s| == 58 && (i < 58 ==> Digit(s[i]) == i)
  {
  }

  /** Every character of the alphabet is the digit of its place. */
  lemma AlphabetDigit(i: nat)
    ensures |ALPHABET| == 58
    ensures i < 58 ==> Digit(ALPHABET[i]) == i
  {
    Runs();
    hide IsRun, Digit;
    Placed("123456789", "ABCDEFGH", "JKLMN", "PQRSTUVWXYZ", "abcdefghijk", "mnopqrstuvwxyz", i);
  }

  /** The value of a character is its place in the alphabet, and -1 exactly outside it. */
  lemma DigitIsIndex(c: char)
    ensures Digit(c) >= 0 ==> Digit(c) < |ALPHABET| && ALPHABET[Digit(c)] == c
    ensures forall i :: 0 <= i < |ALPHABET| && ALPHABET[i] == c ==> Digit(c) == i
  {
    hide ALPHABET, Digit;
    AlphabetDigit(0);
    if Digit(c) >= 0 {
      AlphabetDigit(Digit(c));
      DigitIsInjective(ALPHABET[Digit(c)], c);
    }
    forall i | 0 <= i < |ALPHABET| && ALPHABET[i] == c
      ensures Digit(c) == i
    {
      AlphabetDigit(i);
    }
  }

  ghost predicate Base58(s: string) {
    forall i :: 0 <= i < |s| ==> Digit(s[i]) >= 0
  }

  // ---- Reference: positional values ----

  function Value58(s: string): int {
    if s == [] then 0 else 58 * Value58(s[..|s| - 1]) + Digit(s[|s| - 1])
  }

  function Value256(bytes: seq<int>): int {
    if bytes == [] then 0 else bytes[0] + 256 * Value256(bytes[1..])
  }

  /** The least number of bytes that can hold `v`; zero needs none. */
  function ByteLength(v: nat): nat {
    if v == 0 then 0 else 1 + ByteLength(v / 256)
  }

  function DigitLength(v: nat): nat {
    if v == 0 then 0 else 1 + DigitLength(v / 58)
  }

  function LeadingOnes(s: string): (n: nat)
    ensures n <= |s|
  {
    if s == [] || s[0] != '1' then 0 else 1 + LeadingOnes(s[1..])
  }

  function Zeros(n: nat): (r: seq<int>)
    ensures |r| == n && forall i :: 0 <= i < n ==> r[i] == 0
  {
    seq(n, _ => 0)
  }

  // ---- Multiply and carry ----

  function Spill(carry: nat): seq<int> {
    if carry == 0 then [] else [carry % 256] + Spill(carry / 256)
  }

  /** `bytes * 58 + carry`, one byte at a time, then the bytes the final carry spills into. */
  function MultiplyAdd(bytes: seq<int>, carry: nat): seq<int>
    requires AreBytes(bytes)
  {
    if bytes == [] then Spill(carry)
    else
      var c := carry + bytes[0] * 58;
      [c % 256] + MultiplyAdd(bytes[1..], c / 256)
  }

  /** The carry left after the given bytes. */
  function CarryAfter(bytes: seq<int>, carry: nat): nat
    requires AreBytes(bytes)
  {
    if bytes == [] then carry else CarryAfter(bytes[1..], (carry + bytes[0] * 58) / 256)
  }

  /** Between bytes the carry never exceeds 57, so every intermediate value fits a 32-bit shift. */
  lemma {:induction false} CarryStaysSmall(bytes: seq<int>, carry: nat)
    requires AreBytes(bytes) && carry <= 57
    ensures CarryAfter(bytes, carry) <= 57
    ensures bytes != [] ==> carry + bytes[0] * 58 < 0x8000_0000
  {
    if bytes != [] {
      CarryStaysSmall(bytes[1..], (carry + bytes[0] * 58) / 256);
    }
  }

  function Decode(s: string): (bytes: seq<int>)
    requires Base58(s)
    ensures AreBytes(bytes)
  {
    if s == [] then [0]
    else
      var before := Decode(s[..|s| - 1]);
      MultiplyAddBytes(before, Digit(s[|s| - 1]));
      MultiplyAdd(before, Digit(s[|s| - 1]))
  }

  /** The array the source ends up with: decoded bytes, then one zero byte for every leading '1'. */
  function KeyBytes(s: string): seq<int>
    requires Base58(s)
  {
    Decode(s) + Zeros(LeadingOnes(s))
  }

  predicate AreBytes(bytes: seq<int>) {
    forall i :: 0 <= i < |bytes| ==> 0 <= bytes[i] < 256
  }

  lemma {:induction false} SpillBytes(carry: nat)
    ensures AreBytes(Spill(carry))
    ensures Value256(Spill(carry)) == carry
    ensures carry > 0 ==> Spill(carry) != [] && Spill(carry)[|Spill(carry)| - 1] > 0
  {
    if carry > 0 {
      SpillBytes(carry / 256);
      assert Spill(carry)[1..] == Spill(carry / 256);
      if carry < 256 { assert Spill(carry / 256) == []; }
    }
  }

  lemma {:induction false} MultiplyAddBytes(bytes: seq<int>, carry: nat)
    requires AreBytes(bytes)
    ensures AreBytes(MultiplyAdd(bytes, carry))
    ensures Value256(MultiplyAdd(bytes, carry)) == 58 * Value256(bytes) + carry
  {
    if bytes == [] {
      SpillBytes(carry);
    } else {
      var c := carry + bytes[0] * 58;
      MultiplyAddBytes(bytes[1..], c / 256);
      assert MultiplyAdd(bytes, carry)[1..] == MultiplyAdd(bytes[1..], c / 256);
    }
  }

  lemma {:induction false} ValuePositive(bytes: seq<int>)
    requires AreBytes(bytes) && bytes != [] && bytes[|bytes| - 1] > 0
    ensures Value256(bytes) > 0
  {
    if |bytes| > 1 {
      ValuePositive(bytes[1..]);
    }
  }

  lemma {:induction false} ValueNonNegative(bytes: seq<int>)
    requires AreBytes(bytes)
    ensures Value256(bytes) >= 0
  {
    if bytes != [] {
      ValueNonNegative(bytes[1..]);
    }
  }

  /** A non-zero top byte stays non-zero: either the carry spills, or the top byte kept its whole product. */
  lemma {:induction false} TopStaysNonZero(bytes: seq<int>, carry: nat)
    requires AreBytes(bytes) && bytes != [] && bytes[|bytes| - 1] > 0
    ensures var r := MultiplyAdd(bytes, carry); r != [] && r[|r| - 1] > 0
  {
    var c := carry + bytes[0] * 58;
    if |bytes| == 1 {
      SpillBytes(c / 256);
      assert bytes[1..] == [];
    } else {
      TopStaysNonZero(bytes[1..], c / 256);
    }
  }

  lemma {:induction false} ByteLengthOf(bytes: seq<int>)
    requires AreBytes(bytes) && (bytes != [] ==> bytes[|bytes| - 1] > 0)
    ensures Value256(bytes) >= 0 && ByteLength(Value256(bytes)) == |bytes|
  {
    if bytes != [] {
      ByteLengthOf(bytes[1..]);
      ValuePositive(bytes);
      assert Value256(bytes) / 256 == Value256(bytes[1..]);
    }
  }

  lemma DecodeStep(s: string)
    requires Base58(s)
    ensures s == [] ==> Decode(s) == [0]
    ensures s != [] ==> Decode(s) == MultiplyAdd(Decode(s[..|s| - 1]), Digit(s[|s| - 1]))
  {
  }

  lemma FirstDigit(d: nat)
    requires d < 58
    ensures MultiplyAdd([0], d) == [d]
  {
    assert [0][1..] == [];
    assert MultiplyAdd([0], d) == [d % 256] + MultiplyAdd([], 0);
  }

  lemma {:induction false} ZeroValueMeansOnes(s: string)
    requires Base58(s)
    ensures Value58(s) >= 0 && (Value58(s) == 0 <==> LeadingOnes(s) == |s|)
  {
    hide LeadingOnes;
    if s != [] {
      ZeroValueMeansOnes(s[..|s| - 1]);
      OnesOfFront(s);
      DigitOfOne(s[|s| - 1]);
    }
  }

  /** `bytes` denotes `v` with a non-zero top byte; zero is the single byte the array starts as. */
  ghost predicate Denotes(bytes: seq<int>, v: int) {
    && v >= 0
    && AreBytes(bytes) && Value256(bytes) == v
    && (v == 0 ==> bytes == [0])
    && (v > 0 ==> bytes != [] && bytes[|bytes| - 1] > 0)
  }

  lemma NextDigit(bytes: seq<int>, v: int, d: nat)
    requires Denotes(bytes, v) && d < 58
    ensures Denotes(MultiplyAdd(bytes, d), 58 * v + d)
  {
    MultiplyAddBytes(bytes, d);
    if v > 0 {
      TopStaysNonZero(bytes, d);
    } else {
      FirstDigit(d);
    }
  }

  lemma NoDigits()
    ensures Denotes([0], 0)
  {
    assert [0][1..] == [];
  }

  lemma {:induction false} DecodeSteps(s: string)
    requires Base58(s)
    ensures Denotes(Decode(s), Value58(s))
  {
    hide MultiplyAdd, Decode, Denotes, Digit;
    DecodeStep(s);
    if s != [] {
      var front := s[..|s| - 1];
      DecodeSteps(front);
      NextDigit(Decode(front), Value58(front), Digit(s[|s| - 1]));
    } else {
      NoDigits();
    }
  }

  /**
   After any number of characters the array denotes, in base 256, the base-58 value of what was read, and its top
   byte is non-zero unless that value is zero, when the array is the single byte it started as.
   */
  lemma DecodeDenotes(s: string)
    requires Base58(s)
    ensures Value58(s) >= 0 && Value256(Decode(s)) == Value58(s)
    ensures Value58(s) == 0 ==> Decode(s) == [0]
    ensures Value58(s) > 0 ==> Decode(s) != [] && Decode(s)[|Decode(s)| - 1] > 0
  {
    hide Decode, Value58, Value256, AreBytes, Digit;
    DecodeSteps(s);
  }

  lemma DigitOfOne(c: char)
    ensures Digit(c) == 0 <==> c == '1'
  {
  }

  lemma {:induction false} OnesOfFront(s: string)
    requires s != []
    ensures var front := s[..|s| - 1];
      LeadingOnes(s) == if LeadingOnes(front) == |front| && s[|s| - 1] == '1' then |s| else LeadingOnes(front)
  {
    if |s| > 1 {
      OnesOfFront(s[1..]);
      assert s[1..][..|s[1..]| - 1] == s[..|s| - 1][1..];
    }
  }

  // ---- The check ----

  /** `bytes.push(carry & 0xff)` until the carry is used up. */
  method PushCarry(bytes: seq<int>, carry: nat) returns (r: seq<int>)
    ensures r == bytes + Spill(carry)
  {
    var rest := carry;
    r := bytes;
    while rest > 0
      invariant r + Spill(rest) == bytes + Spill(carry)
    {
      r := r + [rest % 256];
      rest := rest / 256;
    }
  }

  /** One character: every byte times 58 plus the carry, which never exceeds 57 between bytes. */
  method AddDigit(bytes: seq<int>, valueIndex: nat) returns (r: seq<int>)
    requires AreBytes(bytes) && valueIndex < 58
    ensures r == MultiplyAdd(bytes, valueIndex)
  {
    hide Spill;
    var carry := valueIndex;
    r := bytes;
    for index := 0 to |bytes|
      invariant |r| == |bytes| && r[index..] == bytes[index..]
      invariant 0 <= carry <= 57
      invariant r[..index] + MultiplyAdd(bytes[index..], carry) == MultiplyAdd(bytes, valueIndex)
    {
      ghost var done := r[..index];
      carry := carry + r[index] * 58;
      assert carry < 0x8000_0000;
      r := r[index := carry % 256];
      carry := carry / 256;
      assert r[..index + 1] == done + [r[index]];
      assert bytes[index..][1..] == bytes[index + 1..];
    }
    assert r[..|bytes|] == r && bytes[|bytes|..] == [];
    r := PushCarry(r, carry);
  }

  method IsSolanaPublicKey(value: string) returns (ok: bool)
    ensures ok <==> 32 <= |value| <= 44 && Base58(value) && |KeyBytes(value)| == 32
  {
    hide Decode, Digit, MultiplyAdd, Trim;
    var trimmed := Trim(value);
    if trimmed != value || |trimmed| < 32 || |trimmed| > 44 {
      if Base58(value) { Base58HasNoSpace(value); }
      return false;
    }
    var bytes := [0];
    DecodeStep([]);
    for i := 0 to |trimmed|
      invariant Base58(trimmed[..i]) && bytes == Decode(trimmed[..i])
    {
      var valueIndex := Digit(trimmed[i]);
      if valueIndex < 0 {
        return false;
      }
      DigitOfOne(trimmed[i]);
      bytes := AddDigit(bytes, valueIndex);
      assert trimmed[..i + 1][..i] == trimmed[..i];
      DecodeStep(trimmed[..i + 1]);
    }
    assert trimmed[..|trimmed|] == trimmed;
    var i := 0;
    while i < |trimmed| && trimmed[i] == '1'
      invariant 0 <= i <= |trimmed|
      invariant LeadingOnes(trimmed) == i + LeadingOnes(trimmed[i..])
      invariant bytes == Decode(trimmed) + Zeros(i)
    {
      assert trimmed[i..][1..] == trimmed[i + 1..];
      bytes := bytes + [0];
      i := i + 1;
    }
    return |bytes| == 32;
  }

  lemma Base58HasNoSpace(s: string)
    requires Base58(s)
    ensures Trim(s) == s
  {
    forall i | 0 <= i < |s|
      ensures !IsSpace(s[i])
    {
      assert Digit(s[i]) >= 0;
    }
  }

  // ---- What is accepted ----

  /** A base-58 string that encodes exactly 32 bytes. */
  ghost predicate Encodes32Bytes(s: string) {
    Base58(s) && Value58(s) >= 0 && LeadingOnes(s) + ByteLength(Value58(s)) == 32
  }

  ghost predicate Accepted(s: string) {
    32 <= |s| <= 44 && Base58(s) && |KeyBytes(s)| == 32
  }

  lemma {:induction false} LengthFromValue(s: string)
    requires Base58(s)
    ensures Value58(s) >= 0 && |s| == LeadingOnes(s) + DigitLength(Value58(s))
  {
    hide LeadingOnes;
    ZeroValueMeansOnes(s);
    if s != [] {
      var front, d := s[..|s| - 1], Digit(s[|s| - 1]);
      LengthFromValue(front);
      ZeroValueMeansOnes(front);
      OnesOfFront(s);
      DigitOfOne(s[|s| - 1]);
      if Value58(s) > 0 {
        assert Value58(s) / 58 == Value58(front);
      }
    }
  }

  // ---- How long a string that encodes 32 bytes can be ----

  function Power(base: nat, n: nat): nat {
    if n == 0 then 1 else base * Power(base, n - 1)
  }

  lemma {:induction false} ByteLengthBounds(v: nat)
    ensures v < Power(256, ByteLength(v))
    ensures ByteLength(v) <= DigitLength(v)
  {
    if v > 0 {
      ByteLengthBounds(v / 256);
      assert v / 256 <= v / 58;
      DigitLengthGrows(v / 256, v / 58);
    }
  }

  lemma {:induction false} DigitLengthGrows(v: nat, w: nat)
    requires v <= w
    ensures DigitLength(v) <= DigitLength(w)
  {
    if v > 0 {
      assert v / 58 <= w / 58;
      DigitLengthGrows(v / 58, w / 58);
    }
  }

  lemma {:induction false} DigitLengthAtMost(v: nat, n: nat)
    requires v < Power(58, n)
    ensures DigitLength(v) <= n
  {
    if v > 0 {
      assert v / 58 < Power(58, n - 1);
      DigitLengthAtMost(v / 58, n - 1);
    }
  }

  lemma PowerStep(base: nat, n: nat)
    ensures Power(base, n + 1) == base * Power(base, n)
    ensures Power(base, 0) == 1
  {
  }

  lemma TimesAssociates(a: nat, b: nat, c: nat)
    ensures a * (b * c) == (a * b) * c
  {
  }

  lemma {:induction false} PowerOfSum(base: nat, m: nat, n: nat)
    ensures Power(base, m + n) == Power(base, m) * Power(base, n)
  {
    hide Power;
    PowerStep(base, 0);
    if m > 0 {
      PowerOfSum(base, m - 1, n);
      PowerStep(base, m - 1);
      PowerStep(base, m - 1 + n);
      TimesAssociates(base, Power(base, m - 1), Power(base, n));
    }
  }

  lemma SquareKeepsOrder(a: nat, b: nat)
    requires a <= b
    ensures a * a <= b * b
  {
    assert a * a <= a * b <= b * b;
  }

  /** Eight bytes fit into eleven digits, hence 32 into 44. */
  lemma FortyFourDigits()
    ensures Power(256, 32) <= Power(58, 44)
  {
    assert Power(256, 4) == 0x1_0000_0000;
    assert Power(58, 5) == 656356768 && Power(58, 6) == 38068692544;
    PowerOfSum(256, 4, 4);
    PowerOfSum(58, 5, 6);
    hide Power;
    PowerOfSum(256, 8, 8);
    PowerOfSum(58, 11, 11);
    PowerOfSum(256, 16, 16);
    PowerOfSum(58, 22, 22);
    SquareKeepsOrder(Power(256, 8), Power(58, 11));
    SquareKeepsOrder(Power(256, 16), Power(58, 22));
  }

  /** Up to 32 bytes, twelve more digits than bytes are enough. */
  lemma {:induction false} TwelveMoreDigits(b: nat)
    requires b <= 32
    ensures Power(256, b) <= Power(58, b + 12)
    decreases 32 - b
  {
    hide Power;
    if b < 32 {
      TwelveMoreDigits(b + 1);
      PowerStep(256, b);
      PowerStep(58, b + 12);
    } else {
      FortyFourDigits();
    }
  }

  /** The length bounds of the check follow from the encoding: they refuse nothing that encodes 32 bytes. */
  lemma EncodingFixesLength(s: string)
    requires Encodes32Bytes(s)
    ensures 32 <= |s| <= 44
  {
    var v := Value58(s);
    LengthFromValue(s);
    ByteLengthBounds(v);
    TwelveMoreDigits(ByteLength(v));
    DigitLengthAtMost(v, ByteLength(v) + 12);
  }

  /**
   Accepted strings are those that encode 32 bytes, except the one whose 32 bytes are all zero: 32 times '1' encodes
   them, and the array the source builds for it has 33.
   */
  lemma AcceptedIff(s: string)
    ensures Accepted(s) <==> Encodes32Bytes(s) && LeadingOnes(s) < |s|
  {
    if Encodes32Bytes(s) { EncodingFixesLength(s); }
    if Base58(s) {
      DecodeDenotes(s);
      ZeroValueMeansOnes(s);
      hide Decode, Digit, Value58;
      if Value58(s) > 0 {
        ByteLengthOf(Decode(s));
      }
    }
  }

  /** The single string, among all strings, on which the check and the encoding disagree. */
  lemma OnlyAllOnesIsMisjudged(s: string)
    ensures (Accepted(s) <==> Encodes32Bytes(s)) <==> !(|s| == 32 && LeadingOnes(s) == 32)
  {
    AcceptedIff(s);
    if LeadingOnes(s) == |s| {
      AllOnesIsBase58(s);
      ZeroValueMeansOnes(s);
    }
  }

  lemma {:induction false} AllOnesIsBase58(s: string)
    requires LeadingOnes(s) == |s|
    ensures Base58(s)
  {
    if s != [] {
      AllOnesIsBase58(s[1..]);
      DigitOfOne(s[0]);
      forall i | 0 <= i < |s|
        ensures Digit(s[i]) >= 0
      {
        if i > 0 { assert s[i] == s[1..][i - 1]; }
      }
    }
  }

  // ---- Different keys have different bytes ----

  lemma {:induction false} SameLengthSameValue(s: string, t: string)
    requires Base58(s) && Base58(t) && |s| == |t| && Value58(s) == Value58(t)
    ensures s == t
  {
    hide Digit;
    if s != [] {
      var c, d := s[|s| - 1], t[|t| - 1];
      assert Digit(c) == Digit(d);
      DigitIsInjective(c, d);
      SameLengthSameValue(s[..|s| - 1], t[..|t| - 1]);
      assert s == s[..|s| - 1] + [c] && t == t[..|t| - 1] + [d];
    }
  }

  lemma SplitsTheSame(a: seq<int>, m: nat, b: seq<int>, n: nat)
    requires a + Zeros(m) == b + Zeros(n)
    requires a != [] && a[|a| - 1] > 0 && b != [] && b[|b| - 1] > 0
    ensures a == b && m == n
  {
    var whole := a + Zeros(m);
    assert whole[|a| - 1] == a[|a| - 1] && whole[|b| - 1] == b[|b| - 1];
    assert forall i :: |a| <= i < |whole| ==> whole[i] == 0;
    assert forall i :: |b| <= i < |whole| ==> whole[i] == 0;
    assert |a| == |b|;
    assert a == whole[..|a|] && b == whole[..|b|];
  }

  /** Two strings that are not all '1's and decode to the same array are the same string. */
  lemma KeyBytesInjective(s: string, t: string)
    requires Base58(s) && Base58(t) && LeadingOnes(s) < |s| && LeadingOnes(t) < |t|
    requires KeyBytes(s) == KeyBytes(t)
    ensures s == t
  {
    hide Decode, Value58, Value256, LeadingOnes, Base58, AreBytes, DigitLength;
    DecodeDenotes(s);
    DecodeDenotes(t);
    ZeroValueMeansOnes(s);
    ZeroValueMeansOnes(t);
    SplitsTheSame(Decode(s), LeadingOnes(s), Decode(t), LeadingOnes(t));
    LengthFromValue(s);
    LengthFromValue(t);
    SameLengthSameValue(s, t);
  }

  /** In particular no two accepted keys denote the same 32 bytes. */
  lemma AcceptedKeysAreDistinct(s: string, t: string)
    requires Accepted(s) && Accepted(t) && s != t
    ensures KeyBytes(s) != KeyBytes(t)
  {
    AcceptedIff(s);
    AcceptedIff(t);
    if KeyBytes(s) == KeyBytes(t) {
      KeyBytesInjective(s, t);
    }
  }
}
