/** Base58 decoding of public keys: a number in base 58 becomes a number in base 256, in place. */
module Base58 {
  import opened Basics

  type byte = n: int | 0 <= n < 256

  /** ALPHABET_MAP: the value of a character, -1 outside the alphabet. */
  function Digit(c: char): (d: int)
    ensures -1 <= d < 58
  {
    if '1' <= c <= '9' then c as int - '1' as int
    else if 'A' <= c <= 'H' then c as int - 'A' as int + 9
    else if 'J' <= c <= 'N' then c as int - 'J' as int + 17
    else if 'P' <= c <= 'Z' then c as int - 'P' as int + 22
    else if 'a' <= c <= 'k' then c as int - 'a' as int + 33
    else if 'm' <= c <= 'z' then c as int - 'm' as int + 44
    else -1
  }

  const ALPHABET: string :=
    "123456789" + "ABCDEFGH" + "JKLMN" + "PQRSTUVWXYZ" + "abcdefghijk" + "mnopqrstuvwxyz"

  /** Characters are told apart by their values. */
  lemma DigitsDiffer(a: char, b: char)
    requires 0 <= Digit(a) && Digit(a) == Digit(b)
    ensures a == b
  {
  }

  lemma DigitAt(i: nat)
    requires i < 58
    ensures i < |ALPHABET| == 58 && Digit(ALPHABET[i]) == i
  {
    var a := ALPHABET;
    if i < 9 {
      assert a[i] == "123456789"[i];
    } else if i < 17 {
      assert a[i] == "ABCDEFGH"[i - 9];
    } else if i < 22 {
      assert a[i] == "JKLMN"[i - 17];
    } else if i < 33 {
      assert a[i] == "PQRSTUVWXYZ"[i - 22];
    } else {
      LowerCaseAt(i);
    }
  }

  lemma LowerCaseAt(i: nat)
    requires 33 <= i < 58
    ensures i < |ALPHABET| == 58 && Digit(ALPHABET[i]) == i
  {
    if i < 44 {
      assert ALPHABET[i] == "abcdefghijk"[i - 33];
    } else {
      assert ALPHABET[i] == "mnopqrstuvwxyz"[i - 44];
    }
  }

  /** The map inverts the alphabet: a character has the value of its position, any other has none. */
  lemma DigitIsPosition(c: char)
    ensures |ALPHABET| == 58
    ensures forall i :: 0 <= i < 58 ==> Digit(ALPHABET[i]) == i
    ensures Digit(c) == -1 <==> c !in ALPHABET
  {
    hide Digit;
    DigitAt(0);
    forall i | 0 <= i < 58
      ensures Digit(ALPHABET[i]) == i
    {
      DigitAt(i);
    }
    if 0 <= Digit(c) {
      DigitsDiffer(c, ALPHABET[Digit(c)]);
    }
  }

  /** A string over the alphabet. */
  ghost predicate Base58String(s: string) {
    forall i :: 0 <= i < |s| ==> 0 <= Digit(s[i])
  }

  /** The number a string denotes in base 58. */
  ghost function Value(s: string): (v: nat)
    requires Base58String(s)
  {
    if s == [] then 0 else Value(Front(s)) * 58 + Digit(Last(s))
  }

  /** What one character adds to 58 times the number so far, whose lowest byte is `low`.  A character
      outside the alphabet starts the unsigned carry at 0xffffffff: adding 58 times a byte that is not
      zero wraps it around, which subtracts one. */
  function Added(low: int, digit: int): int {
    if 0 <= digit then digit else if low == 0 then 0xffff_ffff else -1
  }

  /** The number DecodeBase58 computes, for any string. */
  ghost function Folded(s: string): nat {
    if s == [] then 0
    else var v := Folded(Front(s)); v * 58 + Added(v % 256, Digit(Last(s)))
  }

  lemma {:induction false} FoldedIsValue(s: string)
    requires Base58String(s)
    ensures Folded(s) == Value(s)
  {
    if s != [] {
      FoldedIsValue(Front(s));
    }
  }

  /** A character outside the alphabet is not refused.  It adds the largest 32-bit word if the number so
      far is a multiple of 256, and otherwise subtracts one. */
  lemma ForeignCharacter(s: string, c: char)
    requires c !in ALPHABET
    ensures Folded(s + [c]) == 58 * Folded(s) + if Folded(s) % 256 == 0 then 0xffff_ffff else -1
  {
    DigitIsPosition(c);
    assert Front(s + [c]) == s;
  }

  /** How many '1' a string starts with. */
  ghost function LeadingOnes(s: string): (z: nat)
    ensures z <= |s|
    ensures forall i :: 0 <= i < z ==> s[i] == '1'
    ensures z < |s| ==> s[z] != '1'
  {
    if s == [] || s[0] != '1' then 0 else 1 + LeadingOnes(s[1..])
  }

  function Pow256(k: nat): (p: nat)
    ensures 1 <= p
  {
    if k == 0 then 1 else 256 * Pow256(k - 1)
  }

  /** The number a byte string denotes, most significant byte last. */
  ghost function LittleEndian(b: seq<byte>): nat {
    if b == [] then 0 else LittleEndian(Front(b)) + Last(b) * Pow256(|b| - 1)
  }

  /** The number a byte string denotes, most significant byte first. */
  ghost function BigEndian(b: seq<byte>): nat {
    if b == [] then 0 else BigEndian(Front(b)) * 256 + Last(b)
  }

  function Reversed<T>(s: seq<T>): seq<T> {
    seq(|s|, i requires 0 <= i < |s| => s[|s| - 1 - i])
  }

  lemma {:induction false} LittleEndianHead(b: seq<byte>)
    requires b != []
    ensures LittleEndian(b) == b[0] + 256 * LittleEndian(b[1..])
  {
    if |b| > 1 {
      LittleEndianHead(Front(b));
      assert Front(b)[1..] == Front(b[1..]);
    }
  }

  lemma {:induction false} BigEndianReversed(b: seq<byte>)
    ensures BigEndian(Reversed(b)) == LittleEndian(b)
    decreases |b|
  {
    if b != [] {
      BigEndianReversed(b[1..]);
      assert Front(Reversed(b)) == Reversed(b[1..]);
      LittleEndianHead(b);
    }
  }

  lemma {:induction false} LittleEndianConcat(a: seq<byte>, b: seq<byte>)
    ensures LittleEndian(a + b) == LittleEndian(a) + Pow256(|a|) * LittleEndian(b)
    decreases |b|
  {
    if b == [] {
      assert a + b == a;
    } else {
      var before, last := Front(b), Last(b);
      assert Front(a + b) == a + before && Last(a + b) == last;
      assert LittleEndian(a + b) == LittleEndian(a + before) + last * Pow256(|a| + |before|);
      hide LittleEndian, Pow256;
      LittleEndianConcat(a, before);
      Pow256Sum(|a|, |before|);
      Distribute(Pow256(|a|), LittleEndian(before), last, Pow256(|before|));
    }
  }

  lemma Distribute(p: int, low: int, last: int, q: int)
    ensures p * (low + last * q) == p * low + last * (p * q)
  {
  }

  lemma {:induction false} Pow256Sum(a: nat, b: nat)
    ensures Pow256(a + b) == Pow256(a) * Pow256(b)
  {
    if b != 0 {
      Pow256Sum(a, b - 1);
      assert Pow256(a + b) == 256 * Pow256(a + b - 1);
    }
  }

  lemma LittleEndianLast(b: seq<byte>)
    requires b != [] && Last(b) != 0
    ensures Pow256(|b| - 1) <= LittleEndian(b)
  {
    AtLeastOnce(Last(b), Pow256(|b| - 1));
  }

  lemma AtLeastOnce(a: nat, p: nat)
    requires 1 <= a
    ensures p <= a * p
  {
  }

  /** A number without superfluous bytes needs no more of them than its size demands. */
  lemma MinimalFits(b: seq<byte>, n: nat)
    requires b != [] && Last(b) != 0 && LittleEndian(b) < Pow256(n)
    ensures |b| <= n
  {
    LittleEndianLast(b);
    if n < |b| {
      Pow256Monotone(n, |b| - 1);
    }
  }

  lemma {:induction false} Pow256Monotone(a: nat, b: nat)
    requires a <= b
    ensures Pow256(a) <= Pow256(b)
  {
    if a < b {
      Pow256Monotone(a, b - 1);
    }
  }

  // ---- the loops ----

  function StartCarry(digit: int): u32
    requires -1 <= digit < 58
  {
    if digit < 0 then 0xffff_ffff else digit
  }

  /** `done` are the bytes of 58 times `was` plus the digit, as far as the carry does not hold the rest. */
  ghost predicate Multiplied(done: seq<byte>, was: seq<byte>, carry: int, digit: int)
    requires |done| == |was| && -1 <= digit < 58
  {
    if done == [] then carry == StartCarry(digit)
    else
      && carry < 0x100_0000
      && (0 <= digit ==> carry < 58)
      && LittleEndian(done) + carry * Pow256(|done|) == LittleEndian(was) * 58 + Added(was[0], digit)
  }

  lemma MultipliedWhole(done: seq<byte>, was: seq<byte>, carry: int, digit: int)
    requires |done| == |was| && -1 <= digit < 58 && Multiplied(done, was, carry, digit) && done != []
    ensures carry < 0x100_0000
    ensures 0 <= digit ==> carry < 58
    ensures LittleEndian(done) + carry * Pow256(|done|) == LittleEndian(was) * 58 + Added(was[0], digit)
  {
  }

  lemma MultiplyStep(done: seq<byte>, was: seq<byte>, carry: u32, digit: int, b: byte)
    requires |done| == |was| && -1 <= digit < 58 && Multiplied(done, was, carry, digit)
    ensures var sum := (carry + b * 58) % 0x1_0000_0000;
      && Multiplied(done + [sum % 256], was + [b], sum / 256, digit)
      && (sum / 256 == 0 && b != 0 ==> sum % 256 != 0)
  {
    if done == [] {
      FirstByte(carry, digit, b);
      assert done + [(carry + b * 58) % 0x1_0000_0000 % 256] == [(carry + b * 58) % 0x1_0000_0000 % 256];
      assert was + [b] == [b];
    } else {
      NextByte(done, was, carry, digit, b);
    }
  }

  lemma FirstByte(carry: u32, digit: int, b: byte)
    requires -1 <= digit < 58 && carry == StartCarry(digit)
    ensures var sum := (carry + b * 58) % 0x1_0000_0000;
      Multiplied([sum % 256], [b], sum / 256, digit) && (sum / 256 == 0 && b != 0 ==> sum % 256 != 0)
  {
    var sum := (carry + b * 58) % 0x1_0000_0000;
    FirstSum(b, digit);
    OneByte([sum % 256]);
    OneByte([b]);
    assert Pow256(1) == 256;
    hide LittleEndian, Pow256;
  }

  lemma NextByte(done: seq<byte>, was: seq<byte>, carry: u32, digit: int, b: byte)
    requires |done| == |was| && -1 <= digit < 58 && Multiplied(done, was, carry, digit) && done != []
    ensures var sum := (carry + b * 58) % 0x1_0000_0000;
      && Multiplied(done + [sum % 256], was + [b], sum / 256, digit)
      && (sum / 256 == 0 && b != 0 ==> sum % 256 != 0)
  {
    CarryIsSmall(done, was, carry, digit);
    hide Multiplied;
    SumFits(carry, b);
    var sum := carry + b * 58;
    AppendByte(done, was, carry, digit, b, sum % 256, sum / 256);
  }

  lemma SumFits(carry: u32, b: byte)
    requires carry < 0x100_0000
    ensures var sum := carry + b * 58;
      && sum % 0x1_0000_0000 == sum == sum % 256 + 256 * (sum / 256)
      && (sum / 256 == 0 && b != 0 ==> sum % 256 != 0)
  {
  }

  lemma CarryIsSmall(done: seq<byte>, was: seq<byte>, carry: u32, digit: int)
    requires |done| == |was| && -1 <= digit < 58 && Multiplied(done, was, carry, digit) && done != []
    ensures carry < 0x100_0000
  {
    hide LittleEndian, Pow256, Added;
  }

  lemma AppendByte(done: seq<byte>, was: seq<byte>, carry: u32, digit: int, b: byte, lo: byte, hi: u32)
    requires |done| == |was| && -1 <= digit < 58 && Multiplied(done, was, carry, digit) && done != []
    requires carry + b * 58 == lo + 256 * hi
    ensures Multiplied(done + [lo], was + [b], hi, digit)
  {
    assert Pow256(|done| + 1) == 256 * Pow256(|done|);
    hide LittleEndian, Pow256, Added;
    LittleEndianConcat(done, [lo]);
    OneByte([lo]);
    LittleEndianConcat(was, [b]);
    OneByte([b]);
    MulAddStep(LittleEndian(done), LittleEndian(was), carry, b, Added(was[0], digit), Pow256(|done|), lo, hi);
  }

  /** One pass of the loop below, byte `j` of the buffer going from `done` to `next`. */
  lemma MultiplyByte(done: seq<byte>, next: seq<byte>, was: seq<byte>, j: nat, carry: u32, digit: int)
    requires j < |done| == |next| == |was| && -1 <= digit < 58
    requires Multiplied(done[..j], was[..j], carry, digit) && done[j] == was[j]
    requires next[..j] == done[..j] && next[j] == (carry + (was[j] as int) * 58) % 0x1_0000_0000 % 256
    ensures var sum := (carry + (was[j] as int) * 58) % 0x1_0000_0000;
      && Multiplied(next[..j + 1], was[..j + 1], sum / 256, digit)
      && (sum / 256 == 0 && was[j] != 0 ==> next[j] != 0)
  {
    hide Multiplied;
    MultiplyStep(done[..j], was[..j], carry, digit, was[j]);
    assert next[..j + 1] == done[..j] + [next[j]] && was[..j + 1] == was[..j] + [was[j]];
  }

  /** The first inner loop of DecodeBase58, in unsigned 32-bit arithmetic: multiply the number in
      `result[..length]` by 58 and add the digit.  After the first byte the carry stays small,
      for a character of the alphabet below 58. */
  method MultiplyAdd(result: array<byte>, length: nat, digit: int) returns (carry: u32)
    requires 1 <= length <= result.Length && -1 <= digit < 58
    modifies result
    ensures carry < 0x100_0000
    ensures 0 <= digit ==> carry < 58
    ensures LittleEndian(result[..length]) + carry * Pow256(length)
      == LittleEndian(old(result[..length])) * 58 + Added(old(result[0]), digit)
    ensures carry == 0 && old(result[length - 1]) != 0 ==> result[length - 1] != 0
  {
    carry := StartCarry(digit);
    var j := 0;
    ghost var was := result[..length];
    assert Multiplied(was[..0], was[..0], carry, digit);
    hide Multiplied, LittleEndian, Pow256, Added, StartCarry;
    while j < length
      invariant 0 <= j <= length
      invariant Multiplied(result[..length][..j], was[..j], carry, digit)
      invariant forall k :: j <= k < length ==> result[k] == was[k]
      invariant 1 <= j && carry == 0 && was[j - 1] != 0 ==> result[j - 1] != 0
    {
      hide Multiplied;
      ghost var done := result[..length];
      var sum := (carry + (result[j] as int) * 58) % 0x1_0000_0000;
      result[j] := sum % 256;
      MultiplyByte(done, result[..length], was, j, carry, digit);
      carry := sum / 256;
      j := j + 1;
    }
    assert was[..length] == was && result[..length][..length] == result[..length];
    MultipliedWhole(result[..length], was, carry, digit);
  }

  lemma FirstSum(low: byte, digit: int)
    requires -1 <= digit < 58
    ensures ((if digit < 0 then 0xffff_ffff else digit) + low * 58) % 0x1_0000_0000 == low * 58 + Added(low, digit)
  {
  }

  /** The bytes of a carry, lowest first; none for zero. */
  function BytesOf(carry: nat): (b: seq<byte>)
    ensures LittleEndian(b) == carry
    ensures b != [] <==> carry > 0
    ensures b != [] ==> Last(b) != 0
  {
    if carry == 0 then []
    else
      var rest := BytesOf(carry / 256);
      LittleEndianConcat([carry % 256], rest);
      OneByte([carry % 256]);
      assert rest != [] ==> Last([carry % 256] + rest) == Last(rest);
      [carry % 256] + rest
  }

  /** The second one: the program pushes bytes while the carry is not zero. */
  method PushCarry(result: array<byte>, length: nat, carry: u32) returns (newLength: nat)
    requires 1 <= length && length + |BytesOf(carry)| <= result.Length
    modifies result
    ensures newLength == length + |BytesOf(carry)|
    ensures result[..newLength] == old(result[..length]) + BytesOf(carry)
  {
    newLength := length;
    var rest := carry;
    while rest > 0
      invariant length <= newLength && newLength + |BytesOf(rest)| <= result.Length
      invariant result[..newLength] + BytesOf(rest) == old(result[..length]) + BytesOf(carry)
      decreases rest
    {
      ghost var before := result[..newLength];
      result[newLength] := rest % 256;
      assert result[..newLength + 1] == before + [rest % 256];
      newLength := newLength + 1;
      rest := rest / 256;
    }
  }

  lemma MulAddStep(low: int, was: int, carry: int, b: int, digit: int, p: nat, lo: int, hi: int)
    requires low + carry * p == was * 58 + digit && carry + b * 58 == lo + 256 * hi
    ensures (low + p * lo) + hi * (256 * p) == (was + p * b) * 58 + digit
  {
    assert lo * p + hi * (256 * p) == (lo + 256 * hi) * p;
    assert (carry + b * 58) * p == carry * p + b * p * 58;
  }

  /** The leading-ones loop: one zero byte for each. */
  method AppendZeros(str: string, result: array<byte>, length: nat) returns (newLength: nat)
    requires 1 <= length && length + LeadingOnes(str) <= result.Length
    modifies result
    ensures newLength == length + LeadingOnes(str)
    ensures result[..length] == old(result[..length])
    ensures forall k :: length <= k < newLength ==> result[k] == 0
  {
    newLength := length;
    var i := 0;
    while i < |str| && str[i] == '1'
      invariant 0 <= i <= LeadingOnes(str) && newLength == length + i
      invariant result[..length] == old(result[..length])
      invariant forall k :: length <= k < newLength ==> result[k] == 0
    {
      OnesGoOn(str, i);
      result[newLength] := 0;
      newLength := newLength + 1;
      i := i + 1;
    }
  }

  lemma {:induction false} OnesGoOn(s: string, i: nat)
    requires i < |s| && i <= LeadingOnes(s) && s[i] == '1'
    ensures i < LeadingOnes(s)
  {
  }

  /** The last loop of DecodeBase58: from the end down to the middle, swap with the mirror image. */
  method ReverseInPlace(result: array<byte>, length: nat)
    requires length <= result.Length
    modifies result
    ensures result[..length] == Reversed(old(result[..length]))
    ensures result[length..] == old(result[length..])
  {
    ghost var was := result[..length];
    var i, z := length - 1, length / 2 + length % 2;
    while i >= z
      invariant z - 1 <= i < length || length == 0
      invariant forall k :: i < k < length ==> result[k] == was[length - 1 - k]
      invariant forall k :: 0 <= k < length - 1 - i ==> result[k] == was[length - 1 - k]
      invariant forall k :: length - 1 - i <= k <= i ==> result[k] == was[k]
      invariant result[length..] == old(result[length..])
    {
      var k := result[i];
      result[i] := result[length - i - 1];
      result[length - i - 1] := k;
      i := i - 1;
    }
    assert forall k :: 0 <= k < length ==> result[..length][k] == Reversed(was)[k];
  }

  /** There is room for the number a string folds to and for its leading zeros. */
  ghost predicate Fits(str: string, n: int) {
    LeadingOnes(str) < n && Folded(str) < Pow256(n - LeadingOnes(str))
  }

  /** What the comment in the program asks for, twice the length of the string, is enough for strings
      over the alphabet. */
  lemma TwiceIsEnough(str: string, n: int)
    requires Base58String(str) && 1 <= n && 2 * |str| <= n
    ensures Fits(str, n)
  {
    FoldedIsValue(str);
    ValueBelow(str);
    Pow256Monotone(|str| - LeadingOnes(str), n - LeadingOnes(str));
  }

  lemma {:induction false} ValueBelow(s: string)
    requires Base58String(s)
    ensures Value(s) < Pow256(|s| - LeadingOnes(s))
  {
    if s != [] {
      ValueBelow(Front(s));
      OnesOfFront(s);
      if LeadingOnes(Front(s)) < |s| - 1 {
        assert Pow256(|s| - LeadingOnes(s)) == 256 * Pow256(|s| - 1 - LeadingOnes(s));
      } else {
        assert Pow256(0) == 1 && Pow256(1) == 256;
      }
    }
  }

  function Pow58(k: nat): (p: nat)
    ensures 1 <= p
  {
    if k == 0 then 1 else 58 * Pow58(k - 1)
  }

  lemma {:induction false} Pow58Sum(a: nat, b: nat)
    ensures Pow58(a + b) == Pow58(a) * Pow58(b)
  {
    if b != 0 {
      Pow58Sum(a, b - 1);
      assert Pow58(a + b) == 58 * Pow58(a + b - 1);
    }
  }

  lemma {:induction false} Pow58Monotone(a: nat, b: nat)
    requires a <= b
    ensures Pow58(a) <= Pow58(b)
  {
    if a < b {
      Pow58Monotone(a, b - 1);
    }
  }

  lemma {:induction false} ValueBelowPow58(s: string)
    requires Base58String(s)
    ensures Value(s) < Pow58(|s|)
  {
    if s != [] {
      ValueBelowPow58(Front(s));
    }
  }

  lemma FiveAndFifteen()
    ensures Pow58(5) <= Pow256(4) && Pow58(15) <= Pow256(11)
  {
    assert Pow58(2) == 3364;
    assert Pow58(5) == 656356768;
    assert Pow256(2) == 65536;
    assert Pow256(4) == 65536 * 65536;
    Pow256Sum(4, 4);
    assert Pow256(3) == 65536 * 256;
    Pow256Sum(8, 3);
    hide Pow58, Pow256;
    Pow58Sum(5, 5);
    Pow58Sum(10, 5);
  }

  /** Fifty characters over the alphabet, the first of them not '1', fit into 37 bytes, the size of the
      buffer key_to_account decodes into. */
  lemma FiftyFit(s: string)
    requires Base58String(s) && |s| <= 50 && (s == [] || s[0] != '1')
    ensures Fits(s, 37)
  {
    hide Pow58, Pow256, Value, Folded;
    FoldedIsValue(s);
    ValueBelowPow58(s);
    Pow58Monotone(|s|, 50);
    FiveAndFifteen();
    Pow58Sum(15, 15);
    Pow58Sum(30, 15);
    Pow58Sum(45, 5);
    Pow256Sum(11, 11);
    Pow256Sum(22, 11);
    Pow256Sum(33, 4);
    Products(Pow58(15), Pow256(11), Pow58(15), Pow256(11));
    Products(Pow58(30), Pow256(22), Pow58(15), Pow256(11));
    Products(Pow58(45), Pow256(33), Pow58(5), Pow256(4));
  }

  lemma Products(a: nat, b: nat, c: nat, d: nat)
    requires a <= b && c <= d
    ensures a * c <= b * d
  {
    assert a * c <= b * c <= b * d;
  }

  lemma FoldedSnoc(s: string, i: nat)
    requires i < |s|
    ensures Folded(s[..i + 1]) == Folded(s[..i]) * 58 + Added(Folded(s[..i]) % 256, Digit(s[i]))
  {
    assert Front(s[..i + 1]) == s[..i];
  }

  lemma {:induction false} FoldedGrows(s: string, i: nat)
    requires i <= |s|
    ensures Folded(s[..i]) <= Folded(s)
    decreases |s|
  {
    if i < |s| {
      FoldedGrows(Front(s), i);
      assert Front(s)[..i] == s[..i];
    } else {
      assert s[..i] == s;
    }
  }

  /** Both inner loops, one character's worth: no superfluous byte arises. */
  method AddDigit(result: array<byte>, length: nat, digit: int, ghost room: nat) returns (newLength: nat)
    requires 1 <= length <= room <= result.Length && -1 <= digit < 58
    requires length == 1 || result[length - 1] != 0
    requires LittleEndian(result[..length]) * 58 + Added(result[0], digit) < Pow256(room)
    modifies result
    ensures length <= newLength <= room
    ensures LittleEndian(result[..newLength]) == LittleEndian(old(result[..length])) * 58 + Added(old(result[0]), digit)
    ensures newLength == 1 || result[newLength - 1] != 0
  {
    hide LittleEndian, Pow256, BytesOf, Added;
    var carry := MultiplyAdd(result, length, digit);
    ghost var low, high := result[..length], BytesOf(carry);
    LittleEndianConcat(low, high);
    if high != [] {
      assert Last(low + high) == Last(high);
      MinimalFits(low + high, room);
    } else {
      assert low + high == low;
    }
    newLength := PushCarry(result, length, carry);
    assert result[newLength - 1] == Last(low + high);
  }

  /** The lowest byte is the number modulo 256. */
  lemma LowestByte(b: seq<byte>)
    requires b != []
    ensures LittleEndian(b) % 256 == b[0]
  {
    LittleEndianHead(b);
  }

  /** The outer loop of DecodeBase58: the number the string folds to, least significant byte first. */
  method ConvertDigits(str: string, result: array<byte>) returns (length: nat)
    requires Fits(str, result.Length)
    modifies result
    ensures 1 <= length <= result.Length - LeadingOnes(str)
    ensures LittleEndian(result[..length]) == Folded(str)
    ensures length == 1 || result[length - 1] != 0
  {
    length := 1;
    result[0] := 0;
    OneByte(result[..1]);
    ghost var room := result.Length - LeadingOnes(str);
    var i := 0;
    while i < |str|
      invariant 0 <= i <= |str| && 1 <= length <= room
      invariant LittleEndian(result[..length]) == Folded(str[..i])
      invariant length == 1 || result[length - 1] != 0
    {
      hide LittleEndian, Folded, LeadingOnes, Pow256, Added;
      FoldedGrows(str, i + 1);
      FoldedSnoc(str, i);
      LowestByte(result[..length]);
      length := AddDigit(result, length, Digit(str[i]), room);
      i := i + 1;
    }
    assert str[..i] == str;
  }

  /** Characters for which the program's table has an entry. */
  ghost predicate InTable(s: string) {
    forall i :: 0 <= i < |s| ==> s[i] as int < 128
  }

  /** `DecodeBase58`.  Without a string nothing is written, although one byte is reported. */
  method DecodeBase58(str: Option<string>, result: array<byte>) returns (length: nat)
    requires str.Some? ==> InTable(str.value) && Fits(str.value, result.Length)
    modifies result
    ensures str.None? ==> length == 1 && result[..] == old(result[..])
    ensures str.Some? ==> 1 <= length <= result.Length && Decodes(str.value, result[..length])
    ensures str.Some? && Base58String(str.value) ==> length <= |str.value| + 1
  {
    if str.None? {
      return 1;
    }
    length := ConvertDigits(str.value, result);
    ghost var low := result[..length];
    DecodedLength(str.value, low);
    hide Folded, LeadingOnes, LittleEndian, Decodes, Base58String;
    length := AppendZeros(str.value, result, length);
    ghost var full := result[..length];
    ReverseInPlace(result, length);
    DecodedInReverse(str.value, low, full);
  }

  /** What decoding promises: the bytes denote the number the string folds to, for a string over the
      alphabet its base-58 value; a number other than zero is written without superfluous bytes after
      one zero byte per leading '1'; zero is written with one byte more than the string has characters. */
  ghost predicate Decodes(str: string, b: seq<byte>) {
    && BigEndian(b) == Folded(str)
    && (Base58String(str) ==> BigEndian(b) == Value(str))
    && (Folded(str) > 0 ==>
        var z := LeadingOnes(str);
        z < |b| && b[z] != 0 && forall k :: 0 <= k < z ==> b[k] == 0)
    && (Folded(str) == 0 ==> |b| == |str| + 1)
  }

  lemma DecodedInReverse(str: string, low: seq<byte>, full: seq<byte>)
    requires low != [] && LittleEndian(low) == Folded(str)
    requires Folded(str) > 0 ==> Last(low) != 0
    requires Folded(str) == 0 ==> |low| == 1 && LeadingOnes(str) == |str|
    requires low <= full && |full| == |low| + LeadingOnes(str) && forall k :: |low| <= k < |full| ==> full[k] == 0
    ensures Decodes(str, Reversed(full))
  {
    hide Folded, Value, LeadingOnes, LittleEndian, BigEndian, Base58String;
    if Base58String(str) {
      FoldedIsValue(str);
    }
    TrailingZeros(low, full);
    BigEndianReversed(full);
    var b, z := Reversed(full), LeadingOnes(str);
    assert b[z] == full[|low| - 1] == Last(low);
    forall k | 0 <= k < z
      ensures b[k] == 0
    {
      assert b[k] == full[|full| - 1 - k];
    }
  }

  lemma OneByte(b: seq<byte>)
    requires |b| == 1
    ensures LittleEndian(b) == b[0]
  {
    assert Front(b) == [];
  }

  lemma {:induction false} ZeroOnlyOnes(s: string)
    ensures Folded(s) == 0 <==> LeadingOnes(s) == |s|
  {
    if s != [] {
      ZeroOnlyOnes(Front(s));
      OnesOfFront(s);
    }
  }

  lemma {:induction false} OnesOfFront(s: string)
    requires s != []
    ensures LeadingOnes(s) == if LeadingOnes(Front(s)) == |s| - 1 && Last(s) == '1' then |s| else LeadingOnes(Front(s))
  {
    if |s| > 1 && s[0] == '1' {
      OnesOfFront(s[1..]);
      assert Front(s)[1..] == Front(s[1..]);
    }
  }

  /** The digits of the value alone: none superfluous, and just one for zero. */
  lemma DecodedLength(str: string, low: seq<byte>)
    requires low != [] && LittleEndian(low) == Folded(str)
    requires |low| == 1 || Last(low) != 0
    ensures Folded(str) > 0 ==> Last(low) != 0
    ensures Folded(str) == 0 ==> |low| == 1 && LeadingOnes(str) == |str|
    ensures Base58String(str) ==> |low| + LeadingOnes(str) <= |str| + 1
  {
    ZeroOnlyOnes(str);
    hide Folded, LittleEndian, LeadingOnes, Base58String, Value, Pow256;
    if |low| == 1 {
      OneByte(low);
    } else {
      LittleEndianLast(low);
    }
    if Base58String(str) && Folded(str) > 0 {
      FoldedIsValue(str);
      ValueBelow(str);
      MinimalFits(low, |str| - LeadingOnes(str));
    }
  }

  lemma {:induction false} TrailingZeros(low: seq<byte>, b: seq<byte>)
    requires low <= b && forall k :: |low| <= k < |b| ==> b[k] == 0
    ensures LittleEndian(b) == LittleEndian(low)
    decreases |b|
  {
    if |low| < |b| {
      TrailingZeros(low, Front(b));
    } else {
      assert b == low;
    }
  }

  // ---- nothing is lost ----

  lemma {:induction false} FirstDigitCounts(s: string)
    requires Base58String(s) && s != [] && s[0] != '1'
    ensures Value(s) > 0
  {
    FoldedIsValue(s);
    ZeroOnlyOnes(s);
  }

  /** Without leading ones the value determines the string. */
  lemma {:induction false} ValueDetermines(s: string, t: string)
    requires Base58String(s) && Base58String(t) && Value(s) == Value(t)
    requires (s == [] || s[0] != '1') && (t == [] || t[0] != '1')
    ensures s == t
    decreases |s|
  {
    if s == [] || t == [] {
      if s != [] {
        FirstDigitCounts(s);
      }
      if t != [] {
        FirstDigitCounts(t);
      }
    } else {
      LastDigit(Value(Front(s)), Digit(Last(s)), Value(Front(t)), Digit(Last(t)));
      DigitsDiffer(Last(s), Last(t));
      ValueDetermines(Front(s), Front(t));
      assert s == Front(s) + [Last(s)] && t == Front(t) + [Last(t)];
    }
  }

  lemma LastDigit(a: nat, d: int, b: nat, e: int)
    requires 0 <= d < 58 && 0 <= e < 58 && a * 58 + d == b * 58 + e
    ensures a == b && d == e
  {
  }

  lemma {:induction false} OnesDoNotCount(s: string, z: nat)
    requires Base58String(s) && z <= LeadingOnes(s)
    ensures Value(s[z..]) == Value(s)
    decreases |s|
  {
    if |s| == z {
      FoldedIsValue(s);
      ZeroOnlyOnes(s);
    } else {
      OnesOfFront(s);
      OnesDoNotCount(Front(s), z);
      assert Front(s[z..]) == Front(s)[z..];
    }
  }

  /** Decoding is injective: two strings over the alphabet that decode to the same bytes are equal. */
  lemma DecodingIsInjective(s: string, t: string, b: seq<byte>)
    requires Base58String(s) && Base58String(t) && Decodes(s, b) && Decodes(t, b)
    ensures s == t
  {
    hide Folded, Value, BigEndian, LeadingOnes;
    var y, z := LeadingOnes(s), LeadingOnes(t);
    FoldedIsValue(s);
    FoldedIsValue(t);
    ZeroOnlyOnes(s);
    ZeroOnlyOnes(t);
    if Value(s) > 0 {
      assert y == z;
      OnesDoNotCount(s, z);
      OnesDoNotCount(t, z);
      ValueDetermines(s[z..], t[z..]);
      assert s[..z] == t[..z];
      assert s == s[..z] + s[z..] && t == t[..z] + t[z..];
    }
  }

  // ---- one decoding only ----

  lemma {:induction false} ZeroBytes(b: seq<byte>)
    requires forall k :: 0 <= k < |b| ==> b[k] == 0
    ensures BigEndian(b) == 0
  {
    if b != [] {
      ZeroBytes(Front(b));
    }
  }

  /** The size of a number tells how many bytes it has after its leading zeros. */
  lemma {:induction false} BigEndianBounds(b: seq<byte>, z: nat)
    requires z < |b| && b[z] != 0 && forall k :: 0 <= k < z ==> b[k] == 0
    ensures Pow256(|b| - z - 1) <= BigEndian(b) < Pow256(|b| - z)
  {
    if |b| == z + 1 {
      ZeroBytes(Front(b));
      assert Pow256(0) == 1 && Pow256(1) == 256;
    } else {
      BigEndianBounds(Front(b), z);
      assert Pow256(|b| - z) == 256 * Pow256(|b| - z - 1);
      assert Pow256(|b| - z - 1) == 256 * Pow256(|b| - z - 2);
    }
  }

  lemma BigEndianLast(b: seq<byte>)
    requires b != []
    ensures BigEndian(b) == BigEndian(Front(b)) * 256 + Last(b)
  {
  }

  lemma {:induction false} BigEndianDetermines(a: seq<byte>, b: seq<byte>)
    requires |a| == |b| && BigEndian(a) == BigEndian(b)
    ensures a == b
  {
    if a != [] {
      hide BigEndian;
      BigEndianLast(a);
      BigEndianLast(b);
      LastByte(BigEndian(Front(a)), Last(a), BigEndian(Front(b)), Last(b));
      BigEndianDetermines(Front(a), Front(b));
      assert a == Front(a) + [Last(a)] && b == Front(b) + [Last(b)];
    }
  }

  lemma LastByte(a: nat, d: byte, b: nat, e: byte)
    requires a * 256 + d == b * 256 + e
    ensures a == b && d == e
  {
  }

  lemma NotShorter(a: seq<byte>, b: seq<byte>, z: nat)
    requires z < |a| && a[z] != 0 && forall k :: 0 <= k < z ==> a[k] == 0
    requires z < |b| && b[z] != 0 && forall k :: 0 <= k < z ==> b[k] == 0
    requires BigEndian(a) == BigEndian(b)
    ensures |b| <= |a|
  {
    BigEndianBounds(a, z);
    BigEndianBounds(b, z);
    Pow256Order(|b| - z - 1, |a| - z);
  }

  lemma Pow256Order(a: nat, b: nat)
    requires Pow256(a) < Pow256(b)
    ensures a < b
  {
    if b <= a {
      Pow256Monotone(b, a);
    }
  }

  /** A string has one decoding. */
  lemma DecodingIsUnique(s: string, a: seq<byte>, b: seq<byte>)
    requires Decodes(s, a) && Decodes(s, b)
    ensures a == b
  {
    hide Folded, BigEndian, Value, Base58String;
    if Folded(s) > 0 {
      var z := LeadingOnes(s);
      NotShorter(a, b, z);
      NotShorter(b, a, z);
    }
    BigEndianDetermines(a, b);
  }

  /** Decoding stays inside a buffer of `n` bytes if and only if the string fits it. */
  lemma FitsIff(s: string, b: seq<byte>, n: nat)
    requires Decodes(s, b)
    ensures |b| <= n <==> Fits(s, n)
  {
    var z := LeadingOnes(s);
    ZeroOnlyOnes(s);
    hide Folded, BigEndian, Value, Base58String;
    if Folded(s) > 0 {
      BigEndianBounds(b, z);
      if |b| <= n {
        Pow256Monotone(|b| - z, n - z);
      }
      if Fits(s, n) {
        Pow256Order(|b| - z - 1, n - z);
      }
    }
  }

  // ---- strings given by positions in the alphabet ----

  /** The number of a sequence of base-58 digits, most significant first. */
  ghost function NumberOf(digits: seq<nat>): nat {
    if digits == [] then 0 else digits[0] * Pow58(|digits| - 1) + NumberOf(digits[1..])
  }

  ghost predicate Base58Digits(digits: seq<nat>) {
    forall i :: 0 <= i < |digits| ==> digits[i] < 58
  }

  ghost function Symbol(d: nat): (c: char)
    requires d < 58
    ensures Digit(c) == d
  {
    DigitIsPosition('1');
    ALPHABET[d]
  }

  /** The string written with the symbols at those positions of the alphabet. */
  ghost function Spelled(digits: seq<nat>): string
    requires Base58Digits(digits)
  {
    seq(|digits|, i requires 0 <= i < |digits| => Symbol(digits[i]))
  }

  lemma {:induction false} NumberOfLast(digits: seq<nat>)
    requires digits != []
    ensures NumberOf(digits) == NumberOf(Front(digits)) * 58 + Last(digits)
  {
    if |digits| > 1 {
      var tail := digits[1..];
      NumberOfLast(tail);
      assert Front(tail) == Front(digits)[1..] && Last(tail) == Last(digits);
      TimesBase(digits[0], Pow58(|digits| - 2));
    } else {
      assert Pow58(0) == 1;
      assert digits[1..] == [] && Front(digits) == [];
    }
  }

  lemma TimesBase(d: nat, p: nat)
    ensures d * (58 * p) == d * p * 58
  {
  }

  lemma {:induction false} ValueOfSpelled(digits: seq<nat>)
    requires Base58Digits(digits)
    ensures Base58String(Spelled(digits)) && Value(Spelled(digits)) == NumberOf(digits)
  {
    hide Symbol;
    if digits != [] {
      ValueOfSpelled(Front(digits));
      NumberOfLast(digits);
      assert Front(Spelled(digits)) == Spelled(Front(digits));
      assert Last(Spelled(digits)) == Symbol(Last(digits));
    }
  }

  /** The string that spells a sequence of base-58 digits with the alphabet decodes to the bytes of
      exactly that number. */
  lemma DecodesDigits(digits: seq<nat>, b: seq<byte>)
    requires Base58Digits(digits) && Decodes(Spelled(digits), b)
    ensures BigEndian(b) == NumberOf(digits)
  {
    ValueOfSpelled(digits);
  }
}
