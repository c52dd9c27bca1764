/** Account names as 64-bit words: twelve symbols of five bits and one of four. */
module Names {
  import opened Basics
  import opened Numbers

  /** `char_to_symbol` */
  function Symbol(c: char): (v: nat)
    ensures v < 32
  {
    if 'a' <= c <= 'z' then c as int - 'a' as int + 6
    else if '1' <= c <= '5' then c as int - '1' as int + 1
    else 0
  }

  /** A C string: no character before the terminator is NUL. */
  type CString = s: string | '\0' !in s

  /** Thirteen symbols, the last of four bits. */
  ghost predicate IsWord(d: seq<nat>) {
    |d| == 13 && (forall i :: 0 <= i < 12 ==> d[i] < 32) && d[12] < 16
  }

  /** The first `k` symbols as a number in base 32. */
  ghost function Horner(d: seq<nat>, k: nat): nat
    requires k <= |d|
  {
    if k == 0 then 0 else Horner(d, k - 1) * 32 + d[k - 1]
  }

  /** The 64-bit word made of thirteen symbols. */
  ghost function Pack(d: seq<nat>): nat
    requires |d| == 13
  {
    Horner(d, 12) * 16 + d[12]
  }

  /** The symbols of a string: missing characters count as zero, characters after the thirteenth not
      at all, the thirteenth with its low four bits. */
  ghost function SymbolAt(s: string, i: nat): nat {
    if |s| <= i then 0 else if i < 12 then Symbol(s[i]) else Symbol(s[i]) % 16
  }

  ghost function SymbolsOf(s: string): (d: seq<nat>)
    ensures IsWord(d)
  {
    seq(13, (i: nat) => SymbolAt(s, i))
  }

  // ---- packing ----

  lemma {:induction false} HornerBelow(d: seq<nat>, k: nat)
    requires k <= |d| && forall i :: 0 <= i < k ==> d[i] < 32
    ensures Horner(d, k) < Pow2(5 * k)
  {
    if k != 0 {
      HornerBelow(d, k - 1);
      Pow2Small();
      Pow2Sum(5 * (k - 1), 5);
    }
  }

  lemma {:induction false} HornerSame(d: seq<nat>, e: seq<nat>, k: nat)
    requires k <= |d| && k <= |e| && forall i :: 0 <= i < k ==> d[i] == e[i]
    ensures Horner(d, k) == Horner(e, k)
  {
    if k != 0 {
      HornerSame(d, e, k - 1);
    }
  }

  /** Neighbouring symbols are five bits apart. */
  lemma Weights(k: nat)
    requires k < 12
    ensures Pow2(64 - 5 * k) == 32 * Pow2(59 - 5 * k)
  {
    Pow2Small();
    Pow2Sum(59 - 5 * k, 5);
  }

  /** Adding a symbol below `k` packed ones, with OR: the bit fields do not overlap. */
  lemma OrInSymbol(d: seq<nat>, k: nat)
    requires k < 12 && k < |d| && d[k] < 32
    ensures BitOr(Horner(d, k) * Pow2(64 - 5 * k), d[k] * Pow2(59 - 5 * k)) == Horner(d, k + 1) * Pow2(59 - 5 * k)
  {
    hide Pow2, BitOr;
    assert Horner(d, k + 1) == Horner(d, k) * 32 + d[k];
    hide Horner;
    Weights(k);
    AppendByOr(Horner(d, k), d[k], 64 - 5 * k, Pow2(59 - 5 * k));
  }

  lemma OrInLast(d: seq<nat>)
    requires |d| == 13 && d[12] < 16
    ensures BitOr(Horner(d, 12) * 16, d[12]) == Pack(d)
  {
    Pow2Small();
    MultipleOf(Horner(d, 12), 16);
    OrIsSum(Horner(d, 12) * 16, d[12], 4);
  }

  lemma {:induction false} ZerosShift(d: seq<nat>, j: nat, k: nat)
    requires j <= k <= 12 && k <= |d| && forall i :: j <= i < k ==> d[i] == 0
    ensures Horner(d, k) * Pow2(64 - 5 * k) == Horner(d, j) * Pow2(64 - 5 * j)
    decreases k
  {
    if j < k {
      ZerosShift(d, j, k - 1);
      var h, p := Horner(d, k - 1), Pow2(64 - 5 * k);
      assert Horner(d, k) == h * 32 + 0;
      hide Pow2, Horner;
      Weights(k - 1);
      AppendSymbol(h, 0, p);
    }
  }

  lemma PackBelow(d: seq<nat>)
    requires IsWord(d)
    ensures Pack(d) < 0x1_0000_0000_0000_0000
  {
    HornerBelow(d, 12);
    Pow2Small();
    Pow2Sum(60, 4);
    Pow2Of64();
  }

  /** The word after `i` symbols. */
  ghost function Partial(d: seq<nat>, i: nat): nat
    requires i <= 12 && i <= |d|
  {
    Horner(d, i) * Pow2(64 - 5 * i)
  }

  lemma PartialStep(s: CString, i: nat)
    requires i < 12 && i < |s|
    ensures BitOr(Partial(SymbolsOf(s), i), Symbol(s[i]) % 32 * Pow2(64 - 5 * (i + 1))) == Partial(SymbolsOf(s), i + 1)
  {
    var d := SymbolsOf(s);
    assert d[i] == Symbol(s[i]) == Symbol(s[i]) % 32;
    assert 64 - 5 * (i + 1) == 59 - 5 * i;
    OrInSymbol(d, i);
  }

  lemma PartialEnd(s: CString, i: nat)
    requires i == Min(12, |s|)
    ensures var name := Partial(SymbolsOf(s), i); var last := (if 12 < |s| then Symbol(s[12]) else 0) % 16;
      Pack(SymbolsOf(s)) == if i == 12 then BitOr(name, last) else name
    ensures Pack(SymbolsOf(s)) < 0x1_0000_0000_0000_0000
  {
    var d := SymbolsOf(s);
    ZerosShift(d, i, 12);
    Pow2Small();
    OrInLast(d);
    PackBelow(d);
  }

  /** `string_to_name`: shift and OR, symbol by symbol, gives the packed symbols of the string; the
      result fits in 64 bits. */
  method StringToName(s: CString) returns (name: nat)
    ensures name == Pack(SymbolsOf(s)) && name < 0x1_0000_0000_0000_0000
  {
    name := 0;
    var i := 0;
    assert name == Partial(SymbolsOf(s), i);
    hide Partial, Pow2, BitOr, Pack, SymbolsOf;
    while i < |s| && i < 12
      invariant 0 <= i <= 12 && i <= |s|
      invariant name == Partial(SymbolsOf(s), i)
    {
      PartialStep(s, i);
      name := BitOr(name, Symbol(s[i]) % 32 * Pow2(64 - 5 * (i + 1)));
      i := i + 1;
    }
    PartialEnd(s, i);
    if i == 12 {
      name := BitOr(name, (if 12 < |s| then Symbol(s[12]) else 0) % 16);
    }
  }

  // ---- unpacking ----

  /** Symbol `k` of a 64-bit word. */
  function SymbolOfWord(v: nat, k: nat): nat {
    if k < 12 then v / Pow2(59 - 5 * k) % 32 else v % 16
  }

  lemma {:induction false} PackSplits(d: seq<nat>, k: nat)
    requires IsWord(d) && k <= 12
    ensures Horner(d, k) * Pow2(64 - 5 * k) <= Pack(d) < (Horner(d, k) + 1) * Pow2(64 - 5 * k)
    decreases 12 - k
  {
    if k < 12 {
      PackSplits(d, k + 1);
      var h, p := Horner(d, k), Pow2(59 - 5 * k);
      assert Horner(d, k + 1) == h * 32 + d[k];
      hide Pow2, Horner, Pack;
      Weights(k);
      DropSymbol(Pack(d), h, d[k], p);
    } else {
      Pow2Small();
    }
  }

  /** A packed symbol can be read back. */
  lemma UnpackSymbol(d: seq<nat>, k: nat)
    requires IsWord(d) && k <= 12
    ensures SymbolOfWord(Pack(d), k) == d[k]
  {
    if k < 12 {
      UnpackHigh(d, k);
      Quotient(Horner(d, k + 1), 32, Horner(d, k), d[k]);
    } else {
      Quotient(Pack(d), 16, Horner(d, 12), d[12]);
    }
  }

  lemma UnpackHigh(d: seq<nat>, k: nat)
    requires IsWord(d) && k < 12
    ensures Pack(d) / Pow2(59 - 5 * k) == Horner(d, k + 1)
  {
    PackSplits(d, k + 1);
    var p, h, v := Pow2(59 - 5 * k), Horner(d, k + 1), Pack(d);
    DivideOut(v, h, p);
  }

  // ---- order ----

  /** Names as the chain allows them: at most thirteen characters from .1-5a-z, no dot at the end, the
      thirteenth no greater than j. */
  ghost predicate ValidName(s: string) {
    && |s| <= 13
    && (forall i :: 0 <= i < |s| ==> s[i] == '.' || 0 < Symbol(s[i]))
    && (s != [] ==> Last(s) != '.')
    && (|s| == 13 ==> Symbol(s[12]) < 16)
  }

  /** Lexicographic order of strings. */
  ghost predicate LexLess(s: string, t: string) {
    t != [] && (s == [] || s[0] < t[0] || (s[0] == t[0] && LexLess(s[1..], t[1..])))
  }

  lemma {:induction false} LexAsymmetric(s: string, t: string)
    requires LexLess(s, t)
    ensures s != t && !LexLess(t, s)
  {
    if s != [] && s[0] == t[0] {
      LexAsymmetric(s[1..], t[1..]);
    }
  }

  /** Equal up to `k`, then smaller or at an end. */
  lemma {:induction false} LexAt(s: string, t: string, k: nat)
    requires k <= |s| && k < |t| && s[..k] == t[..k] && (k == |s| || s[k] < t[k])
    ensures LexLess(s, t)
    decreases k
  {
    if k > 0 {
      assert s[0] == s[..k][0] == t[0];
      assert s[1..][..k - 1] == s[..k][1..] && t[1..][..k - 1] == t[..k][1..];
      LexAt(s[1..], t[1..], k - 1);
    }
  }

  /** On allowed characters symbols are ordered like characters. */
  lemma SymbolOrder(a: char, b: char)
    requires (a == '.' || 0 < Symbol(a)) && (b == '.' || 0 < Symbol(b))
    ensures Symbol(a) < Symbol(b) <==> a < b
    ensures Symbol(a) == Symbol(b) <==> a == b
  {
  }

  lemma SymbolOfValid(s: string, i: nat)
    requires ValidName(s) && i < 13
    ensures SymbolsOf(s)[i] == if i < |s| then Symbol(s[i]) else 0
  {
  }

  /** The word of the smaller first differing symbol is the smaller one. */
  lemma FirstDifferenceDecides(d: seq<nat>, e: seq<nat>, k: nat)
    requires IsWord(d) && IsWord(e) && k <= 12 && d[k] < e[k] && forall i :: 0 <= i < k ==> d[i] == e[i]
    ensures Pack(d) < Pack(e)
  {
    HornerSame(d, e, k);
    if k < 12 {
      PackSplits(d, k + 1);
      PackSplits(e, k + 1);
      Monotone(Horner(d, k + 1) + 1, Horner(e, k + 1), Pow2(59 - 5 * k));
    }
  }

  /** ... and so is its string. */
  lemma FirstDifferenceOrders(s: string, t: string, k: nat)
    requires ValidName(s) && ValidName(t) && k <= 12
    requires SymbolsOf(s)[k] < SymbolsOf(t)[k] && forall i :: 0 <= i < k ==> SymbolsOf(s)[i] == SymbolsOf(t)[i]
    ensures LexLess(s, t)
  {
    var j := Min(k, |s|);
    SymbolOfValid(s, k);
    SymbolOfValid(t, k);
    forall i | 0 <= i < j
      ensures s[i] == t[i]
    {
      SymbolOfValid(s, i);
      SymbolOfValid(t, i);
      SymbolOrder(s[i], t[i]);
    }
    assert s[..j] == t[..j];
    if k < |s| {
      SymbolOrder(s[k], t[k]);
    }
    LexAt(s, t, j);
  }

  lemma SameSymbolsSameName(s: string, t: string)
    requires ValidName(s) && ValidName(t) && SymbolsOf(s) == SymbolsOf(t)
    ensures s == t
  {
    if |s| < |t| {
      LongerDiffers(s, t);
    } else if |t| < |s| {
      LongerDiffers(t, s);
    } else {
      forall i | 0 <= i < |s|
        ensures s[i] == t[i]
      {
        SymbolOfValid(s, i);
        SymbolOfValid(t, i);
        SymbolOrder(s[i], t[i]);
      }
    }
  }

  lemma LongerDiffers(s: string, t: string)
    requires ValidName(s) && ValidName(t) && |s| < |t|
    ensures SymbolsOf(s) != SymbolsOf(t)
  {
    SymbolOfValid(s, |t| - 1);
    SymbolOfValid(t, |t| - 1);
    assert t[|t| - 1] != '.';
  }

  ghost function FirstDifference(d: seq<nat>, e: seq<nat>, k: nat): (r: nat)
    requires |d| == |e| == 13 && k <= 13
    ensures k <= r <= 13
    ensures forall i :: k <= i < r ==> d[i] == e[i]
    ensures r < 13 ==> d[r] != e[r]
    decreases 13 - k
  {
    if k == 13 || d[k] != e[k] then k else FirstDifference(d, e, k + 1)
  }

  /** string_to_name is injective and keeps the order of valid names: comparing the words is
      comparing the strings. */
  lemma NameOrderIsStringOrder(s: string, t: string)
    requires ValidName(s) && ValidName(t)
    ensures Pack(SymbolsOf(s)) < Pack(SymbolsOf(t)) <==> LexLess(s, t)
    ensures Pack(SymbolsOf(s)) == Pack(SymbolsOf(t)) <==> s == t
  {
    var d, e := SymbolsOf(s), SymbolsOf(t);
    var k := FirstDifference(d, e, 0);
    if k == 13 {
      assert d == e;
      SameSymbolsSameName(s, t);
      if LexLess(s, t) {
        LexAsymmetric(s, t);
      }
    } else if d[k] < e[k] {
      FirstDifferenceDecides(d, e, k);
      FirstDifferenceOrders(s, t, k);
    } else {
      FirstDifferenceDecides(e, d, k);
      FirstDifferenceOrders(t, s, k);
      LexAsymmetric(t, s);
    }
  }
}
