/** Account names derived from public keys: thirteen usable bytes of the key, five bits each and four
    of the last, become the 64-bit word of a name. */
module Keys {
  import opened Basics
  import opened Numbers
  import opened Names
  import Base58

  type byte = Base58.byte

  /** The bits of a byte that go into symbol `k`. */
  function Trimmed(b: byte, k: nat): (v: nat)
    ensures v < if k == 12 then 16 else 32
  {
    if k == 12 then b % 16 else b % 32
  }

  /** Thirteen positions between 1 and 32, ascending, whose bytes give symbols other than zero: five bits
      of the first twelve, four of the last. */
  ghost predicate Selection(key: seq<byte>, pos: seq<nat>)
    requires 33 <= |key|
  {
    && |pos| == 13
    && (forall k :: 0 <= k < 13 ==> 1 <= pos[k] <= 32)
    && (forall k :: 0 <= k < 12 ==> key[pos[k]] % 32 != 0) && key[pos[12]] % 16 != 0
    && (forall j, k :: 0 <= j < k < 13 ==> pos[j] < pos[k])
  }

  ghost predicate Within(key: seq<byte>, pos: seq<nat>) {
    forall k :: 0 <= k < |pos| ==> pos[k] < |key|
  }

  ghost function SymbolsAt(key: seq<byte>, pos: seq<nat>): seq<nat>
    requires Within(key, pos)
    ensures |SymbolsAt(key, pos)| == |pos|
  {
    seq(|pos|, k requires 0 <= k < |pos| => Trimmed(key[pos[k]], k))
  }

  /** The positions chosen so far are the earliest possible ones, and the next cannot be below `i`. */
  ghost predicate Earliest(key: seq<byte>, pos: seq<nat>, i: int)
    requires 33 <= |key|
  {
    forall q :: Selection(key, q) ==>
      && |pos| <= 13
      && (forall k :: 0 <= k < |pos| ==> pos[k] <= q[k])
      && (|pos| < 13 ==> i <= q[|pos|])
  }

  ghost predicate Chosen(key: seq<byte>, pos: seq<nat>, i: int)
    requires 33 <= |key|
  {
    && |pos| <= 13
    && (forall k :: 0 <= k < |pos| ==> 1 <= pos[k] < i <= 33 && Trimmed(key[pos[k]], k) != 0)
    && (forall j, k :: 0 <= j < k < |pos| ==> pos[j] < pos[k])
  }

  lemma SkipByte(key: seq<byte>, pos: seq<nat>, i: nat)
    requires 33 <= |key| && Chosen(key, pos, i) && Earliest(key, pos, i) && |pos| < 13 && 1 <= i < 33
    requires Trimmed(key[i], |pos|) == 0
    ensures Chosen(key, pos, i + 1) && Earliest(key, pos, i + 1)
  {
  }

  lemma TakeByte(key: seq<byte>, pos: seq<nat>, i: nat)
    requires 33 <= |key| && Chosen(key, pos, i) && Earliest(key, pos, i) && |pos| < 13 && 1 <= i < 33
    requires Trimmed(key[i], |pos|) != 0
    ensures Chosen(key, pos + [i], i + 1) && Earliest(key, pos + [i], i + 1)
  {
    forall q | Selection(key, q)
      ensures (forall k :: 0 <= k < |pos| + 1 ==> (pos + [i])[k] <= q[k])
      ensures |pos| + 1 < 13 ==> i + 1 <= q[|pos| + 1]
    {
    }
  }

  lemma NoSelection(key: seq<byte>, pos: seq<nat>, i: nat)
    requires 33 <= |key| && Earliest(key, pos, i) && |pos| < 13 && 33 <= i
    ensures !exists q :: Selection(key, q)
  {
  }

  lemma FullChoice(key: seq<byte>, pos: seq<nat>, i: nat)
    requires 33 <= |key| && Chosen(key, pos, i) && Earliest(key, pos, i) && |pos| == 13
    ensures Selection(key, pos) && Earliest(key, pos, 0)
  {
  }

  lemma SymbolsSnoc(key: seq<byte>, pos: seq<nat>, i: nat)
    requires Within(key, pos) && i < |key|
    ensures Within(key, pos + [i])
    ensures SymbolsAt(key, pos + [i]) == SymbolsAt(key, pos) + [Trimmed(key[i], |pos|)]
  {
  }

  /** The word after the symbols at `pos`. */
  ghost function PartialKey(d: seq<nat>): nat
    requires |d| <= 13
  {
    if |d| == 13 then Pack(d) else Horner(d, |d|) * Pow2(64 - 5 * |d|)
  }

  function Shuffle(len: nat): nat
    requires len < 13
  {
    if len == 12 then 0 else 5 * (12 - len) - 1
  }

  /** `res |= trimmed_char << shuffle`: the thirteen bit fields never overlap. */
  lemma PartialKeyStep(d: seq<nat>, c: nat)
    requires |d| < 13 && c < (if |d| == 12 then 16 else 32)
    ensures BitOr(PartialKey(d), ShiftLeft(c, Shuffle(|d|))) == PartialKey(d + [c])
  {
    hide Pow2, Horner, BitOr;
    if |d| < 12 {
      HighSymbol(d, c);
    } else {
      LastSymbol(d, c);
    }
  }

  lemma HighSymbol(d: seq<nat>, c: nat)
    requires |d| < 12 && c < 32
    ensures BitOr(Horner(d, |d|) * Pow2(64 - 5 * |d|), c * Pow2(59 - 5 * |d|))
      == Horner(d + [c], |d| + 1) * Pow2(59 - 5 * |d|)
  {
    hide Pow2, Horner, BitOr;
    var e := d + [c];
    HornerSame(d, e, |d|);
    OrInSymbol(e, |d|);
  }

  lemma LastSymbol(d: seq<nat>, c: nat)
    requires |d| == 12 && c < 16
    ensures BitOr(Horner(d, 12) * Pow2(4), c * Pow2(0)) == Pack(d + [c])
  {
    hide Horner, BitOr, Pack;
    Pow2Small();
    HornerSame(d, d + [c], 12);
    OrInLast(d + [c]);
    hide Pow2;
  }

  /** `shorten_key`.  It succeeds exactly if the key has a selection at all, and then packs the
      symbols of the earliest one; the assertion on the position fails otherwise. */
  method ShortenKey(key: seq<byte>) returns (word: Option<nat>, ghost pos: seq<nat>)
    requires 33 <= |key|
    ensures word.Some? <==> exists q :: Selection(key, q)
    ensures word.Some? ==> Selection(key, pos) && Earliest(key, pos, 0)
    ensures word.Some? ==> Within(key, pos) && word.value == Pack(SymbolsAt(key, pos))
    ensures word.Some? ==> Unpacks(word.value, key, pos)
  {
    pos := [];
    var res: nat, i, len := 0, 1, 0;
    PartialKeyStart();
    assert SymbolsAt(key, pos) == [];
    while len <= 12
      invariant 0 <= len <= 13 && 1 <= i <= 33 && |pos| == len
      invariant Within(key, pos) && Chosen(key, pos, i) && Earliest(key, pos, i)
      invariant res == PartialKey(SymbolsAt(key, pos))
      decreases 33 - i
    {
      hide ShiftLeft, BitOr, PartialKey, SymbolsAt, Earliest, Selection, Pack, Shuffle, Trimmed, Chosen, Within;
      if i >= 33 {
        NoSelection(key, pos, i);
        return None, pos;
      }
      var trimmed := Trimmed(key[i], len);
      if trimmed == 0 {
        SkipByte(key, pos, i);
        i := i + 1;
        continue;
      }
      PartialKeyStep(SymbolsAt(key, pos), trimmed);
      TakeByte(key, pos, i);
      SymbolsSnoc(key, pos, i);
      res := BitOr(res, ShiftLeft(trimmed, Shuffle(len)));
      pos := pos + [i];
      len := len + 1;
      i := i + 1;
    }
    FullChoice(key, pos, i);
    PartialKeyFull(SymbolsAt(key, pos));
    PackedBytes(key, pos);
    return Some(res), pos;
  }

  /** The packed word gives back the bits it was made of. */
  ghost predicate Unpacks(word: nat, key: seq<byte>, pos: seq<nat>)
    requires Within(key, pos) && |pos| == 13
  {
    && (forall k :: 0 <= k < 12 ==> SymbolOfWord(word, k) == key[pos[k]] % 32)
    && SymbolOfWord(word, 12) == key[pos[12]] % 16
  }

  lemma PackedBytes(key: seq<byte>, pos: seq<nat>)
    requires 33 <= |key| && Selection(key, pos) && Within(key, pos)
    ensures Unpacks(Pack(SymbolsAt(key, pos)), key, pos)
  {
    var d := SymbolsAt(key, pos);
    SelectionIsWord(key, pos);
    assert d[12] == key[pos[12]] % 16 && forall k :: 0 <= k < 12 ==> d[k] == key[pos[k]] % 32;
    hide Pack, SymbolsAt, Selection, Within, SymbolOfWord;
    forall k | 0 <= k < 13
      ensures SymbolOfWord(Pack(d), k) == d[k]
    {
      UnpackSymbol(d, k);
    }
  }

  lemma PartialKeyFull(d: seq<nat>)
    requires |d| == 13
    ensures PartialKey(d) == Pack(d)
  {
  }

  lemma PartialKeyStart()
    ensures PartialKey([]) == 0
  {
  }

  // ---- from the word to the account ----

  /** The character map of `name::to_string`, which belongs to the eosio library. */
  function CharOf(v: nat): char
    requires v < 32
  {
    if v == 0 then '.' else if v <= 5 then ('1' as int + v - 1) as char else ('a' as int + v - 6) as char
  }

  ghost predicate IsLetter(c: char) {
    '1' <= c <= '5' || 'a' <= c <= 'z'
  }

  lemma SymbolOfChar(v: nat)
    requires v < 32
    ensures Symbol(CharOf(v)) == v
    ensures 0 < v ==> IsLetter(CharOf(v))
  {
  }

  function TrimDots(s: string): string {
    if s != [] && Last(s) == '.' then TrimDots(Front(s)) else s
  }

  function NameToString(v: nat): string {
    TrimDots(seq(13, (k: nat) => CharOf(SymbolOfWord(v, k) % 32)))
  }

  lemma {:induction false} TrimsDots(s: string, dots: string)
    requires (s == [] || Last(s) != '.') && forall k :: 0 <= k < |dots| ==> dots[k] == '.'
    ensures TrimDots(s + dots) == s
    decreases |dots|
  {
    if dots == [] {
      assert s + dots == s;
    } else {
      assert Front(s + dots) == s + Front(dots);
      TrimsDots(s, Front(dots));
    }
  }

  lemma CharOfSymbol(c: char)
    requires c == '.' || 0 < Symbol(c)
    ensures CharOf(Symbol(c)) == c
  {
  }

  lemma ValidSymbol(s: string, k: nat)
    requires ValidName(s) && k < 13
    ensures SymbolsOf(s)[k] == if k < |s| then Symbol(s[k]) else 0
    ensures k < |s| ==> s[k] == '.' || 0 < Symbol(s[k])
  {
  }

  lemma NameChar(s: string, k: nat)
    requires ValidName(s) && k < 13
    ensures CharOf(SymbolOfWord(Pack(SymbolsOf(s)), k) % 32) == if k < |s| then s[k] else '.'
  {
    hide Pack, SymbolOfWord, CharOf, Symbol, SymbolsOf, ValidName;
    ValidSymbol(s, k);
    UnpackSymbol(SymbolsOf(s), k);
    if k < |s| {
      CharOfSymbol(s[k]);
    } else {
      CharOfZero();
    }
  }

  lemma CharOfZero()
    ensures CharOf(0) == '.'
  {
  }

  /** Every valid name survives the way through its 64-bit word. */
  lemma NameRoundTrip(s: string)
    requires ValidName(s)
    ensures NameToString(Pack(SymbolsOf(s))) == s
  {
    hide Pack, SymbolOfWord, CharOf, Symbol, SymbolsOf, TrimDots;
    var full := seq(13, (k: nat) => CharOf(SymbolOfWord(Pack(SymbolsOf(s)), k) % 32));
    forall k | 0 <= k < 13
      ensures full[k] == if k < |s| then s[k] else '.'
    {
      NameChar(s, k);
    }
    assert full == s + full[|s|..];
    TrimsDots(s, full[|s|..]);
  }

  /** `key_to_account` after decoding: the first twelve characters of the name. */
  function AccountOf(v: nat): string {
    var s := NameToString(v);
    if |s| <= 12 then s else s[..12]
  }

  /** Unpacking a word without zero symbols: one character for each symbol, none trimmed. */
  lemma AccountChars(d: seq<nat>)
    requires IsWord(d) && forall k :: 0 <= k < 13 ==> d[k] != 0
    ensures |AccountOf(Pack(d))| == 12 && forall k :: 0 <= k < 12 ==> AccountOf(Pack(d))[k] == CharOf(d[k])
  {
    hide Pack, SymbolOfWord, CharOf;
    var full := seq(13, (k: nat) => CharOf(SymbolOfWord(Pack(d), k) % 32));
    forall k | 0 <= k < 13
      ensures full[k] == CharOf(d[k])
    {
      UnpackSymbol(d, k);
    }
    SymbolOfChar(d[12]);
    assert Last(full) != '.';
  }

  lemma ClearLowBits(d: seq<nat>, e: seq<nat>)
    requires IsWord(d) && |e| == 13 && e[12] == 0 && forall k :: 0 <= k < 12 ==> e[k] == d[k]
    ensures Pack(e) == Pack(d) - Pack(d) % 16
  {
    HornerSame(e, d, 12);
    UnpackSymbol(d, 12);
  }

  /** The account derived from a shortened key has exactly twelve characters, all of them letters a-z
      or digits 1-5, and the word of that name is the shortened key with its low four bits cleared. */
  lemma AccountOfKey(d: seq<nat>)
    requires IsWord(d) && forall k :: 0 <= k < 13 ==> d[k] != 0
    ensures var a := AccountOf(Pack(d));
      && |a| == 12
      && (forall k :: 0 <= k < 12 ==> IsLetter(a[k]) && Symbol(a[k]) == d[k])
      && Pack(SymbolsOf(a)) == Pack(d) - Pack(d) % 16
  {
    hide Pack, AccountOf, CharOf, IsLetter, Symbol;
    AccountChars(d);
    var a := AccountOf(Pack(d));
    forall k | 0 <= k < 12
      ensures IsLetter(a[k]) && Symbol(a[k]) == d[k]
    {
      SymbolOfChar(d[k]);
    }
    ClearLowBits(d, SymbolsOf(a));
  }

  lemma SelectionIsWord(key: seq<byte>, pos: seq<nat>)
    requires 33 <= |key| && Selection(key, pos)
    ensures Within(key, pos)
    ensures IsWord(SymbolsAt(key, pos)) && forall k :: 0 <= k < 13 ==> SymbolsAt(key, pos)[k] != 0
  {
  }

  /** The account spells the low five bits of the first twelve bytes of the key's earliest selection. */
  ghost predicate DerivedAt(key: seq<byte>, pos: seq<nat>, account: string)
    requires 33 <= |key|
  {
    && Selection(key, pos)
    && Earliest(key, pos, 0)
    && |account| == 12
    && (forall k :: 0 <= k < 12 ==> IsLetter(account[k]) && Symbol(account[k]) == key[pos[k]] % 32)
  }

  lemma AccountOfSelection(key: seq<byte>, pos: seq<nat>)
    requires 33 <= |key| && Selection(key, pos) && Earliest(key, pos, 0)
    ensures DerivedAt(key, pos, AccountOf(Pack(SymbolsAt(key, pos))))
  {
    var d := SymbolsAt(key, pos);
    SelectionIsWord(key, pos);
    AccountOfKey(d);
    assert forall k :: 0 <= k < 12 ==> d[k] == key[pos[k]] % 32;
    hide AccountOf, Pack, Earliest;
  }

  /** What is left of a key without its three-character prefix. */
  function WithoutPrefix(pubkey: string): (wif: string)
    ensures if |pubkey| < 3 then wif == "" else pubkey == pubkey[..3] + wif
  {
    pubkey[Min(3, |pubkey|)..]
  }

  /** The buffer starts with the decoded string; whatever follows was never written. */
  ghost predicate HoldsDecoded(key: seq<byte>, wif: string) {
    exists n: nat :: n <= |key| && Base58.Decodes(wif, key[..n])
  }

  /** The account, if there is one, is derived from a buffer that starts with the decoded string; there
      is none exactly if thirteen usable bytes cannot be chosen. */
  ghost predicate DerivedFrom(wif: string, key: seq<byte>, account: Option<string>) {
    && |key| == 37 && HoldsDecoded(key, wif)
    && (account.Some? <==> exists q :: Selection(key, q))
    && (account.Some? ==> exists pos :: DerivedAt(key, pos, account.value))
  }

  /** `key_to_account`.  The fresh buffer's contents are arbitrary, as they are in the program. */
  method KeyToAccount(pubkey: string) returns (account: Option<string>)
    requires Base58.InTable(WithoutPrefix(pubkey)) && Base58.Fits(WithoutPrefix(pubkey), 37)
    ensures exists key :: DerivedFrom(WithoutPrefix(pubkey), key, account)
  {
    var buffer := new byte[37];
    var wif := WithoutPrefix(pubkey);
    var length := Base58.DecodeBase58(Some(wif), buffer);
    var key := buffer[..];
    assert key[..length] == buffer[..length];
    assert HoldsDecoded(key, wif);
    hide HoldsDecoded;
    var word, pos := ShortenKey(key);
    if word.None? {
      account := None;
      assert DerivedFrom(wif, key, account);
      return;
    }
    AccountOfSelection(key, pos);
    hide AccountOf, Pack, DerivedAt, SymbolsAt, Selection, Earliest;
    account := Some(AccountOf(word.value));
    assert DerivedAt(key, pos, account.value);
    assert DerivedFrom(wif, key, account);
  }

  // ---- what the account depends on ----

  /** The positions shorten_key has chosen when it looks at byte `i`. */
  ghost function Greedy(key: seq<byte>, i: nat): (pos: seq<nat>)
    requires 1 <= i <= |key|
    ensures |pos| <= 13
  {
    if i == 1 then []
    else
      var pos := Greedy(key, i - 1);
      if |pos| < 13 && Trimmed(key[i - 1], |pos|) != 0 then pos + [i - 1] else pos
  }

  lemma {:induction false} GreedyChooses(key: seq<byte>, i: nat)
    requires 33 <= |key| && 1 <= i <= 33
    ensures Chosen(key, Greedy(key, i), i) && Earliest(key, Greedy(key, i), i)
  {
    if i > 1 {
      GreedyChooses(key, i - 1);
      var pos := Greedy(key, i - 1);
      if |pos| < 13 && Trimmed(key[i - 1], |pos|) != 0 {
        TakeByte(key, pos, i - 1);
      } else if |pos| < 13 {
        SkipByte(key, pos, i - 1);
      }
    }
  }

  /** A selection exists exactly if the greedy choice is complete, and then that is the earliest. */
  lemma GreedyIsComplete(key: seq<byte>)
    requires 33 <= |key|
    ensures (exists q :: Selection(key, q)) <==> |Greedy(key, 33)| == 13
    ensures forall q :: Selection(key, q) && Earliest(key, q, 0) ==> q == Greedy(key, 33)
  {
    var pos := Greedy(key, 33);
    GreedyChooses(key, 33);
    if |pos| == 13 {
      FullChoice(key, pos, 33);
      forall q | Selection(key, q) && Earliest(key, q, 0)
        ensures q == pos
      {
        assert forall k :: 0 <= k < 13 ==> q[k] <= pos[k] <= q[k];
      }
    } else {
      NoSelection(key, pos, 33);
    }
  }

  lemma {:induction false} GreedySame(key: seq<byte>, other: seq<byte>, i: nat)
    requires 1 <= i <= |key| && i <= |other| && key[..i] == other[..i]
    ensures Greedy(key, i) == Greedy(other, i)
  {
    if i > 1 {
      assert key[..i - 1] == key[..i][..i - 1] && other[..i - 1] == other[..i][..i - 1];
      GreedySame(key, other, i - 1);
      assert key[i - 1] == key[..i][i - 1] && other[i - 1] == other[..i][i - 1];
    }
  }

  lemma {:induction false} GreedyGrows(key: seq<byte>, i: nat, j: nat)
    requires 1 <= i <= j <= |key|
    ensures |Greedy(key, i)| <= |Greedy(key, j)| <= |Greedy(key, i)| + j - i
    ensures |Greedy(key, i)| == 13 ==> Greedy(key, j) == Greedy(key, i)
    decreases j - i
  {
    if i < j {
      GreedyGrows(key, i, j - 1);
    }
  }

  lemma {:induction false} GreedySkips(key: seq<byte>, i: nat, j: nat)
    requires 1 <= i <= j <= |key| && forall k :: i <= k < j ==> key[k] == 0
    ensures Greedy(key, j) == Greedy(key, i)
    decreases j - i
  {
    if i < j {
      GreedySkips(key, i, j - 1);
    }
  }

  lemma {:induction false} GreedyTakes(key: seq<byte>, i: nat, j: nat)
    requires 1 <= i <= j <= |key| && forall k :: i <= k < j ==> key[k] == 1
    ensures |Greedy(key, j)| == Min(13, |Greedy(key, i)| + j - i)
    decreases j - i
  {
    if i < j {
      GreedyTakes(key, i, j - 1);
    }
  }

  lemma SymbolDetermines(a: char, b: char)
    requires IsLetter(a) && IsLetter(b) && Symbol(a) == Symbol(b)
    ensures a == b
  {
  }

  /** Two accounts from buffers with the same greedy choice over the same bytes are the same. */
  lemma SameBytesSameAccount(
    wif: string, key: seq<byte>, a: Option<string>, other: seq<byte>, b: Option<string>, n: nat)
    requires DerivedFrom(wif, key, a) && DerivedFrom(wif, other, b)
    requires 1 <= n <= 33 && key[..n] == other[..n]
    requires Greedy(key, 33) == Greedy(key, n) && Greedy(other, 33) == Greedy(other, n)
    ensures a == b
  {
    GreedySame(key, other, n);
    GreedyIsComplete(key);
    GreedyIsComplete(other);
    if a.Some? && b.Some? {
      hide DerivedAt, Selection, Earliest, Greedy, HoldsDecoded;
      var p :| DerivedAt(key, p, a.value);
      var q :| DerivedAt(other, q, b.value);
      SameLetters(key, a.value, other, b.value, p, q, n);
    }
  }

  lemma SameLetters(
    key: seq<byte>, a: string, other: seq<byte>, b: string, p: seq<nat>, q: seq<nat>, n: nat)
    requires 33 <= |key| && 33 <= |other| && DerivedAt(key, p, a) && DerivedAt(other, q, b)
    requires 1 <= n <= 33 && key[..n] == other[..n]
    requires Greedy(key, 33) == Greedy(key, n) == Greedy(other, 33)
    ensures a == b
  {
    GreedyIsComplete(key);
    GreedyIsComplete(other);
    GreedyStaysBelow(key, n);
    hide Earliest, Greedy;
    assert p == q == Greedy(key, 33);
    forall k | 0 <= k < 12
      ensures a[k] == b[k]
    {
      assert p[k] in p;
      assert key[p[k]] == key[..n][p[k]] == other[..n][p[k]] == other[p[k]];
      SymbolDetermines(a[k], b[k]);
    }
  }

  lemma {:induction false} GreedyStaysBelow(key: seq<byte>, i: nat)
    requires 1 <= i <= |key|
    ensures forall p :: p in Greedy(key, i) ==> p < i
  {
    if i > 1 {
      GreedyStaysBelow(key, i - 1);
    }
  }

  /** Whatever the buffer held before, the account comes out the same. */
  ghost predicate Determined(wif: string) {
    forall key, a, other, b :: DerivedFrom(wif, key, a) && DerivedFrom(wif, other, b) ==> a == b
  }

  /** The bytes the string decodes to give all thirteen symbols, or too few of them for the rest of the
      33 bytes that are looked at to complete. */
  ghost predicate Settled(bytes: seq<byte>)
    requires bytes != []
  {
    var n := Min(33, |bytes|);
    var chosen := |Greedy(bytes, n)|;
    chosen == 13 || chosen + 33 - n < 13
  }

  /** The account is a function of the key string, and not of bytes that were never written, if and
      only if the decoded bytes settle it; with 33 bytes or more they always do. */
  lemma DeterminedIff(wif: string, bytes: seq<byte>)
    requires Base58.Decodes(wif, bytes) && 1 <= |bytes| <= 37
    ensures Determined(wif) <==> Settled(bytes)
    ensures 33 <= |bytes| ==> Determined(wif)
  {
    if Settled(bytes) {
      forall key, a, other, b | DerivedFrom(wif, key, a) && DerivedFrom(wif, other, b)
        ensures a == b
      {
        SettledMeansSame(wif, bytes, key, a, other, b);
      }
    } else {
      UnsettledDiffers(wif, bytes);
    }
  }

  lemma StartsWithDecoded(wif: string, bytes: seq<byte>, key: seq<byte>)
    requires Base58.Decodes(wif, bytes) && HoldsDecoded(key, wif)
    ensures |bytes| <= |key| && key[..|bytes|] == bytes
  {
    hide Base58.Decodes;
    var n: nat :| n <= |key| && Base58.Decodes(wif, key[..n]);
    Base58.DecodingIsUnique(wif, bytes, key[..n]);
  }

  lemma SettledMeansSame(wif: string, bytes: seq<byte>,
                         key: seq<byte>, a: Option<string>, other: seq<byte>, b: Option<string>)
    requires Base58.Decodes(wif, bytes) && 1 <= |bytes| <= 37 && Settled(bytes)
    ensures DerivedFrom(wif, key, a) && DerivedFrom(wif, other, b) ==> a == b
  {
    if DerivedFrom(wif, key, a) && DerivedFrom(wif, other, b) {
      var n := Min(33, |bytes|);
      StartsWithDecoded(wif, bytes, key);
      StartsWithDecoded(wif, bytes, other);
      hide HoldsDecoded, Base58.Decodes, DerivedAt, Selection, Greedy;
      assert key[..n] == bytes[..n] == other[..n];
      GreedySame(bytes, key, n);
      GreedySame(bytes, other, n);
      GreedyGrows(key, n, 33);
      GreedyGrows(other, n, 33);
      if |Greedy(bytes, n)| == 13 {
        SameBytesSameAccount(wif, key, a, other, b, n);
      } else {
        GreedyIsComplete(key);
        GreedyIsComplete(other);
      }
    }
  }

  function Padded(bytes: seq<byte>, b: byte): (key: seq<byte>)
    requires |bytes| <= 37
    ensures |key| == 37 && key[..|bytes|] == bytes && forall k :: |bytes| <= k < 37 ==> key[k] == b
  {
    bytes + seq(37 - |bytes|, i => b)
  }

  /** Zeros after the decoded bytes give no account, ones do. */
  lemma UnsettledDiffers(wif: string, bytes: seq<byte>)
    requires Base58.Decodes(wif, bytes) && 1 <= |bytes| <= 37 && !Settled(bytes)
    ensures !Determined(wif)
  {
    hide Padded, HoldsDecoded, Greedy, DerivedFrom;
    PaddedHolds(wif, bytes, 0);
    PaddedHolds(wif, bytes, 1);
    PaddedZeros(bytes);
    PaddedOnes(bytes);
    NoneWithout(wif, Padded(bytes, 0));
    var account := SomeWith(wif, Padded(bytes, 1));
  }

  lemma PaddedHolds(wif: string, bytes: seq<byte>, b: byte)
    requires Base58.Decodes(wif, bytes) && |bytes| <= 37
    ensures HoldsDecoded(Padded(bytes, b), wif)
  {
  }

  lemma PaddedZeros(bytes: seq<byte>)
    requires 1 <= |bytes| <= 33
    ensures |Greedy(Padded(bytes, 0), 33)| == |Greedy(bytes, |bytes|)|
  {
    hide Padded, Greedy;
    GreedySame(bytes, Padded(bytes, 0), |bytes|);
    GreedySkips(Padded(bytes, 0), |bytes|, 33);
  }

  lemma PaddedOnes(bytes: seq<byte>)
    requires 1 <= |bytes| <= 33
    ensures |Greedy(Padded(bytes, 1), 33)| == Min(13, |Greedy(bytes, |bytes|)| + 33 - |bytes|)
  {
    hide Padded, Greedy;
    GreedySame(bytes, Padded(bytes, 1), |bytes|);
    GreedyTakes(Padded(bytes, 1), |bytes|, 33);
  }

  lemma NoneWithout(wif: string, key: seq<byte>)
    requires |key| == 37 && HoldsDecoded(key, wif) && |Greedy(key, 33)| < 13
    ensures DerivedFrom(wif, key, None)
  {
    hide HoldsDecoded;
    GreedyIsComplete(key);
  }

  lemma SomeWith(wif: string, key: seq<byte>) returns (account: Option<string>)
    requires |key| == 37 && HoldsDecoded(key, wif) && |Greedy(key, 33)| == 13
    ensures account.Some? && DerivedFrom(wif, key, account)
  {
    var pos := Greedy(key, 33);
    GreedyChooses(key, 33);
    FullChoice(key, pos, 33);
    AccountOfSelection(key, pos);
    hide HoldsDecoded, Selection, Earliest, DerivedAt, Greedy;
    account := Some(AccountOf(Pack(SymbolsAt(key, pos))));
  }
}
