/** The portable snapshot: a stream of typed rows written from a database and read back into an
    empty one.  The byte encoding of rows is not part of the model. */
module Snapshot {
  import opened Basics
  import opened Messages
  import opened Tables
  import opened Chainbase
  import opened AbiCache
  import opened ReceiverModel
  import opened ReceiverRuns
  import opened ReceivedBlocks
  import opened AbiHistory

  const MAGIC: nat := 0x67c7_d12c_e9fc_56c1
  const CURRENT_VERSION: u32 := 0

  datatype Entry =
    | StateEntry(row: StateRow)
    | ReceivedEntry(block: u32, id: BlockId)
    | AbiEntry(account: Account, abi: Abi)
    | HistoryEntry(key: HistKey, abi: Abi)
    | EndEntry(magic: nat)

  /** `magic` and `version` head the file; `rows` is whatever follows, complete or not. */
  datatype File = File(magic: nat, version: u32, rows: seq<Entry>)

  datatype Outcome = Restored(tables: Tables) | Rejected

  // ---- reading ----

  /** Creates the row an entry stands for; a duplicate key is refused.  The state table has no key
      of its own: a second row would be kept behind the first one, which stays in force. */
  function CreateRow(t: Tables, e: Entry): Outcome {
    match e
    case StateEntry(row) => Restored(if t.state.None? then t.(state := Some(row)) else t)
    case ReceivedEntry(block, id) =>
      if block in t.received then Rejected else Restored(t.(received := t.received[block := id]))
    case AbiEntry(account, abi) =>
      if account in t.abis.latest then Rejected
      else Restored(t.(abis := t.abis.(latest := t.abis.latest[account := abi])))
    case HistoryEntry(key, abi) =>
      if key in t.abis.history then Rejected
      else Restored(t.(abis := t.abis.(history := t.abis.history[key := abi])))
    case EndEntry(magic) => Rejected
  }

  /** Reads rows up to the end marker; running out of rows before it is an error. */
  function ReadRows(t: Tables, rows: seq<Entry>): Outcome
    decreases |rows|
  {
    if rows == [] then Rejected
    else if rows[0].EndEntry? then (if rows[0].magic == MAGIC then Restored(t) else Rejected)
    else match CreateRow(t, rows[0])
      case Restored(t') => ReadRows(t', rows[1..])
      case Rejected => Rejected
  }

  function Read(t: Tables, file: File): Outcome {
    if file.magic != MAGIC || file.version != CURRENT_VERSION || t.state.Some? then Rejected
    else ReadRows(t, file.rows)
  }

  /** `read_snapshot` */
  method ReadSnapshot(db: Database, file: File) returns (ok: bool)
    modifies db`tables
    ensures var o := Read(old(db.tables), file);
      ok == o.Restored? && (ok ==> db.tables == o.tables)
    ensures file.magic != MAGIC || file.version != CURRENT_VERSION || old(db.tables).state.Some? ==>
      !ok && db.tables == old(db.tables)
  {
    if file.magic != MAGIC || file.version != CURRENT_VERSION || db.tables.state.Some? {
      return false;
    }
    var i := 0;
    while i < |file.rows|
      invariant 0 <= i <= |file.rows|
      invariant ReadRows(old(db.tables), file.rows) == ReadRows(db.tables, file.rows[i..])
    {
      var e := file.rows[i];
      assert file.rows[i..][1..] == file.rows[i + 1..];
      if e.EndEntry? {
        return e.magic == MAGIC;
      }
      var o := CreateRow(db.tables, e);
      if o.Rejected? {
        return false;
      }
      db.tables := o.tables;
      i := i + 1;
    }
    return false;
  }

  // ---- writing ----

  /** What a snapshot keeps: the committed tables without empty ABIs. */
  function Portable(t: Tables): Tables {
    t.(abis := AbiTables(
      map a | a in t.abis.latest && !t.abis.latest[a].NoAbi? :: t.abis.latest[a],
      map k | k in t.abis.history && !t.abis.history[k].NoAbi? :: t.abis.history[k]))
  }

  function Committed(db: Db): Tables {
    UndoTo(db, Base(db)).tables
  }

  /** The keys of an index in its order, each once. */
  ghost predicate Enumerates<K(!new)>(sorted: seq<K>, keys: set<K>) {
    && (forall k :: k in sorted <==> k in keys)
    && (forall i, j :: 0 <= i < j < |sorted| ==> sorted[i] != sorted[j])
  }

  ghost predicate Ordered<K>(sorted: seq<K>, less: (K, K) -> bool) {
    forall i, j :: 0 <= i < j < |sorted| ==> less(sorted[i], sorted[j])
  }

  ghost predicate TotalOn<K(!new)>(less: (K, K) -> bool) {
    && (forall a, b :: a == b || less(a, b) || less(b, a))
    && (forall a, b, c :: less(a, b) && less(b, c) ==> less(a, c))
  }

  /** Walks an ordered index from begin to end. */
  method SortedKeys<K(==, !new)>(keys: set<K>, less: (K, K) -> bool) returns (sorted: seq<K>)
    requires TotalOn(less)
    ensures Enumerates(sorted, keys) && Ordered(sorted, less)
  {
    sorted := [];
    var rest := keys;
    while rest != {}
      invariant rest <= keys
      invariant forall i :: 0 <= i < |sorted| ==> sorted[i] in keys && sorted[i] !in rest
      invariant forall k :: k in keys && k !in rest ==> k in sorted
      invariant forall i, k :: 0 <= i < |sorted| && k in rest ==> less(sorted[i], k)
      invariant forall i, j :: 0 <= i < j < |sorted| ==> sorted[i] != sorted[j]
      invariant Ordered(sorted, less)
      decreases |rest|
    {
      var least := Least(rest, less);
      sorted := sorted + [least];
      rest := rest - {least};
    }
  }

  method Least<K(==, !new)>(keys: set<K>, less: (K, K) -> bool) returns (least: K)
    requires TotalOn(less) && keys != {}
    ensures least in keys && forall k :: k in keys ==> k == least || less(least, k)
  {
    least :| least in keys;
    var rest := keys - {least};
    while rest != {}
      invariant rest <= keys && least in keys
      invariant forall k :: k in keys && k !in rest ==> k == least || less(least, k)
      decreases |rest|
    {
      var k :| k in rest;
      if less(k, least) {
        least := k;
      }
      rest := rest - {k};
    }
  }

  function ReceivedRows(m: map<u32, BlockId>, ks: seq<u32>): seq<Entry>
    requires forall k :: k in ks ==> k in m
  {
    if ks == [] then [] else ReceivedRows(m, Front(ks)) + [ReceivedEntry(Last(ks), m[Last(ks)])]
  }

  function AbiRows(m: map<Account, Abi>, ks: seq<Account>): seq<Entry>
    requires forall k :: k in ks ==> k in m
  {
    if ks == [] then []
    else AbiRows(m, Front(ks)) + if m[Last(ks)].NoAbi? then [] else [AbiEntry(Last(ks), m[Last(ks)])]
  }

  function HistoryRows(m: map<HistKey, Abi>, ks: seq<HistKey>): seq<Entry>
    requires forall k :: k in ks ==> k in m
  {
    if ks == [] then []
    else HistoryRows(m, Front(ks)) + if m[Last(ks)].NoAbi? then [] else [HistoryEntry(Last(ks), m[Last(ks)])]
  }

  predicate KeyLess(a: HistKey, b: HistKey) {
    a.account < b.account || (a.account == b.account && a.block < b.block)
  }

  /** The rows written for `t`, the tables walked in the order of the given keys. */
  ghost predicate IsSnapshotOf(t: Tables, rows: seq<Entry>, k1: seq<u32>, k2: seq<Account>, k3: seq<HistKey>) {
    && t.state.Some?
    && Enumerates(k1, t.received.Keys) && Enumerates(k2, t.abis.latest.Keys) && Enumerates(k3, t.abis.history.Keys)
    && rows == [StateEntry(t.state.value)] + ReceivedRows(t.received, k1) + AbiRows(t.abis.latest, k2)
               + HistoryRows(t.abis.history, k3) + [EndEntry(MAGIC)]
  }

  /** The order in which the indexes are walked. */
  ghost predicate InIndexOrder(k1: seq<u32>, k2: seq<Account>, k3: seq<HistKey>) {
    && (forall i, j :: 0 <= i < j < |k1| ==> k1[i] < k1[j])
    && (forall i, j :: 0 <= i < j < |k2| ==> k2[i] < k2[j])
    && (forall i, j :: 0 <= i < j < |k3| ==>
        k3[i].account < k3[j].account || (k3[i].account == k3[j].account && k3[i].block < k3[j].block))
  }

  /** `write_snapshot`; refused on a database without a state row. */
  method WriteSnapshot(db: Database)
    returns (ok: bool, file: File, ghost k1: seq<u32>, ghost k2: seq<Account>, ghost k3: seq<HistKey>)
    modifies db
    ensures db.Value() == UndoTo(old(db.Value()), Base(old(db.Value())))
    ensures ok == Committed(old(db.Value())).state.Some?
    ensures ok ==> file == File(MAGIC, CURRENT_VERSION, file.rows)
    ensures ok ==> IsSnapshotOf(Committed(old(db.Value())), file.rows, k1, k2, k3)
    ensures ok ==> InIndexOrder(k1, k2, k3)
  {
    var _ := db.RevertUncommitted();
    file, k1, k2, k3 := File(MAGIC, CURRENT_VERSION, []), [], [], [];
    var t := db.tables;
    if t.state.None? {
      return false, file, k1, k2, k3;
    }
    var ks1 := SortedKeys(t.received.Keys, (a: u32, b: u32) => a < b);
    var ks2 := SortedKeys(t.abis.latest.Keys, (a: Account, b: Account) => a < b);
    var ks3 := SortedKeys(t.abis.history.Keys, KeyLess);
    k1, k2, k3 := ks1, ks2, ks3;
    var rows := [StateEntry(t.state.value)] + ReceivedRows(t.received, ks1) + AbiRows(t.abis.latest, ks2)
                + HistoryRows(t.abis.history, ks3) + [EndEntry(MAGIC)];
    return true, File(MAGIC, CURRENT_VERSION, rows), k1, k2, k3;
  }

  // ---- round trip ----

  /** Creating rows one after the other. */
  function CreateAll(t: Tables, rows: seq<Entry>): Outcome {
    if rows == [] then Restored(t)
    else match CreateAll(t, Front(rows))
      case Restored(t') => CreateRow(t', Last(rows))
      case Rejected => Rejected
  }

  lemma {:induction false} CreateAllConcat(t: Tables, r1: seq<Entry>, r2: seq<Entry>)
    requires CreateAll(t, r1).Restored?
    ensures CreateAll(t, r1 + r2) == CreateAll(CreateAll(t, r1).tables, r2)
  {
    if r2 == [] {
      assert r1 + r2 == r1;
    } else {
      CreateAllConcat(t, r1, Front(r2));
      assert Front(r1 + r2) == r1 + Front(r2);
    }
  }

  lemma {:induction false} ReadAfterCreate(t: Tables, r1: seq<Entry>, r2: seq<Entry>)
    requires CreateAll(t, r1).Restored?
    ensures ReadRows(t, r1 + r2) == ReadRows(CreateAll(t, r1).tables, r2)
    decreases |r1|
  {
    if r1 == [] {
      assert r1 + r2 == r2;
    } else {
      var last := [Last(r1)];
      assert r1 + r2 == Front(r1) + (last + r2);
      ReadAfterCreate(t, Front(r1), last + r2);
      assert (last + r2)[1..] == r2;
    }
  }

  lemma CreateLast(t: Tables, rows: seq<Entry>, e: Entry)
    requires CreateAll(t, rows).Restored?
    ensures CreateAll(t, rows + [e]) == CreateRow(CreateAll(t, rows).tables, e)
  {
    assert Front(rows + [e]) == rows;
  }

  /** The entries of `m` under the given keys. */
  function Listed<K, V>(m: map<K, V>, ks: seq<K>): map<K, V> {
    map k | k in ks && k in m :: m[k]
  }

  /** The same without empty ABIs. */
  function Filled<K>(m: map<K, Abi>, ks: seq<K>): map<K, Abi> {
    map k | k in ks && k in m && !m[k].NoAbi? :: m[k]
  }

  ghost predicate Distinct<K(!new)>(ks: seq<K>, m: map<K, Abi>) {
    (forall k :: k in ks ==> k in m) && forall i, j :: 0 <= i < j < |ks| ==> ks[i] != ks[j]
  }

  lemma FilledLast<K(!new)>(m: map<K, Abi>, ks: seq<K>)
    requires Distinct(ks, m) && ks != []
    ensures Distinct(Front(ks), m)
    ensures if m[Last(ks)].NoAbi? then Filled(m, ks) == Filled(m, Front(ks))
            else Last(ks) !in Filled(m, Front(ks)) && Filled(m, ks) == Filled(m, Front(ks))[Last(ks) := m[Last(ks)]]
  {
    assert forall k :: k in ks <==> k in Front(ks) || k == Last(ks);
    assert Last(ks) !in Front(ks);
  }

  lemma {:induction false} RestoreReceived(t: Tables, m: map<u32, BlockId>, ks: seq<u32>)
    requires (forall k :: k in ks ==> k in m) && forall i, j :: 0 <= i < j < |ks| ==> ks[i] != ks[j]
    requires t.received == map[]
    ensures CreateAll(t, ReceivedRows(m, ks)) == Restored(t.(received := Listed(m, ks)))
  {
    if ks == [] {
      assert Listed(m, ks) == map[];
    } else {
      RestoreReceived(t, m, Front(ks));
      CreateLast(t, ReceivedRows(m, Front(ks)), ReceivedEntry(Last(ks), m[Last(ks)]));
      assert forall k :: k in ks <==> k in Front(ks) || k == Last(ks);
      assert Last(ks) !in Front(ks);
      assert Listed(m, ks) == Listed(m, Front(ks))[Last(ks) := m[Last(ks)]];
    }
  }

  lemma {:induction false} RestoreLatest(t: Tables, m: map<Account, Abi>, ks: seq<Account>)
    requires Distinct(ks, m) && t.abis.latest == map[]
    ensures CreateAll(t, AbiRows(m, ks)) == Restored(t.(abis := t.abis.(latest := Filled(m, ks))))
  {
    if ks == [] {
      assert Filled(m, ks) == map[];
    } else {
      FilledLast(m, ks);
      RestoreLatest(t, m, Front(ks));
      CreateLast(t, AbiRows(m, Front(ks)), AbiEntry(Last(ks), m[Last(ks)]));
      assert AbiRows(m, Front(ks)) + [] == AbiRows(m, Front(ks));
    }
  }

  lemma {:induction false} RestoreHistory(t: Tables, m: map<HistKey, Abi>, ks: seq<HistKey>)
    requires Distinct(ks, m) && t.abis.history == map[]
    ensures CreateAll(t, HistoryRows(m, ks)) == Restored(t.(abis := t.abis.(history := Filled(m, ks))))
  {
    if ks == [] {
      assert Filled(m, ks) == map[];
    } else {
      FilledLast(m, ks);
      RestoreHistory(t, m, Front(ks));
      CreateLast(t, HistoryRows(m, Front(ks)), HistoryEntry(Last(ks), m[Last(ks)]));
      assert HistoryRows(m, Front(ks)) + [] == HistoryRows(m, Front(ks));
    }
  }

  lemma RestoreAll(t: Tables, k1: seq<u32>, k2: seq<Account>, k3: seq<HistKey>)
    requires t.state.Some?
    requires Enumerates(k1, t.received.Keys) && Enumerates(k2, t.abis.latest.Keys)
    requires Enumerates(k3, t.abis.history.Keys)
    ensures CreateAll(EMPTY, [StateEntry(t.state.value)] + ReceivedRows(t.received, k1) + AbiRows(t.abis.latest, k2)
                             + HistoryRows(t.abis.history, k3)) == Restored(Portable(t))
  {
    hide CreateAll, ReceivedRows, AbiRows, HistoryRows;
    var r0, r1, r2, r3 := [StateEntry(t.state.value)], ReceivedRows(t.received, k1),
      AbiRows(t.abis.latest, k2), HistoryRows(t.abis.history, k3);
    var t0 := EMPTY.(state := t.state);
    RestoreState(t.state.value);
    RestoreReceived(t0, t.received, k1);
    assert Listed(t.received, k1) == t.received;
    CreateAllConcat(EMPTY, r0, r1);
    var t1 := t0.(received := t.received);
    RestoreLatest(t1, t.abis.latest, k2);
    assert Filled(t.abis.latest, k2) == Portable(t).abis.latest;
    CreateAllConcat(EMPTY, r0 + r1, r2);
    var t2 := t1.(abis := t1.abis.(latest := Portable(t).abis.latest));
    RestoreHistory(t2, t.abis.history, k3);
    assert Filled(t.abis.history, k3) == Portable(t).abis.history;
    CreateAllConcat(EMPTY, r0 + r1 + r2, r3);
  }

  lemma RestoreState(row: StateRow)
    ensures CreateAll(EMPTY, [StateEntry(row)]) == Restored(EMPTY.(state := Some(row)))
  {
    assert Front([StateEntry(row)]) == [];
  }

  /** Restoring a written snapshot into an empty database gives the tables it was written from,
      without their empty ABIs. */
  lemma RoundTrip(t: Tables, rows: seq<Entry>, k1: seq<u32>, k2: seq<Account>, k3: seq<HistKey>)
    requires IsSnapshotOf(t, rows, k1, k2, k3)
    ensures Read(EMPTY, File(MAGIC, CURRENT_VERSION, rows)) == Restored(Portable(t))
  {
    RestoreAll(t, k1, k2, k3);
    ReadAfterCreate(EMPTY, Front(rows), [EndEntry(MAGIC)]);
    assert rows == Front(rows) + [EndEntry(MAGIC)];
  }

  /** On a database built by scanning, the restored tables are the committed ones; only the history
      entries of removed ABIs are gone. */
  lemma RoundTripOfScan(c: Config, start: u32, w: World, rows: seq<Entry>,
                        k1: seq<u32>, k2: seq<Account>, k3: seq<HistKey>)
    requires Reachable(c, start, w) && IsSnapshotOf(Committed(w.r.db), rows, k1, k2, k3)
    ensures var log := UpTo(w, Base(w.r.db)); var t := Replay(log);
      && Committed(w.r.db) == t
      && Read(EMPTY, File(MAGIC, CURRENT_VERSION, rows)) == Restored(t.(abis := t.abis.(
          history := map k | k in t.abis.history && !t.abis.history[k].NoAbi? :: t.abis.history[k])))
  {
    hide Reachable, IsSnapshotOf, Read;
    ReachableInv(c, start, w);
    RestartKeepsReplayed(w);
    ReplayOnlyWellFormed(UpTo(w, Base(w.r.db)));
    var t := Committed(w.r.db);
    RoundTrip(t, rows, k1, k2, k3);
    assert Portable(t).abis.latest == t.abis.latest;
  }

  /** What the dropped entries mean for lookups.  On restored tables a lookup that would find a removal
      finds the newest ABI before it instead, so a removed ABI comes back; every other lookup gives
      the same answer as before. */
  lemma {:induction false} RestoredLookupIff(t: Tables, a: Account, h: int)
    ensures var before, after := LinearSearch(t.abis.history, a, h), LinearSearch(Portable(t).abis.history, a, h);
      && (after == before <==> before != Some(NoAbi))
      && after != Some(NoAbi)
    ensures 0 <= h <= 0xffff_ffff && HistKey(a, h) in t.abis.history && t.abis.history[HistKey(a, h)].NoAbi? ==>
      LinearSearch(Portable(t).abis.history, a, h) == LinearSearch(Portable(t).abis.history, a, h - 1)
    decreases h + 1
  {
    if 0 <= h {
      RestoredLookupIff(t, a, h - 1);
    }
  }

  /** A second round trip changes nothing any more. */
  lemma SecondRoundTrip(t: Tables, rows: seq<Entry>, k1: seq<u32>, k2: seq<Account>, k3: seq<HistKey>)
    requires IsSnapshotOf(Portable(t), rows, k1, k2, k3)
    ensures Read(EMPTY, File(MAGIC, CURRENT_VERSION, rows)) == Restored(Portable(t))
  {
    RoundTrip(Portable(t), rows, k1, k2, k3);
    assert Portable(Portable(t)).abis.latest == Portable(t).abis.latest;
    assert Portable(Portable(t)).abis.history == Portable(t).abis.history;
  }

  /** The rows up to the end marker, which carries the right magic number. */
  ghost predicate EndsAt(rows: seq<Entry>, i: nat) {
    i < |rows| && rows[i] == EndEntry(MAGIC) && forall j :: 0 <= j < i ==> !rows[j].EndEntry?
  }

  /** A stream is accepted exactly if it has an end marker, the first one with the right magic
      number, and no row before it is refused; what follows the marker does not matter. */
  lemma RestoredIff(t: Tables, rows: seq<Entry>)
    ensures ReadRows(t, rows).Restored? <==> exists i: nat :: EndsAt(rows, i) && CreateAll(t, rows[..i]).Restored?
  {
    if ReadRows(t, rows).Restored? {
      var i := AcceptedEnd(t, rows);
    }
    forall i: nat | EndsAt(rows, i) && CreateAll(t, rows[..i]).Restored?
      ensures ReadRows(t, rows).Restored?
    {
      ReadAfterCreate(t, rows[..i], rows[i..]);
      assert rows[..i] + rows[i..] == rows;
    }
  }

  lemma {:induction false} AcceptedEnd(t: Tables, rows: seq<Entry>) returns (i: nat)
    requires ReadRows(t, rows).Restored?
    ensures EndsAt(rows, i) && CreateAll(t, rows[..i]).Restored?
    decreases |rows|
  {
    if rows[0].EndEntry? {
      i := 0;
    } else {
      var rest, first := rows[1..], [rows[0]];
      var j := AcceptedEnd(CreateRow(t, rows[0]).tables, rest);
      i := j + 1;
      assert Front(first) == [];
      CreateAllConcat(t, first, rest[..j]);
      assert rows[..i] == first + rest[..j];
    }
  }

  // ---- what is accepted ----

  datatype Key = ReceivedKey(block: u32) | AbiKey(account: Account) | HistoryKey(key: HistKey)

  /** The key a row is created under; a state row has none, nor has an end marker. */
  function KeyOf(e: Entry): Option<Key> {
    match e
    case ReceivedEntry(block, _) => Some(ReceivedKey(block))
    case AbiEntry(account, _) => Some(AbiKey(account))
    case HistoryEntry(key, _) => Some(HistoryKey(key))
    case StateEntry(_) => None
    case EndEntry(_) => None
  }

  /** The row the tables hold under a key. */
  function RowAt(t: Tables, k: Key): Option<Entry> {
    match k
    case ReceivedKey(b) => if b in t.received then Some(ReceivedEntry(b, t.received[b])) else None
    case AbiKey(a) => if a in t.abis.latest then Some(AbiEntry(a, t.abis.latest[a])) else None
    case HistoryKey(h) => if h in t.abis.history then Some(HistoryEntry(h, t.abis.history[h])) else None
  }

  /** No end marker among the rows, and no key that the tables or an earlier row already have. */
  ghost predicate Creatable(t: Tables, rows: seq<Entry>) {
    && (forall i :: 0 <= i < |rows| ==>
        !rows[i].EndEntry? && (KeyOf(rows[i]).Some? ==> RowAt(t, KeyOf(rows[i]).value).None?))
    && (forall i, j :: 0 <= i < j < |rows| && KeyOf(rows[i]).Some? ==> KeyOf(rows[i]) != KeyOf(rows[j]))
  }

  /** The first state row, if any. */
  function FirstState(rows: seq<Entry>): Option<StateRow> {
    if rows == [] then None
    else if FirstState(Front(rows)).Some? then FirstState(Front(rows))
    else if Last(rows).StateEntry? then Some(Last(rows).row)
    else None
  }

  /** `t'` holds the rows `t` does and the given ones, nothing else; a state row that was there before
      stays in force. */
  ghost predicate Holds(t: Tables, rows: seq<Entry>, t': Tables) {
    && t'.state == (if t.state.Some? then t.state else FirstState(rows))
    && forall k, e :: RowAt(t', k) == Some(e) <==>
        RowAt(t, k) == Some(e) || (e in rows && KeyOf(e) == Some(k))
  }

  lemma KeyIsFreeIff(t: Tables, rows: seq<Entry>, t': Tables, e: Entry)
    requires Holds(t, rows, t') && KeyOf(e).Some?
    ensures RowAt(t', KeyOf(e).value).None? <==>
      RowAt(t, KeyOf(e).value).None? && forall i :: 0 <= i < |rows| ==> KeyOf(rows[i]) != KeyOf(e)
  {
    var k := KeyOf(e).value;
    hide RowAt, KeyOf;
    if RowAt(t', k).Some? {
      var was := RowAt(t', k).value;
      assert RowAt(t, k) == Some(was) || (was in rows && KeyOf(was) == Some(k));
    }
    forall i | 0 <= i < |rows| && KeyOf(rows[i]) == Some(k)
      ensures RowAt(t', k).Some?
    {
      assert RowAt(t', k) == Some(rows[i]);
    }
    if RowAt(t, k).Some? {
      assert RowAt(t', k) == Some(RowAt(t, k).value);
    }
  }

  lemma CreatableLast(t: Tables, rows: seq<Entry>, t': Tables)
    requires rows != [] && Holds(t, Front(rows), t')
    ensures Creatable(t, rows) <==>
      && Creatable(t, Front(rows))
      && !Last(rows).EndEntry? && (KeyOf(Last(rows)).Some? ==> RowAt(t', KeyOf(Last(rows)).value).None?)
  {
    hide RowAt, KeyOf, Holds;
    if KeyOf(Last(rows)).Some? {
      KeyIsFreeIff(t, Front(rows), t', Last(rows));
    }
  }

  lemma HoldsLast(t: Tables, rows: seq<Entry>, t1: Tables, t2: Tables)
    requires rows != [] && Holds(t, Front(rows), t1) && CreateRow(t1, Last(rows)) == Restored(t2)
    ensures Holds(t, rows, t2)
  {
    assert rows == Front(rows) + [Last(rows)];
    hide RowAt, KeyOf, CreateRow;
  }

  /** Rows can be created one after the other if and only if no two of them, nor one of them and a row
      of the tables, have the same key; the tables then hold what they held and the rows. */
  lemma {:induction false} CreateAllIff(t: Tables, rows: seq<Entry>)
    ensures CreateAll(t, rows).Restored? <==> Creatable(t, rows)
    ensures CreateAll(t, rows).Restored? ==> Holds(t, rows, CreateAll(t, rows).tables)
  {
    if rows != [] {
      CreateAllIff(t, Front(rows));
      if CreateAll(t, Front(rows)).Restored? {
        var t' := CreateAll(t, Front(rows)).tables;
        CreatableLast(t, rows, t');
        if CreateRow(t', Last(rows)).Restored? {
          HoldsLast(t, rows, t', CreateRow(t', Last(rows)).tables);
        }
        hide Holds, CreateRow, Creatable;
      } else {
        assert forall i :: 0 <= i < |Front(rows)| ==> Front(rows)[i] == rows[i];
      }
    }
  }

  /** A file is accepted, whatever the database holds, if and only if it starts with the magic number
      and the current version, the database has no state row, and the rows up to the first end marker,
      which must carry the magic number, can all be created. */
  lemma AcceptedIff(t: Tables, file: File)
    ensures Read(t, file).Restored? <==>
      && file.magic == MAGIC && file.version == CURRENT_VERSION && t.state.None?
      && exists i: nat :: EndsAt(file.rows, i) && Creatable(t, file.rows[..i])
  {
    RestoredIff(t, file.rows);
    forall i: nat | EndsAt(file.rows, i)
      ensures CreateAll(t, file.rows[..i]).Restored? <==> Creatable(t, file.rows[..i])
    {
      CreateAllIff(t, file.rows[..i]);
    }
  }

  /** The tables of an accepted file: what was there before, and the rows up to the end marker. */
  lemma AcceptedHolds(t: Tables, file: File, i: nat)
    requires Read(t, file).Restored? && EndsAt(file.rows, i)
    ensures Holds(t, file.rows[..i], Read(t, file).tables)
  {
    var j := AcceptedEnd(t, file.rows);
    assert i == j;
    assert file.rows == file.rows[..i] + file.rows[i..];
    ReadAfterCreate(t, file.rows[..i], file.rows[i..]);
    CreateAllIff(t, file.rows[..i]);
  }

  /** So every proper prefix of a snapshot, and every file with a wrong version or with a wrong magic
      number in front or at the end, is rejected. */
  lemma DamagedIsRejected(t: Tables, rows: seq<Entry>, k1: seq<u32>, k2: seq<Account>, k3: seq<HistKey>,
                          n: nat, magic: nat, version: u32)
    requires IsSnapshotOf(t, rows, k1, k2, k3) && n < |rows|
    ensures Read(EMPTY, File(MAGIC, CURRENT_VERSION, rows[..n])) == Rejected
    ensures magic != MAGIC || version != CURRENT_VERSION ==> Read(EMPTY, File(magic, version, rows)) == Rejected
    ensures magic != MAGIC ==>
      Read(EMPTY, File(MAGIC, CURRENT_VERSION, Front(rows) + [EndEntry(magic)])) == Rejected
  {
    SectionsHaveNoEnd(t, k1, k2, k3);
    assert forall i :: 0 <= i < |rows| - 1 ==> !rows[i].EndEntry?;
    var cut, odd := rows[..n], Front(rows) + [EndEntry(magic)];
    assert forall i :: 0 <= i < |cut| ==> cut[i] == rows[i];
    assert forall i :: 0 <= i < |odd| - 1 ==> odd[i] == rows[i];
    RestoredIff(EMPTY, cut);
    RestoredIff(EMPTY, odd);
  }

  lemma SectionsHaveNoEnd(t: Tables, k1: seq<u32>, k2: seq<Account>, k3: seq<HistKey>)
    requires Enumerates(k1, t.received.Keys) && Enumerates(k2, t.abis.latest.Keys)
    requires Enumerates(k3, t.abis.history.Keys)
    ensures forall i :: 0 <= i < |ReceivedRows(t.received, k1)| ==> !ReceivedRows(t.received, k1)[i].EndEntry?
    ensures forall i :: 0 <= i < |AbiRows(t.abis.latest, k2)| ==> !AbiRows(t.abis.latest, k2)[i].EndEntry?
    ensures forall i :: 0 <= i < |HistoryRows(t.abis.history, k3)| ==> !HistoryRows(t.abis.history, k3)[i].EndEntry?
  {
    ReceivedNoEnd(t.received, k1);
    AbiNoEnd(t.abis.latest, k2);
    HistoryNoEnd(t.abis.history, k3);
  }

  lemma ReceivedNoEnd(m: map<u32, BlockId>, ks: seq<u32>)
    requires forall k :: k in ks ==> k in m
    ensures forall i :: 0 <= i < |ReceivedRows(m, ks)| ==> !ReceivedRows(m, ks)[i].EndEntry?
  {
  }

  lemma AbiNoEnd(m: map<Account, Abi>, ks: seq<Account>)
    requires forall k :: k in ks ==> k in m
    ensures forall i :: 0 <= i < |AbiRows(m, ks)| ==> !AbiRows(m, ks)[i].EndEntry?
  {
  }

  lemma HistoryNoEnd(m: map<HistKey, Abi>, ks: seq<HistKey>)
    requires forall k :: k in ks ==> k in m
    ensures forall i :: 0 <= i < |HistoryRows(m, ks)| ==> !HistoryRows(m, ks)[i].EndEntry?
  {
  }

  // ---- scanning on ----

  /** A restored database has revision 0 and nothing to undo, so a fork moves the revision counter
      instead of rolling back, and the forked block then meets its own number in the table: any fork
      after a restart on a restored snapshot stops the receiver. */
  lemma RestoredForkStops(c: Config, log: seq<Block>, origin: nat, m: Block)
    requires Consecutive(log, origin) && log != [] && origin <= Last(log).lib
    requires var s := Load(c, Db(Portable(Replay(log)), 0, []), 0);
      s.status == Running && IsFork(s, m) && s.lib <= m.lib
    ensures Receive(c, Load(c, Db(Portable(Replay(log)), 0, []), 0), m).status == Stopped
  {
    var db := Db(Portable(Replay(log)), 0, []);
    var s := Load(c, db, 0);
    ReversibleAreIn(log, origin, m.num);
    assert m.num in db.tables.received;
    hide Portable, Replay, Load;
    NoRoomForFork(c, s, m);
  }

  lemma NoRoomForFork(c: Config, s: State, m: Block)
    requires s.status == Running && IsFork(s, m) && s.lib <= m.lib
    requires s.db.stack == [] && s.db.revision == 0 && m.num in s.db.tables.received
    ensures Receive(c, s, m).status == Stopped
  {
    var s0 := s.(reading := false);
    var s1 := AlignRevision(s0, m.num);
    assert m.num <= 1 || s1.db == s.db.(revision := m.num - 1);
    assert UndoTo(s1.db, s1.db.revision) == s1.db;
  }
}
