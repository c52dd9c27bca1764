/** The revisioned store the receiver keeps its tables in.  chainbase itself is not part of the
    repository; `Db` and the class state the behaviour the receiver relies on. */
module Chainbase {
  import opened Basics
  import opened Tables

  /** `stack[i]` holds the tables as they were at revision `Base(db) + i`. */
  datatype Db = Db(tables: Tables, revision: int, stack: seq<Tables>)

  /** The committed revision: nothing below it can be brought back. */
  function Base(db: Db): int {
    db.revision - |db.stack|
  }

  function Begin(db: Db): Db {
    Db(db.tables, db.revision + 1, db.stack + [db.tables])
  }

  function Undo(db: Db): Db {
    if db.stack == [] then db else Db(Last(db.stack), db.revision - 1, Front(db.stack))
  }

  /** The store as it was when its revision was `r`. */
  function UndoTo(db: Db, r: int): Db
    requires Base(db) <= r <= db.revision
  {
    if r == db.revision then db
    else Db(db.stack[r - Base(db)], r, db.stack[..r - Base(db)])
  }

  /** Forgets the saved tables of every revision below `min(r, revision)`. */
  function Commit(db: Db, r: int): Db {
    db.(stack := db.stack[Max(0, Min(r, db.revision) - Base(db))..])
  }

  /** Undo, `k` times. */
  function UndoTimes(db: Db, k: nat): Db {
    if k == 0 then db else Undo(UndoTimes(db, k - 1))
  }

  /** Popping revisions one by one reaches the tables saved for the target revision, and once the
      stack is exhausted undo changes nothing, however often it is called. */
  lemma {:induction false} UndoTimesIsUndoTo(db: Db, k: nat)
    ensures UndoTimes(db, k) == UndoTo(db, Max(Base(db), db.revision - k))
  {
    if k != 0 {
      UndoTimesIsUndoTo(db, k - 1);
    }
  }

  /** The loop `while revision >= num: undo` has an exit if and only if `num` is above the committed
      revision: otherwise no number of iterations makes its condition false. */
  lemma UndoLoopEndlessIff(db: Db, num: int)
    ensures (forall k: nat :: UndoTimes(db, k).revision >= num) <==> num <= Base(db)
  {
    forall k: nat
      ensures UndoTimes(db, k).revision == Max(Base(db), db.revision - k)
    {
      UndoTimesIsUndoTo(db, k);
    }
    assert UndoTimes(db, |db.stack|).revision == Base(db);
  }

  /** Where it has one, the loop ends with the tables saved for revision `num - 1`, not earlier. */
  lemma UndoLoopEnds(db: Db, num: int)
    requires Base(db) < num <= db.revision + 1
    ensures var n := db.revision + 1 - num;
      && UndoTimes(db, n) == UndoTo(db, num - 1)
      && forall k: nat :: k < n ==> UndoTimes(db, k).revision >= num
  {
    var n := db.revision + 1 - num;
    UndoTimesIsUndoTo(db, n);
    forall k: nat | k < n
      ensures UndoTimes(db, k).revision >= num
    {
      UndoTimesIsUndoTo(db, k);
    }
  }

  class Database {
    var tables: Tables
    var revision: int
    var stack: seq<Tables>

    ghost function Value(): Db
      reads this
    {
      Db(tables, revision, stack)
    }

    constructor ()
      ensures Value() == Db(EMPTY, 0, [])
    {
      tables, revision, stack := EMPTY, 0, [];
    }

    method StartUndoSession()
      modifies this
      ensures Value() == Begin(old(Value()))
    {
      stack := stack + [tables];
      revision := revision + 1;
    }

    method PopRevision()
      modifies this
      ensures Value() == Undo(old(Value()))
    {
      if stack != [] {
        tables, revision, stack := Last(stack), revision - 1, Front(stack);
      }
    }

    /** Refused while there are saved revisions. */
    method SetRevision(r: int) returns (ok: bool)
      modifies this`revision
      ensures ok <==> old(stack) == []
      ensures Value() == if ok then old(Value()).(revision := r) else old(Value())
    {
      ok := stack == [];
      if ok {
        revision := r;
      }
    }

    method CommitTo(r: int)
      modifies this`stack
      ensures Value() == Commit(old(Value()), r)
    {
      ghost var db := Value();
      ghost var dropped := 0;
      while stack != [] && revision - |stack| < r
        invariant 0 <= dropped <= |db.stack| && stack == db.stack[dropped..]
        invariant dropped == 0 || Base(db) + dropped <= r
      {
        stack := stack[1..];
        dropped := dropped + 1;
      }
    }

    /** `revert_uncommitted_revisions`: pops every saved revision and reports how many there were. */
    method RevertUncommitted() returns (depth: nat)
      modifies this
      ensures depth == |old(stack)|
      ensures Value() == UndoTo(old(Value()), Base(old(Value())))
    {
      ghost var db := Value();
      depth := |stack|;
      while stack != []
        invariant |stack| <= |db.stack| && Value() == UndoTo(db, Base(db) + |stack|)
        decreases |stack|
      {
        PopRevision();
      }
    }
  }
}
