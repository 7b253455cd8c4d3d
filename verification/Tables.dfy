/** `PostgresItemExporter`: tables as maps from primary key to row, and the
    conflict-resolving inserts that write them in chunks. */
module Tables {
  import opened Common

  const COMMIT_BATCH_SIZE: nat := 10000

  // --- What the database does with one statement ---

  /** One row of `INSERT ... ON CONFLICT DO NOTHING`. */
  function InsertOne<K, R>(t: map<K, R>, key: R -> K, row: R): map<K, R> {
    if key(row) in t then t else t[key(row) := row]
  }

  function InsertAll<K, R>(t: map<K, R>, key: R -> K, rows: seq<R>): map<K, R> {
    if rows == [] then t
    else InsertOne(InsertAll(t, key, rows[..|rows| - 1]), key, rows[|rows| - 1])
  }

  /** How `DO UPDATE SET ... WHERE` treats the row that is there and the one proposed. */
  datatype Conflict<!R> = Conflict(passes: (R, R) -> bool, merge: (R, R) -> R)

  /** One row of `INSERT ... ON CONFLICT DO UPDATE`. */
  function UpsertOne<K, R>(t: map<K, R>, key: R -> K, c: Conflict<R>, row: R): map<K, R> {
    var k := key(row);
    if k !in t then t[k := row]
    else if c.passes(t[k], row) then t[k := c.merge(t[k], row)]
    else t
  }

  function UpsertAll<K, R>(t: map<K, R>, key: R -> K, c: Conflict<R>, rows: seq<R>): map<K, R> {
    if rows == [] then t
    else UpsertOne(UpsertAll(t, key, c, rows[..|rows| - 1]), key, c, rows[|rows| - 1])
  }

  /** No two rows have the same primary key. */
  predicate KeysDiffer<K(==), R>(rows: seq<R>, key: R -> K) {
    forall i, j :: 0 <= i < j < |rows| ==> key(rows[i]) != key(rows[j])
  }

  // --- Chunking does not show in the result ---

  lemma {:induction false} InsertAllAppend<K, R>(t: map<K, R>, key: R -> K, a: seq<R>, b: seq<R>)
    ensures InsertAll(t, key, a + b) == InsertAll(InsertAll(t, key, a), key, b)
  {
    if b == [] {
      assert a + b == a;
    } else {
      InsertAllAppend(t, key, a, b[..|b| - 1]);
      assert (a + b)[..|a + b| - 1] == a + b[..|b| - 1];
    }
  }

  lemma {:induction false} UpsertAllAppend<K, R>(t: map<K, R>, key: R -> K, c: Conflict<R>, a: seq<R>, b: seq<R>)
    ensures UpsertAll(t, key, c, a + b) == UpsertAll(UpsertAll(t, key, c, a), key, c, b)
  {
    if b == [] {
      assert a + b == a;
    } else {
      UpsertAllAppend(t, key, c, a, b[..|b| - 1]);
      assert (a + b)[..|a + b| - 1] == a + b[..|b| - 1];
    }
  }

  // --- What is at a key afterwards ---

  /** The first row with key `k`. */
  function First<K(==), R>(rows: seq<R>, key: R -> K, k: K): Option<R> {
    if rows == [] then None
    else
      var before := First(rows[..|rows| - 1], key, k);
      if before.Some? then before
      else if key(rows[|rows| - 1]) == k then Some(rows[|rows| - 1])
      else None
  }

  /** Do-nothing inserts keep what is there, and otherwise the first row wins. */
  lemma {:induction false} InsertAllAt<K, R>(t: map<K, R>, key: R -> K, rows: seq<R>, k: K)
    ensures var t' := InsertAll(t, key, rows);
      && (k in t' <==> k in t || First(rows, key, k).Some?)
      && (k in t ==> t'[k] == t[k])
      && (k !in t && First(rows, key, k).Some? ==> t'[k] == First(rows, key, k).value)
  {
    if rows != [] { InsertAllAt(t, key, rows[..|rows| - 1], k); }
  }

  /** The row at `k` after `row` has been proposed for it. */
  function Resolved<K, R>(t: map<K, R>, c: Conflict<R>, k: K, row: R): R {
    if k !in t then row else if c.passes(t[k], row) then c.merge(t[k], row) else t[k]
  }

  /** With different keys, an upsert treats the row of each key on its own. */
  lemma {:induction false} UpsertAllAt<K, R>(t: map<K, R>, key: R -> K, c: Conflict<R>, rows: seq<R>, k: K)
    requires KeysDiffer(rows, key)
    ensures var t', row := UpsertAll(t, key, c, rows), First(rows, key, k);
      && (row == None ==> (k in t' <==> k in t) && (k in t ==> t'[k] == t[k]))
      && (row.Some? ==> k in t' && t'[k] == Resolved(t, c, k, row.value))
  {
    if rows != [] {
      var init, last := rows[..|rows| - 1], rows[|rows| - 1];
      UpsertAllAt(t, key, c, init, k);
      if First(init, key, k).Some? {
        FirstIsThere(init, key, k);
        assert key(last) != k;
      }
    }
  }

  lemma {:induction false} FirstIsThere<K, R>(rows: seq<R>, key: R -> K, k: K)
    ensures First(rows, key, k).Some? ==>
      exists i :: 0 <= i < |rows| && rows[i] == First(rows, key, k).value && key(rows[i]) == k
    ensures First(rows, key, k) == None ==> forall i :: 0 <= i < |rows| ==> key(rows[i]) != k
  {
    if rows != [] {
      var init := rows[..|rows| - 1];
      FirstIsThere(init, key, k);
      if First(init, key, k).Some? {
        var i :| 0 <= i < |init| && init[i] == First(init, key, k).value && key(init[i]) == k;
        assert rows[i] == init[i];
      } else if First(rows, key, k) == None {
        forall i | 0 <= i < |rows| ensures key(rows[i]) != k {
          if i < |init| { assert init[i] == rows[i]; }
        }
      }
    }
  }

  // --- Which columns an update sets ---

  /** The columns of the balance and token id tables. */
  datatype Column =
    | Address | TokenAddress | TokenId | TokenType | Balance | TokenOwner | TokenSupply | TokenUri | TokenUriInfo
    | BlockNumber | BlockTimestamp | CreateTime | UpdateTime | Reorg

  /** The columns an update may set: those the domain class knows outside the primary key. */
  function UpdateSet(columns: seq<Column>, primaryKey: seq<Column>, annotations: set<Column>): set<Column> {
    set c | c in columns && c !in primaryKey && c in annotations
  }

  /** `on_conflict_do_update`: the columns of the table that the domain class has and
      that are not in the primary key. */
  method OnConflictDoUpdate(columns: seq<Column>, primaryKey: seq<Column>, annotations: set<Column>)
    returns (updateSet: set<Column>)
    ensures updateSet == UpdateSet(columns, primaryKey, annotations)
  {
    updateSet := {};
    for i := 0 to |columns|
      invariant forall c :: c in updateSet <==> c in columns[..i] && c !in primaryKey && c in annotations
    {
      assert columns[..i + 1] == columns[..i] + [columns[i]];
      if columns[i] !in primaryKey && columns[i] in annotations {
        updateSet := updateSet + {columns[i]};
      }
    }
    assert columns[..|columns|] == columns;
  }

  // --- The program ---

  /** The rows of the chunk that starts at `i`. */
  function ChunkAt<R>(data: seq<R>, i: nat): seq<R>
    requires i <= |data|
  {
    data[i..if i + COMMIT_BATCH_SIZE < |data| then i + COMMIT_BATCH_SIZE else |data|]
  }

  predicate IsChunkStart(i: nat) { i % 10000 == 0 }

  /** The database fails at some chunk of an export of that many rows. */
  predicate BreaksAt(broken: set<nat>, rows: nat) { exists i :: i in broken && i < rows && IsChunkStart(i) }

  /** A table; `broken` below are the chunks at which the database fails, by their
      first row. What was committed before stays. */
  class PgTable<K(==), R> {
    var rows: map<K, R>
    const key: R -> K

    constructor (key: R -> K)
      ensures rows == map[] && this.key == key
    {
      this.key := key;
      rows := map[];
    }

    method ExportDoNothing(data: seq<R>, broken: set<nat>) returns (ok: bool, ghost written: nat)
      modifies this`rows
      ensures written <= |data| && rows == InsertAll(old(rows), key, data[..written])
      ensures ok <==> written == |data|
      ensures !ok ==> IsChunkStart(written) && written in broken
      ensures forall i :: 0 <= i < written && i in broken ==> !IsChunkStart(i)
    {
      var i := 0;
      written := 0;
      while i < |data|
        invariant 0 <= i <= |data| && written == i
        invariant rows == InsertAll(old(rows), key, data[..i])
        invariant IsChunkStart(i) || i == |data|
        invariant forall j :: 0 <= j < i && j in broken ==> !IsChunkStart(j)
      {
        var next := if i + COMMIT_BATCH_SIZE < |data| then i + COMMIT_BATCH_SIZE else |data|;
        if i in broken { return false, i; }
        var batch := data[i..next];
        InsertAllAppend(old(rows), key, data[..i], batch);
        assert data[..next] == data[..i] + batch;
        rows := InsertAll(rows, key, batch);
        i, written := next, next;
      }
      assert data[..|data|] == data;
      ok := true;
    }

    /** A statement that proposes one key twice is an error of the database. */
    method ExportDoUpdate(data: seq<R>, c: Conflict<R>, broken: set<nat>) returns (ok: bool, ghost written: nat)
      modifies this`rows
      ensures written <= |data| && rows == UpsertAll(old(rows), key, c, data[..written])
      ensures ok <==> written == |data|
      ensures !ok ==> IsChunkStart(written) && (written in broken || !KeysDiffer(ChunkAt(data, written), key))
      ensures forall i :: 0 <= i < written && IsChunkStart(i) ==>
        i !in broken && KeysDiffer(ChunkAt(data, i), key)
    {
      var i := 0;
      written := 0;
      while i < |data|
        invariant 0 <= i <= |data| && written == i
        invariant rows == UpsertAll(old(rows), key, c, data[..i])
        invariant IsChunkStart(i) || i == |data|
        invariant forall j :: 0 <= j < i && IsChunkStart(j) ==> j !in broken && KeysDiffer(ChunkAt(data, j), key)
      {
        var next := if i + COMMIT_BATCH_SIZE < |data| then i + COMMIT_BATCH_SIZE else |data|;
        var batch := ChunkAt(data, i);
        if i in broken || !KeysDiffer(batch, key) { return false, i; }
        UpsertAllAppend(old(rows), key, c, data[..i], batch);
        assert data[..next] == data[..i] + batch;
        rows := UpsertAll(rows, key, c, batch);
        i, written := next, next;
      }
      assert data[..|data|] == data;
      ok := true;
    }
  }
}
