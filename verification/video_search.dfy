/**
 The full-text index over `videos` and the three triggers that maintain it
 (alembic/versions/c3687b3b7a6a_initial_schema.py). The tokenizer is an arbitrary function.
 */
module VideoSearch {
  import opened Wrappers

  type Tokenizer = string -> seq<string>

  datatype Video = Video(id: string, path: string, filename: string, rest: string)

  datatype Column = Filename | Path

  datatype Posting = Posting(token: string, rowid: int, column: Column, position: int)

  /** Rows by rowid, and the postings of the external-content index. */
  datatype Db = Db(rows: map<int, Video>, index: multiset<Posting>)

  const EMPTY := Db(map[], multiset{})

  function TextOf(v: Video, c: Column): string {
    match c
    case Filename => v.filename
    case Path => v.path
  }

  function ColumnPostings(tok: Tokenizer, rowid: int, v: Video, c: Column): set<Posting> {
    var tokens := tok(TextOf(v, c));
    set i | 0 <= i < |tokens| :: Posting(tokens[i], rowid, c, i)
  }

  function PostingsOf(tok: Tokenizer, rowid: int, v: Video): set<Posting> {
    ColumnPostings(tok, rowid, v, Filename) + ColumnPostings(tok, rowid, v, Path)
  }

  // ---------- Row changes with their triggers ----------

  /** `id` and `path` are unique; so is the rowid. `except` is the row being replaced. */
  predicate Fits(rows: map<int, Video>, rowid: int, v: Video) {
    rowid !in rows && forall r :: r in rows ==> rows[r].id != v.id && rows[r].path != v.path
  }

  /** `videos_fts_insert` */
  function Inserted(tok: Tokenizer, db: Db, rowid: int, v: Video): Db {
    Db(db.rows[rowid := v], db.index + multiset(PostingsOf(tok, rowid, v)))
  }

  /** `videos_fts_delete`: the 'delete' command removes the postings of the values it is given. */
  function Deleted(tok: Tokenizer, db: Db, rowid: int): Db
    requires rowid in db.rows
  {
    Db(db.rows - {rowid}, db.index - multiset(PostingsOf(tok, rowid, db.rows[rowid])))
  }

  /** `videos_fts_update`: delete the old values, insert the new. */
  function Updated(tok: Tokenizer, db: Db, rowid: int, to: int, v: Video): Db
    requires rowid in db.rows
  {
    Inserted(tok, Deleted(tok, db, rowid), to, v)
  }

  // ---------- Statements ----------

  /** One row of an UPDATE: the row, its rowid afterwards, and its new values. */
  datatype Change = Change(rowid: int, to: int, video: Video)

  datatype Statement =
    | Insert(rowid: int, video: Video)
    | Delete(rowids: seq<int>)
    | Update(changes: seq<Change>)

  function DeleteRows(tok: Tokenizer, db: Db, rowids: seq<int>): Db {
    if rowids == [] then db
    else
      var before := DeleteRows(tok, db, rowids[..|rowids| - 1]);
      var r := rowids[|rowids| - 1];
      if r in before.rows then Deleted(tok, before, r) else before
  }

  datatype Attempt = Committed(db: Db) | Violated

  function UpdateRow(tok: Tokenizer, db: Db, c: Change): Attempt {
    if c.rowid !in db.rows then Committed(db)
    else if !Fits(db.rows - {c.rowid}, c.to, c.video) then Violated
    else Committed(Updated(tok, db, c.rowid, c.to, c.video))
  }

  function UpdateRows(tok: Tokenizer, db: Db, changes: seq<Change>): Attempt
    decreases |changes|
  {
    if changes == [] then Committed(db)
    else
      match UpdateRow(tok, db, changes[0])
      case Violated => Violated
      case Committed(next) => UpdateRows(tok, next, changes[1..])
  }

  /** A statement that violates a constraint leaves the database, index included, as it was. */
  function Execute(tok: Tokenizer, db: Db, s: Statement): Db {
    match s
    case Insert(rowid, v) => if Fits(db.rows, rowid, v) then Inserted(tok, db, rowid, v) else db
    case Delete(rowids) => DeleteRows(tok, db, rowids)
    case Update(changes) =>
      var r := UpdateRows(tok, db, changes);
      if r.Committed? then r.db else db
  }

  function Run(tok: Tokenizer, ss: seq<Statement>): Db {
    if ss == [] then EMPTY else Execute(tok, Run(tok, ss[..|ss| - 1]), ss[|ss| - 1])
  }

  /** The database connection: triggers change the index in place, row by row. */
  class Connection {
    const tokenize: Tokenizer
    var rows: map<int, Video>
    var index: multiset<Posting>

    function View(): Db
      reads this
    {
      Db(rows, index)
    }

    constructor (tok: Tokenizer)
      ensures tokenize == tok && View() == EMPTY
    {
      tokenize := tok;
      rows := map[];
      index := multiset{};
    }

    method FtsInsert(rowid: int, v: Video)
      modifies this`index
      ensures index == old(index) + multiset(PostingsOf(tokenize, rowid, v))
    {
      index := index + multiset(PostingsOf(tokenize, rowid, v));
    }

    method FtsDelete(rowid: int, v: Video)
      modifies this`index
      ensures index == old(index) - multiset(PostingsOf(tokenize, rowid, v))
    {
      index := index - multiset(PostingsOf(tokenize, rowid, v));
    }

    method InsertRow(rowid: int, v: Video) returns (ok: bool)
      modifies this
      ensures ok <==> Fits(old(rows), rowid, v)
      ensures View() == Execute(tokenize, old(View()), Insert(rowid, v))
    {
      ok := Fits(rows, rowid, v);
      if ok {
        rows := rows[rowid := v];
        FtsInsert(rowid, v);
      }
    }

    method DeleteWhere(rowids: seq<int>)
      modifies this
      ensures View() == Execute(tokenize, old(View()), Delete(rowids))
    {
      for i := 0 to |rowids|
        invariant View() == DeleteRows(tokenize, old(View()), rowids[..i])
      {
        assert rowids[..i + 1][..i] == rowids[..i];
        var r := rowids[i];
        if r in rows {
          var v := rows[r];
          rows := rows - {r};
          FtsDelete(r, v);
        }
      }
      assert rowids[..|rowids|] == rowids;
    }

    method UpdateWhere(changes: seq<Change>) returns (ok: bool)
      modifies this
      ensures ok <==> UpdateRows(tokenize, old(View()), changes).Committed?
      ensures View() == Execute(tokenize, old(View()), Update(changes))
    {
      var savedRows, savedIndex := rows, index;
      for i := 0 to |changes|
        invariant UpdateRows(tokenize, old(View()), changes) == UpdateRows(tokenize, View(), changes[i..])
      {
        assert changes[i..][1..] == changes[i + 1..];
        var c := changes[i];
        if c.rowid in rows {
          var v := rows[c.rowid];
          if !Fits(rows - {c.rowid}, c.to, c.video) {
            rows, index := savedRows, savedIndex;
            return false;
          }
          rows := (rows - {c.rowid})[c.to := c.video];
          FtsDelete(c.rowid, v);
          FtsInsert(c.to, c.video);
        }
      }
      return true;
    }
  }

  // ---------- The index agrees with the table ----------

  /** The posting that a scan of the rows would produce. */
  predicate InRows(tok: Tokenizer, rows: map<int, Video>, p: Posting) {
    && p.rowid in rows
    && var tokens := tok(TextOf(rows[p.rowid], p.column));
       0 <= p.position < |tokens| && tokens[p.position] == p.token
  }

  /** Each posting of the current rows is indexed once, and no other posting at all. */
  ghost predicate InStep(tok: Tokenizer, db: Db) {
    forall p :: db.index[p] == if InRows(tok, db.rows, p) then 1 else 0
  }

  lemma PostingsOfRow(tok: Tokenizer, rowid: int, v: Video, p: Posting)
    ensures p in PostingsOf(tok, rowid, v) <==> p.rowid == rowid && InRows(tok, map[rowid := v], p)
  {
    if p.rowid == rowid && InRows(tok, map[rowid := v], p) {
      assert p in ColumnPostings(tok, rowid, v, p.column);
    }
  }

  lemma MultisetOf(s: set<Posting>, p: Posting)
    ensures multiset(s)[p] == if p in s then 1 else 0
  {
  }

  lemma InsertAt(tok: Tokenizer, db: Db, rowid: int, v: Video, p: Posting)
    requires InStep(tok, db) && rowid !in db.rows
    ensures var r := Inserted(tok, db, rowid, v); r.index[p] == if InRows(tok, r.rows, p) then 1 else 0
  {
    PostingsOfRow(tok, rowid, v, p);
    MultisetOf(PostingsOf(tok, rowid, v), p);
    assert p.rowid != rowid ==> (InRows(tok, db.rows[rowid := v], p) <==> InRows(tok, db.rows, p));
  }

  lemma InsertKeepsStep(tok: Tokenizer, db: Db, rowid: int, v: Video)
    requires InStep(tok, db) && rowid !in db.rows
    ensures InStep(tok, Inserted(tok, db, rowid, v))
  {
    forall p
      ensures var r := Inserted(tok, db, rowid, v); r.index[p] == if InRows(tok, r.rows, p) then 1 else 0
    {
      InsertAt(tok, db, rowid, v, p);
    }
  }

  lemma DeleteAt(tok: Tokenizer, db: Db, rowid: int, p: Posting)
    requires InStep(tok, db) && rowid in db.rows
    ensures var r := Deleted(tok, db, rowid); r.index[p] == if InRows(tok, r.rows, p) then 1 else 0
  {
    PostingsOfRow(tok, rowid, db.rows[rowid], p);
    MultisetOf(PostingsOf(tok, rowid, db.rows[rowid]), p);
    assert p.rowid != rowid ==> (InRows(tok, db.rows - {rowid}, p) <==> InRows(tok, db.rows, p));
  }

  lemma DeleteKeepsStep(tok: Tokenizer, db: Db, rowid: int)
    requires InStep(tok, db) && rowid in db.rows
    ensures InStep(tok, Deleted(tok, db, rowid))
  {
    forall p
      ensures var r := Deleted(tok, db, rowid); r.index[p] == if InRows(tok, r.rows, p) then 1 else 0
    {
      DeleteAt(tok, db, rowid, p);
    }
  }

  lemma {:induction false} DeleteRowsKeepsStep(tok: Tokenizer, db: Db, rowids: seq<int>)
    requires InStep(tok, db)
    ensures InStep(tok, DeleteRows(tok, db, rowids))
  {
    if rowids != [] {
      var before := DeleteRows(tok, db, rowids[..|rowids| - 1]);
      DeleteRowsKeepsStep(tok, db, rowids[..|rowids| - 1]);
      if rowids[|rowids| - 1] in before.rows {
        DeleteKeepsStep(tok, before, rowids[|rowids| - 1]);
      }
    }
  }

  lemma {:induction false} UpdateRowsKeepsStep(tok: Tokenizer, db: Db, changes: seq<Change>)
    requires InStep(tok, db)
    ensures UpdateRows(tok, db, changes).Committed? ==> InStep(tok, UpdateRows(tok, db, changes).db)
    decreases |changes|
  {
    if changes != [] {
      var c := changes[0];
      if UpdateRow(tok, db, c).Committed? {
        if c.rowid in db.rows {
          DeleteKeepsStep(tok, db, c.rowid);
          InsertKeepsStep(tok, Deleted(tok, db, c.rowid), c.to, c.video);
        }
        UpdateRowsKeepsStep(tok, UpdateRow(tok, db, c).db, changes[1..]);
      }
    }
  }

  /** After any run of inserts, deletes and updates, committed or rolled back, index and table agree. */
  lemma {:induction false} RunKeepsIndexInStep(tok: Tokenizer, ss: seq<Statement>)
    ensures InStep(tok, Run(tok, ss))
  {
    if ss != [] {
      var db, s := Run(tok, ss[..|ss| - 1]), ss[|ss| - 1];
      RunKeepsIndexInStep(tok, ss[..|ss| - 1]);
      match s {
        case Insert(rowid, v) =>
          if Fits(db.rows, rowid, v) {
            InsertKeepsStep(tok, db, rowid, v);
          }
        case Delete(rowids) =>
          DeleteRowsKeepsStep(tok, db, rowids);
        case Update(changes) =>
          UpdateRowsKeepsStep(tok, db, changes);
      }
    }
  }

  // ---------- The triggers leave the table alone ----------

  /** What a statement does to a table that has no triggers; `None` where it violates a constraint. */
  function TableAfter(rows: map<int, Video>, s: Statement): Option<map<int, Video>> {
    match s
    case Insert(rowid, v) => if New(rows, rowid, v) then Some(rows[rowid := v]) else None
    case Delete(rowids) => Some(map r | r in rows && r !in rowids :: rows[r])
    case Update(changes) => TableChanged(rows, changes)
  }

  /** Neither the rowid nor the id nor the path is in the table yet. */
  predicate New(rows: map<int, Video>, rowid: int, v: Video) {
    forall r :: r in rows ==> r != rowid && rows[r].id != v.id && rows[r].path != v.path
  }

  /** Each change takes its row out and puts the new values in, if they are new to the rest of the table. */
  function TableChanged(rows: map<int, Video>, changes: seq<Change>): Option<map<int, Video>>
    decreases |changes|
  {
    if changes == [] then Some(rows)
    else
      var c := changes[0];
      if c.rowid !in rows then TableChanged(rows, changes[1..])
      else
        var others := map r | r in rows && r != c.rowid :: rows[r];
        if New(others, c.to, c.video) then TableChanged(others[c.to := c.video], changes[1..]) else None
  }

  function TableRun(ss: seq<Statement>): map<int, Video> {
    if ss == [] then map[]
    else
      var before := TableRun(ss[..|ss| - 1]);
      var after := TableAfter(before, ss[|ss| - 1]);
      if after.Some? then after.value else before
  }

  lemma FitsIsNew(rows: map<int, Video>, rowid: int, v: Video)
    ensures Fits(rows, rowid, v) <==> New(rows, rowid, v)
  {
  }

  lemma {:induction false} DeleteRowsTakesOut(tok: Tokenizer, db: Db, rowids: seq<int>)
    ensures DeleteRows(tok, db, rowids).rows == map r | r in db.rows && r !in rowids :: db.rows[r]
  {
    if rowids != [] {
      var n := |rowids| - 1;
      DeleteRowsTakesOut(tok, db, rowids[..n]);
      assert rowids == rowids[..n] + [rowids[n]];
    }
  }

  lemma {:induction false} UpdateRowsChanges(tok: Tokenizer, db: Db, changes: seq<Change>)
    ensures var r, t := UpdateRows(tok, db, changes), TableChanged(db.rows, changes);
            && (r.Committed? <==> t.Some?)
            && (t.Some? ==> r.db.rows == t.value)
    decreases |changes|
  {
    if changes != [] {
      var c := changes[0];
      if c.rowid in db.rows {
        var others := map r | r in db.rows && r != c.rowid :: db.rows[r];
        assert db.rows - {c.rowid} == others;
        FitsIsNew(others, c.to, c.video);
        if New(others, c.to, c.video) {
          UpdateRowsChanges(tok, Updated(tok, db, c.rowid, c.to, c.video), changes[1..]);
        }
      } else {
        UpdateRowsChanges(tok, db, changes[1..]);
      }
    }
  }

  /** After any run the table holds what it would without triggers, whatever the tokenizer. */
  lemma {:induction false} TableIsAsWithoutTriggers(tok: Tokenizer, ss: seq<Statement>)
    ensures Run(tok, ss).rows == TableRun(ss)
  {
    if ss != [] {
      var db, s := Run(tok, ss[..|ss| - 1]), ss[|ss| - 1];
      TableIsAsWithoutTriggers(tok, ss[..|ss| - 1]);
      match s {
        case Insert(rowid, v) => FitsIsNew(db.rows, rowid, v);
        case Delete(rowids) => DeleteRowsTakesOut(tok, db, rowids);
        case Update(changes) => UpdateRowsChanges(tok, db, changes);
      }
    }
  }

  ghost predicate UniqueVideos(rows: map<int, Video>) {
    forall q, r :: q in rows && r in rows && q != r ==> rows[q].id != rows[r].id && rows[q].path != rows[r].path
  }

  lemma {:induction false} ChangesKeepUnique(rows: map<int, Video>, changes: seq<Change>)
    requires UniqueVideos(rows)
    ensures TableChanged(rows, changes).Some? ==> UniqueVideos(TableChanged(rows, changes).value)
    decreases |changes|
  {
    if changes != [] {
      var c := changes[0];
      if c.rowid !in rows {
        ChangesKeepUnique(rows, changes[1..]);
      } else {
        var others := map r | r in rows && r != c.rowid :: rows[r];
        if New(others, c.to, c.video) {
          ChangesKeepUnique(others[c.to := c.video], changes[1..]);
        }
      }
    }
  }

  /** No two rows ever share an id or a path. */
  lemma {:induction false} RunKeepsUnique(tok: Tokenizer, ss: seq<Statement>)
    ensures UniqueVideos(Run(tok, ss).rows)
  {
    TableIsAsWithoutTriggers(tok, ss);
    if ss != [] {
      var before, s := TableRun(ss[..|ss| - 1]), ss[|ss| - 1];
      RunKeepsUnique(tok, ss[..|ss| - 1]);
      TableIsAsWithoutTriggers(tok, ss[..|ss| - 1]);
      if s.Update? {
        ChangesKeepUnique(before, s.changes);
      }
    }
  }

  // ---------- Searching ----------

  /** Rows with a posting of `token` in column `c`. */
  function IndexHits(index: multiset<Posting>, token: string, c: Column): set<int> {
    set p | p in index && p.token == token && p.column == c :: p.rowid
  }

  /** Rows whose file name, or whose path, contains `token`, by reading every row. */
  function ScanHits(tok: Tokenizer, rows: map<int, Video>, token: string, c: Column): set<int> {
    set r | r in rows && token in tok(if c == Filename then rows[r].filename else rows[r].path)
  }

  /** A token search through the index returns the rows a scan of the table would. */
  lemma SearchIsScan(tok: Tokenizer, ss: seq<Statement>, token: string, c: Column)
    ensures IndexHits(Run(tok, ss).index, token, c) == ScanHits(tok, Run(tok, ss).rows, token, c)
  {
    var db := Run(tok, ss);
    RunKeepsIndexInStep(tok, ss);
    forall r | r in ScanHits(tok, db.rows, token, c)
      ensures r in IndexHits(db.index, token, c)
    {
      var tokens := tok(TextOf(db.rows[r], c));
      var i :| 0 <= i < |tokens| && tokens[i] == token;
      var p := Posting(token, r, c, i);
      assert db.index[p] == 1;
    }
    forall r | r in IndexHits(db.index, token, c)
      ensures r in ScanHits(tok, db.rows, token, c)
    {
      var p :| p in db.index && p.token == token && p.column == c && p.rowid == r;
      assert InRows(tok, db.rows, p);
    }
  }
}
