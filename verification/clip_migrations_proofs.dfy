/** Every value is carried across the rebuilds, and what a downgrade loses. */
module ClipMigrationsProofs {
  import opened Wrappers
  import opened ClipMigrations

  predicate WellFormed(t: Table) {
    forall k :: 0 <= k < |t.rows| ==> t.rows[k].Keys == t.columns && RespectsNotNull(t.rows[k], t.notNull)
  }

  // ---------- By name, not by position ----------

  /** `r` is `row` migrated column by column, by name. */
  ghost predicate FilledByName(m: Migration, existing: set<Column>, cols: seq<Column>, row: Row, r: Row) {
    && (forall c :: c in r <==> c in cols)
    && (forall c :: c in cols ==>
          Evaluates(SourceOf(m, existing, c), row) && r[c] == Eval(SourceOf(m, existing, c), row))
  }

  lemma OneMoreColumn(m: Migration, existing: set<Column>, cols: seq<Column>, row: Row, before: Row, c: Column)
    requires FilledByName(m, existing, cols, row, before) && Evaluates(SourceOf(m, existing, c), row)
    ensures FilledByName(m, existing, cols + [c], row, before[c := Eval(SourceOf(m, existing, c), row)])
  {
  }

  lemma BuiltNext(cols: seq<Column>, items: seq<Expr>, row: Row)
    requires |items| == |cols| > 0
    requires var n := |cols| - 1; BuiltRow(cols[..n], items[..n], row).Some? && Evaluates(items[n], row)
    ensures var n := |cols| - 1;
            BuiltRow(cols, items, row)
            == Some(BuiltRow(cols[..n], items[..n], row).value[cols[n] := Eval(items[n], row)])
  {
  }

  lemma {:induction false} BuiltByName(
      m: Migration, existing: set<Column>, cols: seq<Column>, items: seq<Expr>, row: Row)
    requires Pairs(m, existing, cols, items)
    requires forall c :: c in cols ==> Evaluates(SourceOf(m, existing, c), row)
    ensures var r := BuiltRow(cols, items, row); r.Some? && FilledByName(m, existing, cols, row, r.value)
  {
    if cols != [] {
      var n := |cols| - 1;
      var init, c := cols[..n], cols[n];
      BuiltByName(m, existing, init, items[..n], row);
      assert items[n] == SourceOf(m, existing, c) && c in cols;
      BuiltNext(cols, items, row);
      OneMoreColumn(m, existing, init, row, BuiltRow(init, items[..n], row).value, c);
      assert cols == init + [c];
    }
  }

  /** Every row has what the migration reads, and yields a row the target accepts. */
  ghost predicate Movable(m: Migration, existing: set<Column>, cols: seq<Column>, row: Row) {
    && (forall c :: c in cols ==> Evaluates(SourceOf(m, existing, c), row))
    && (forall r :: FilledByName(m, existing, cols, row, r) ==> RespectsNotNull(r, NotNullOf(m)))
  }

  /** `r` is `row` migrated by name, and the target accepts it. */
  ghost predicate Moved(m: Migration, existing: set<Column>, cols: seq<Column>, row: Row, r: Row) {
    FilledByName(m, existing, cols, row, r) && RespectsNotNull(r, NotNullOf(m))
  }

  lemma RowByName(m: Migration, existing: set<Column>, cols: seq<Column>, items: seq<Expr>, row: Row)
    requires Pairs(m, existing, cols, items) && Movable(m, existing, cols, row)
    ensures var r := BuiltRow(cols, items, row); r.Some? && Moved(m, existing, cols, row, r.value)
  {
    BuiltByName(m, existing, cols, items, row);
  }

  /** Row `k` of the result is the migration of row `k`. */
  ghost predicate AllMoved(m: Migration, existing: set<Column>, cols: seq<Column>, rows: seq<Row>, rs: seq<Row>) {
    |rs| == |rows| && forall k :: 0 <= k < |rows| ==> Moved(m, existing, cols, rows[k], rs[k])
  }

  lemma {:induction false} RowsByName(
      m: Migration, existing: set<Column>, cols: seq<Column>, items: seq<Expr>, rows: seq<Row>)
    requires Pairs(m, existing, cols, items)
    requires forall row :: row in rows ==> Movable(m, existing, cols, row)
    ensures var r := BuiltRows(cols, items, NotNullOf(m), rows); r.Some? && AllMoved(m, existing, cols, rows, r.value)
  {
    if rows != [] {
      var init, last := rows[..|rows| - 1], rows[|rows| - 1];
      assert rows == init + [last];
      RowsByName(m, existing, cols, items, init);
      RowByName(m, existing, cols, items, last);
    }
  }

  // ---------- One migration at a time ----------

  /** The columns that may not be NULL in any version of the table. */
  predicate IsRequired(c: Column) {
    c.Id? || c.ProjectId? || c.InPoint? || c.OutPoint? || c.TimelinePosition? || c.CreatedAt? || c.UpdatedAt?
  }

  /** The clip type matters only to the asset migrations: the generator migrations set it or drop it. */
  predicate NeedsType(m: Migration, c: Column) {
    c.ClipType? && (m.AssetUp? || m.AssetDown?)
  }

  ghost predicate RowsFit(t: Table) {
    forall k :: 0 <= k < |t.rows| ==> t.rows[k].Keys == t.columns
  }

  /**
   What a migration needs of the clips table: the columns it reads unconditionally, and values in those that
   may not be NULL. The table may lack any optional column, and may have any other.
   */
  ghost predicate Ready(m: Migration, t: Table) {
    && RowsFit(t)
    && (forall c :: IsBase(c) || NeedsType(m, c) ==> c in t.columns)
    && (forall k :: 0 <= k < |t.rows| ==> HasValues(m, t.rows[k]))
  }

  ghost predicate HasValues(m: Migration, row: Row) {
    forall c :: c in row && (IsRequired(c) || NeedsType(m, c)) ==> row[c] != Null
  }

  lemma RequiredByName(c: Column)
    ensures c in REQUIRED <==> IsRequired(c)
    ensures IsRequired(c) ==> IsBase(c)
  {
  }

  /** In a ready table each target column can be read, and is not NULL where the target forbids it. */
  lemma ReadyCell(m: Migration, t: Table, k: nat, c: Column)
    requires Ready(m, t) && k < |t.rows| && InTarget(m, c)
    ensures Evaluates(SourceOf(m, t.columns, c), t.rows[k]) && Resolves(SourceOf(m, t.columns, c), t.columns)
    ensures c in NotNullOf(m) ==> Eval(SourceOf(m, t.columns, c), t.rows[k]) != Null
  {
    assert t.rows[k].Keys == t.columns && HasValues(m, t.rows[k]);
    RequiredByName(c);
  }

  lemma ReadyColumn(m: Migration, t: Table, c: Column)
    requires Ready(m, t) && InTarget(m, c)
    ensures Resolves(SourceOf(m, t.columns, c), t.columns)
  {
  }

  lemma ReadyRowsMove(m: Migration, t: Table, cols: seq<Column>, k: nat)
    requires Ready(m, t) && k < |t.rows| && forall c :: c in cols <==> InTarget(m, c)
    ensures Movable(m, t.columns, cols, t.rows[k])
  {
    forall c | InTarget(m, c)
      ensures Evaluates(SourceOf(m, t.columns, c), t.rows[k])
      ensures c in NotNullOf(m) ==> Eval(SourceOf(m, t.columns, c), t.rows[k]) != Null
    {
      ReadyCell(m, t, k, c);
    }
    NotNullInTarget(m);
  }

  lemma NotNullInTarget(m: Migration)
    ensures forall c :: c in NotNullOf(m) ==> InTarget(m, c)
  {
  }

  /** The migrated table: same rows in order, each column filled by name. */
  ghost predicate Carried(m: Migration, t: Table, r: Option<Table>) {
    && r.Some? && WellFormed(r.value) && |r.value.rows| == |t.rows| && r.value.notNull == NotNullOf(m)
    && (forall c :: c in r.value.columns <==> InTarget(m, c))
    && forall k :: 0 <= k < |t.rows| ==> forall c :: InTarget(m, c) ==>
         && c in r.value.rows[k]
         && Evaluates(SourceOf(m, t.columns, c), t.rows[k])
         && r.value.rows[k][c] == Eval(SourceOf(m, t.columns, c), t.rows[k])
  }

  lemma MovedRowsCarry(m: Migration, t: Table, cols: seq<Column>, rows: seq<Row>)
    requires AllMoved(m, t.columns, cols, t.rows, rows) && forall c :: c in cols <==> InTarget(m, c)
    ensures Carried(m, t, Some(Table((set c | c in cols), NotNullOf(m), rows)))
  {
    var columns := set c | c in cols;
    forall k | 0 <= k < |rows|
      ensures rows[k].Keys == columns && RespectsNotNull(rows[k], NotNullOf(m))
    {
      assert Moved(m, t.columns, cols, t.rows[k], rows[k]);
    }
  }

  lemma ListCarries(m: Migration, t: Table, cols: seq<Column>, items: seq<Expr>)
    requires Ready(m, t) && Pairs(m, t.columns, cols, items) && forall c :: c in cols <==> InTarget(m, c)
    ensures Carried(m, t, Rebuilt(cols, items, NotNullOf(m), t))
  {
    forall row | row in t.rows
      ensures Movable(m, t.columns, cols, row)
    {
      var k :| 0 <= k < |t.rows| && t.rows[k] == row;
      ReadyRowsMove(m, t, cols, k);
    }
    forall i | 0 <= i < |items|
      ensures Resolves(items[i], t.columns)
    {
      assert cols[i] in cols;
      ReadyColumn(m, t, cols[i]);
    }
    RowsByName(m, t.columns, cols, items, t.rows);
    MovedRowsCarry(m, t, cols, BuiltRows(cols, items, NotNullOf(m), t.rows).value);
  }

  /** Each migration succeeds on its schema, keeps every row, and fills each column from the one of its name. */
  lemma MigrationCarries(m: Migration, t: Table)
    requires Ready(m, t)
    ensures Carried(m, t, Migrated(m, t))
  {
    ListsPairByName(m, t.columns);
    forall c: Column
      ensures c in ColumnsOf(m) <==> InTarget(m, c)
    {
      ListsAreSchemas(m, c);
    }
    MigratedIsRebuilt(m, t);
    ListCarries(m, t, ColumnsOf(m), ItemsOf(m, t.columns));
  }

  lemma MigratedIsRebuilt(m: Migration, t: Table)
    ensures |ColumnsOf(m)| == |ItemsOf(m, t.columns)|
    ensures Migrated(m, t) == Rebuilt(ColumnsOf(m), ItemsOf(m, t.columns), NotNullOf(m), t)
  {
    ListsPairByName(m, t.columns);
  }

  lemma ListResolves(m: Migration, columns: set<Column>, cols: seq<Column>, items: seq<Expr>, c: Column)
    requires Pairs(m, columns, cols, items) && c in cols
    requires forall i :: 0 <= i < |items| ==> Resolves(items[i], columns)
    ensures Resolves(SourceOf(m, columns, c), columns)
  {
    var i :| 0 <= i < |cols| && cols[i] == c;
    assert items[i] == SourceOf(m, columns, c);
  }

  lemma SourceNames(m: Migration, columns: set<Column>, c: Column)
    requires IsBase(c) || NeedsType(m, c)
    ensures InTarget(m, c) && SourceOf(m, columns, c) in {Col(c), CoalesceEmpty(c)}
    ensures IsRequired(c) || NeedsType(m, c) ==> SourceOf(m, columns, c) == Col(c) && c in NotNullOf(m)
  {
    RequiredByName(c);
  }

  /** What a copy that succeeds tells of its list and of each row. */
  lemma CopyTells(m: Migration, t: Table, cols: seq<Column>, items: seq<Expr>, k: nat, c: Column)
    requires RowsFit(t) && Pairs(m, t.columns, cols, items) && c in cols && k < |t.rows|
    requires Rebuilt(cols, items, NotNullOf(m), t).Some?
    ensures Evaluates(SourceOf(m, t.columns, c), t.rows[k])
    ensures c in NotNullOf(m) ==> Eval(SourceOf(m, t.columns, c), t.rows[k]) != Null
  {
    var row := t.rows[k];
    assert row.Keys == t.columns;
    forall x | x in cols
      ensures Evaluates(SourceOf(m, t.columns, x), row)
    {
      ListResolves(m, t.columns, cols, items, x);
    }
    BuiltByName(m, t.columns, cols, items, row);
    if !RespectsNotNull(BuiltRow(cols, items, row).value, NotNullOf(m)) {
      FailureSticks(cols, items, NotNullOf(m), t.rows, k);
    }
  }

  /** A migration that succeeds found every column it reads. */
  lemma ReadColumnIsThere(m: Migration, t: Table, c: Column)
    requires Migrated(m, t).Some? && (IsBase(c) || NeedsType(m, c))
    ensures c in t.columns
  {
    SourceNames(m, t.columns, c);
    ListsPairByName(m, t.columns);
    ListsAreSchemas(m, c);
    MigratedIsRebuilt(m, t);
    ListResolves(m, t.columns, ColumnsOf(m), ItemsOf(m, t.columns), c);
  }

  /** And a value wherever the target needs one. */
  lemma RequiredValueIsThere(m: Migration, t: Table, k: nat, c: Column)
    requires Migrated(m, t).Some? && RowsFit(t) && k < |t.rows| && c in t.rows[k]
    requires IsRequired(c) || NeedsType(m, c)
    ensures t.rows[k][c] != Null
  {
    RequiredByName(c);
    SourceNames(m, t.columns, c);
    ListsPairByName(m, t.columns);
    ListsAreSchemas(m, c);
    MigratedIsRebuilt(m, t);
    CopyTells(m, t, ColumnsOf(m), ItemsOf(m, t.columns), k, c);
  }

  /** Each migration succeeds exactly on the tables that have what it needs; otherwise it changes nothing. */
  lemma SucceedsExactlyWhen(m: Migration, t: Table)
    requires RowsFit(t)
    ensures Migrated(m, t).Some? <==> Ready(m, t)
  {
    if Migrated(m, t).Some? {
      forall c | IsBase(c) || NeedsType(m, c)
        ensures c in t.columns
      {
        ReadColumnIsThere(m, t, c);
      }
      forall k | 0 <= k < |t.rows|
        ensures HasValues(m, t.rows[k])
      {
        forall c | c in t.rows[k] && (IsRequired(c) || NeedsType(m, c))
          ensures t.rows[k][c] != Null
        {
          RequiredValueIsThere(m, t, k, c);
        }
      }
    } else if Ready(m, t) {
      MigrationCarries(m, t);
    }
  }

  // ---------- There and back ----------

  function RunAll(ms: seq<Migration>, t: Table): Option<Table> {
    if ms == [] then Some(t)
    else
      match RunAll(ms[..|ms| - 1], t)
      case None => None
      case Some(before) => Migrated(ms[|ms| - 1], before)
  }

  lemma FourSteps(a: Migration, b: Migration, c: Migration, d: Migration, t: Table, t1: Table, t2: Table, t3: Table)
    requires Migrated(a, t) == Some(t1) && Migrated(b, t1) == Some(t2) && Migrated(c, t2) == Some(t3)
    ensures RunAll([a, b, c, d], t) == Migrated(d, t3)
  {
    assert [a, b, c, d][..3] == [a, b, c] && [a, b, c][..2] == [a, b] && [a, b][..1] == [a] && [a][..0] == [];
    assert RunAll([], t) == Some(t);
    assert RunAll([a], t) == Some(t1);
    assert RunAll([a, b], t) == Some(t2);
    assert RunAll([a, b, c], t) == Some(t3);
  }

  lemma ValueAfterGeneratorUp(t: Table, r: Table, k: nat, c: Column)
    requires Ready(GeneratorUp, t) && Carried(GeneratorUp, t, Some(r)) && k < |t.rows| && InTarget(GeneratorUp, c)
    ensures c in r.rows[k]
    ensures IsOld(c) ==> r.rows[k][c] == if c in t.rows[k] then t.rows[k][c] else Null
    ensures c == ClipType ==> r.rows[k][c] == Text("file")
    ensures c == GeneratorParams ==> r.rows[k][c] == Null
  {
    CellMoved(GeneratorUp, t, r, k, c);
    UpgradedValue(t.columns, t.rows[k], c);
  }

  /** A cell of the result is the value of its column's source in the same row. */
  lemma CellMoved(m: Migration, t: Table, r: Table, k: nat, c: Column)
    requires Ready(m, t) && Carried(m, t, Some(r)) && k < |t.rows| && InTarget(m, c)
    ensures t.rows[k].Keys == t.columns && c in r.rows[k]
    ensures Evaluates(SourceOf(m, t.columns, c), t.rows[k])
    ensures r.rows[k][c] == Eval(SourceOf(m, t.columns, c), t.rows[k])
  {
  }

  lemma UpgradedValue(existing: set<Column>, row: Row, c: Column)
    requires row.Keys == existing && Evaluates(SourceOf(GeneratorUp, existing, c), row)
    ensures var v := Eval(SourceOf(GeneratorUp, existing, c), row);
            && (IsOld(c) ==> v == if c in row then row[c] else Null)
            && (c == ClipType ==> v == Text("file")) && (c == GeneratorParams ==> v == Null)
  {
  }

  lemma DowngradedValue(existing: set<Column>, row: Row, c: Column)
    requires row.Keys == existing && IsOld(c) && IsGenerator(c) && c in existing
    ensures Evaluates(SourceOf(GeneratorDown, existing, c), row)
    ensures Eval(SourceOf(GeneratorDown, existing, c), row)
         == if c == SourceVideoId && row[c] == Null then Text("") else row[c]
  {
  }

  lemma ValueAfterAsset(m: Migration, t: Table, r: Table, k: nat, c: Column)
    requires m.AssetUp? || m.AssetDown?
    requires Ready(m, t) && Carried(m, t, Some(r)) && k < |t.rows| && IsGenerator(c) && c in t.columns
    ensures c in t.rows[k] && c in r.rows[k] && r.rows[k][c] == t.rows[k][c]
  {
    assert InTarget(m, c);
    CellMoved(m, t, r, k, c);
    assert SourceOf(m, t.columns, c) == Col(c);
  }

  lemma ValueAfterGeneratorDown(t: Table, r: Table, k: nat, c: Column)
    requires Ready(GeneratorDown, t) && Carried(GeneratorDown, t, Some(r)) && k < |t.rows| && IsOld(c) && c in t.columns
    ensures c in t.rows[k] && c in r.rows[k]
    ensures r.rows[k][c] == if c == SourceVideoId && t.rows[k][c] == Null then Text("") else t.rows[k][c]
  {
    assert IsGenerator(c) && InTarget(GeneratorDown, c);
    CellMoved(GeneratorDown, t, r, k, c);
    DowngradedValue(t.columns, t.rows[k], c);
  }

  /** Which values survive a migration, column by column. */
  predicate Survives(m: Migration, c: Column, v: Value) {
    match c
    case SourceVideoId => !(m.GeneratorDown? && v == Null)
    case ClipType => if m.GeneratorUp? then v == Text("file") else !m.GeneratorDown?
    case GeneratorParams => if m.GeneratorUp? then v == Null else !m.GeneratorDown?
    case SourceAssetId => m.AssetUp? && v == Null
    case Other(_) => false
    case _ => true
  }

  /** The cell comes out as it went in. */
  predicate Kept(before: Row, after: Row, c: Column)
    requires c in before
  {
    c in after && after[c] == before[c]
  }

  lemma EvalKeeps(m: Migration, existing: set<Column>, row: Row, c: Column)
    requires row.Keys == existing && c in existing && InTarget(m, c) && Evaluates(SourceOf(m, existing, c), row)
    ensures Eval(SourceOf(m, existing, c), row) == row[c] <==> Survives(m, c, row[c])
  {
  }

  /**
   What each migration loses of any table it accepts: a column the target lacks, a `source_asset_id`
   already there and not NULL on the way up, a type other than `file` or parameters already there before
   the generator migration, and a missing source video on its way down; nothing else.
   */
  lemma CellKeptExactlyWhen(m: Migration, t: Table, k: nat, c: Column)
    requires Ready(m, t) && k < |t.rows| && c in t.columns
    ensures Carried(m, t, Migrated(m, t)) && c in t.rows[k]
    ensures Kept(t.rows[k], Migrated(m, t).value.rows[k], c) <==> Survives(m, c, t.rows[k][c])
  {
    MigrationCarries(m, t);
    var r := Migrated(m, t).value;
    assert t.rows[k].Keys == t.columns && r.rows[k].Keys == r.columns;
    if InTarget(m, c) {
      CellMoved(m, t, r, k, c);
      EvalKeeps(m, t.columns, t.rows[k], c);
    }
  }

  lemma TargetColumns(m: Migration, next: Migration, c: Column)
    requires m.GeneratorDown? ==> !next.AssetUp? && !next.AssetDown?
    ensures IsBase(c) || NeedsType(next, c) ==> InTarget(m, c)
    ensures IsRequired(c) || NeedsType(next, c) ==> c in NotNullOf(m)
  {
    RequiredByName(c);
  }

  lemma TargetHasValues(m: Migration, next: Migration, row: Row)
    requires RespectsNotNull(row, NotNullOf(m)) && (m.GeneratorDown? ==> !next.AssetUp? && !next.AssetDown?)
    ensures HasValues(next, row)
  {
    forall c | c in row && (IsRequired(c) || NeedsType(next, c))
      ensures row[c] != Null
    {
      TargetColumns(m, next, c);
    }
  }

  lemma TargetIsReady(m: Migration, next: Migration, r: Table)
    requires m.GeneratorDown? ==> !next.AssetUp? && !next.AssetDown?
    requires WellFormed(r) && r.notNull == NotNullOf(m) && forall c :: c in r.columns <==> InTarget(m, c)
    ensures Ready(next, r)
  {
    forall c | IsBase(c) || NeedsType(next, c)
      ensures c in r.columns
    {
      TargetColumns(m, next, c);
    }
    forall k | 0 <= k < |r.rows|
      ensures HasValues(next, r.rows[k])
    {
      TargetHasValues(m, next, r.rows[k]);
    }
  }

  /** A migrated table is ready for whatever may follow it. */
  lemma CarriedIsReady(m: Migration, next: Migration, t: Table, r: Table)
    requires Carried(m, t, Some(r)) && (m.GeneratorDown? ==> !next.AssetUp? && !next.AssetDown?)
    ensures Ready(next, r)
  {
    TargetIsReady(m, next, r);
  }

  /** A migration succeeds and leaves exactly its own columns, on which any migration that may follow is ready. */
  lemma NextStep(m: Migration, next: Migration, t: Table) returns (r: Table)
    requires Ready(m, t) && (m.GeneratorDown? ==> !next.AssetUp? && !next.AssetDown?)
    ensures Migrated(m, t) == Some(r) && Carried(m, t, Some(r)) && Ready(next, r)
  {
    MigrationCarries(m, t);
    r := Migrated(m, t).value;
    CarriedIsReady(m, next, t, r);
  }

  /**
   Up through both and down through both: every row is back in its place with every old column's
   original value, absent ones as NULL and a missing source video as the empty text. It is whole
   exactly when the table had no newer column and the row its source video.
   */
  lemma UpAndDownRestores(t: Table)
    requires Ready(GeneratorUp, t)
    ensures var r := RunAll([GeneratorUp, AssetUp, AssetDown, GeneratorDown], t);
            && r.Some? && (forall c :: c in r.value.columns <==> IsOld(c)) && |r.value.rows| == |t.rows|
            && forall k :: 0 <= k < |t.rows| ==>
                 && RowBack(t.rows[k], r.value.rows[k])
                 && (Whole(t.rows[k], r.value.rows[k]) <==> FitsOldSchema(t.rows[k]))
  {
    var t1, t2, t3, t4 := UpAndDownTables(t);
    forall k | 0 <= k < |t.rows|
      ensures RowBack(t.rows[k], t4.rows[k])
      ensures Whole(t.rows[k], t4.rows[k]) <==> FitsOldSchema(t.rows[k])
    {
      RowUpAndDown(t, t1, t2, t3, t4, k);
      assert SourceVideoId in t.rows[k] && t4.rows[k].Keys == t4.columns;
      BackIsWhole(t.rows[k], t4.rows[k]);
    }
  }

  /** Every column the row had is there with its value. */
  ghost predicate Whole(before: Row, after: Row) {
    forall c :: c in before ==> Kept(before, after, c)
  }

  lemma BackIsWhole(before: Row, after: Row)
    requires RowBack(before, after) && SourceVideoId in before && forall c :: c in after <==> IsOld(c)
    ensures Whole(before, after) <==> FitsOldSchema(before)
  {
    if Whole(before, after) {
      forall c | c in before
        ensures IsOld(c)
      {
        assert Kept(before, after, c);
      }
      assert Kept(before, after, SourceVideoId);
    }
  }

  /** The row has no column but the older schema's, and has a source video. */
  ghost predicate FitsOldSchema(row: Row) {
    (forall c :: c in row ==> IsOld(c)) && SourceVideoId in row && row[SourceVideoId] != Null
  }

  /** What an old column holds after the round trip. */
  function ValueBack(before: Row, c: Column): Value {
    if c !in before then Null
    else if c == SourceVideoId && before[c] == Null then Text("")
    else before[c]
  }

  ghost predicate RowBack(before: Row, after: Row) {
    forall c :: IsOld(c) ==> c in after && after[c] == ValueBack(before, c)
  }

  lemma UpAndDownTables(t: Table) returns (t1: Table, t2: Table, t3: Table, t4: Table)
    requires Ready(GeneratorUp, t)
    ensures RunAll([GeneratorUp, AssetUp, AssetDown, GeneratorDown], t) == Some(t4)
    ensures Carried(GeneratorUp, t, Some(t1))
    ensures Ready(AssetUp, t1) && Carried(AssetUp, t1, Some(t2))
    ensures Ready(AssetDown, t2) && Carried(AssetDown, t2, Some(t3))
    ensures Ready(GeneratorDown, t3) && Carried(GeneratorDown, t3, Some(t4))
  {
    t1 := NextStep(GeneratorUp, AssetUp, t);
    t2 := NextStep(AssetUp, AssetDown, t1);
    t3 := NextStep(AssetDown, GeneratorDown, t2);
    t4 := NextStep(GeneratorDown, GeneratorUp, t3);
    FourSteps(GeneratorUp, AssetUp, AssetDown, GeneratorDown, t, t1, t2, t3);
  }

  lemma RowUpAndDown(t: Table, t1: Table, t2: Table, t3: Table, t4: Table, k: nat)
    requires Ready(GeneratorUp, t) && Carried(GeneratorUp, t, Some(t1))
    requires Ready(AssetUp, t1) && Carried(AssetUp, t1, Some(t2))
    requires Ready(AssetDown, t2) && Carried(AssetDown, t2, Some(t3))
    requires Ready(GeneratorDown, t3) && Carried(GeneratorDown, t3, Some(t4))
    requires k < |t.rows|
    ensures RowBack(t.rows[k], t4.rows[k])
  {
    forall c | IsOld(c)
      ensures c in t4.rows[k] && t4.rows[k][c] == ValueBack(t.rows[k], c)
    {
      ValueUpAndDown(t, t1, t2, t3, t4, k, c);
    }
  }

  lemma ValueUpAndDown(t: Table, t1: Table, t2: Table, t3: Table, t4: Table, k: nat, c: Column)
    requires Ready(GeneratorUp, t) && Carried(GeneratorUp, t, Some(t1))
    requires Ready(AssetUp, t1) && Carried(AssetUp, t1, Some(t2))
    requires Ready(AssetDown, t2) && Carried(AssetDown, t2, Some(t3))
    requires Ready(GeneratorDown, t3) && Carried(GeneratorDown, t3, Some(t4))
    requires k < |t.rows| && IsOld(c)
    ensures c in t4.rows[k] && t4.rows[k][c] == ValueBack(t.rows[k], c)
  {
    ValueAfterGeneratorUp(t, t1, k, c);
    ValueAfterAsset(AssetUp, t1, t2, k, c);
    ValueAfterAsset(AssetDown, t2, t3, k, c);
    ValueAfterGeneratorDown(t3, t4, k, c);
  }

  /** A clip that the older schema can hold: a file clip with a source video and nothing newer. */
  predicate Plain(row: Row) {
    && ClipType in row && row[ClipType] == Text("file")
    && GeneratorParams in row && row[GeneratorParams] == Null
    && SourceAssetId in row && row[SourceAssetId] == Null
    && SourceVideoId in row && row[SourceVideoId] != Null
  }

  /** Down through both and up again: every row keeps its place, and exactly the plain ones are restored. */
  lemma DownAndUpRestoresExactlyPlain(t: Table)
    requires Ready(AssetDown, t) && forall c :: c in t.columns <==> IsAsset(c)
    ensures var r := RunAll([AssetDown, GeneratorDown, GeneratorUp, AssetUp], t);
            && r.Some? && (forall c :: c in r.value.columns <==> c in t.columns) && |r.value.rows| == |t.rows|
            && forall k :: 0 <= k < |t.rows| ==> (r.value.rows[k] == t.rows[k] <==> Plain(t.rows[k]))
  {
    var t1 := NextStep(AssetDown, GeneratorDown, t);
    var t2 := NextStep(GeneratorDown, GeneratorUp, t1);
    var t3 := NextStep(GeneratorUp, AssetUp, t2);
    var t4 := NextStep(AssetUp, AssetDown, t3);
    FourSteps(AssetDown, GeneratorDown, GeneratorUp, AssetUp, t, t1, t2, t3);
    forall k | 0 <= k < |t.rows|
      ensures t4.rows[k] == t.rows[k] <==> Plain(t.rows[k])
    {
      forall c | IsOld(c)
        ensures c in t.rows[k] && c in t4.rows[k]
        ensures t4.rows[k][c] == if c == SourceVideoId && t.rows[k][c] == Null then Text("") else t.rows[k][c]
      {
        ValueAfterAsset(AssetDown, t, t1, k, c);
        ValueAfterGeneratorDown(t1, t2, k, c);
        ValueAfterGeneratorUp(t2, t3, k, c);
        ValueAfterAsset(AssetUp, t3, t4, k, c);
      }
      ValueAfterGeneratorUp(t2, t3, k, ClipType);
      ValueAfterAsset(AssetUp, t3, t4, k, ClipType);
      ValueAfterGeneratorUp(t2, t3, k, GeneratorParams);
      ValueAfterAsset(AssetUp, t3, t4, k, GeneratorParams);
      NewAssetIsNull(t3, t4, k);
      RowRestored(t.rows[k], t4.rows[k]);
    }
  }

  lemma NewAssetIsNull(t: Table, r: Table, k: nat)
    requires Carried(AssetUp, t, Some(r)) && k < |t.rows|
    ensures SourceAssetId in r.rows[k] && r.rows[k][SourceAssetId] == Null
    ensures forall c :: c in r.rows[k] <==> IsAsset(c)
  {
    assert r.rows[k].Keys == r.columns;
  }

  lemma RowRestored(before: Row, after: Row)
    requires forall c :: (c in before <==> IsAsset(c)) && (c in after <==> IsAsset(c))
    requires forall c :: IsOld(c) ==>
      c in after && c in before && after[c] == if c == SourceVideoId && before[c] == Null then Text("") else before[c]
    requires ClipType in after && after[ClipType] == Text("file")
    requires GeneratorParams in after && after[GeneratorParams] == Null
    requires SourceAssetId in after && after[SourceAssetId] == Null
    ensures after == before <==> Plain(before)
  {
    if Plain(before) {
      forall c | c in before
        ensures after[c] == before[c]
      {
        assert IsOld(c) || c == ClipType || c == GeneratorParams || c == SourceAssetId;
      }
    }
  }
}
