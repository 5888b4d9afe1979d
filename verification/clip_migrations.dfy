/**
 The two table-rebuild migrations of `clips`: generator clips
 (alembic/versions/a8516edf859e_generator_clips.py) and source assets
 (alembic/versions/i1b2c3d4e5f6_add_source_asset_id_to_clips.py).
 */
module ClipMigrations {
  import opened Wrappers

  datatype Column =
    | Id | ProjectId | SourceVideoId | InPoint | OutPoint | TimelinePosition | CreatedAt | UpdatedAt
    | EffectsJson | TrackId | TimelineStart | TimelineEnd
    | ClipType | GeneratorParams | SourceAssetId
    | Other(name: string)

  datatype Value = Null | Text(s: string) | Integer(i: int) | Real(r: real)

  /** An item of a SELECT list. */
  datatype Expr = Col(c: Column) | NullAs(alias: Column) | Lit(v: Value) | CoalesceEmpty(c: Column)

  type Row = map<Column, Value>

  datatype Table = Table(columns: set<Column>, notNull: set<Column>, rows: seq<Row>)

  const BASE: seq<Column> :=
    [Id, ProjectId, SourceVideoId, InPoint, OutPoint, TimelinePosition, CreatedAt, UpdatedAt]
  const OPTIONAL: seq<Column> := [EffectsJson, TrackId, TimelineStart, TimelineEnd]
  const BASE_WITH_TYPE: seq<Column> := BASE + [ClipType]
  const OPTIONAL_WITH_PARAMS: seq<Column> := OPTIONAL + [GeneratorParams]

  const REQUIRED: set<Column> :=
    {Id, ProjectId, InPoint, OutPoint, TimelinePosition, CreatedAt, UpdatedAt}

  // ---------- INSERT INTO ... SELECT ----------

  predicate Evaluates(e: Expr, row: Row) {
    match e
    case Col(c) => c in row
    case CoalesceEmpty(c) => c in row
    case NullAs(_) => true
    case Lit(_) => true
  }

  function Eval(e: Expr, row: Row): Value
    requires Evaluates(e, row)
  {
    match e
    case Col(c) => row[c]
    case CoalesceEmpty(c) => if row[c] == Null then Text("") else row[c]
    case NullAs(_) => Null
    case Lit(v) => v
  }

  /** The row built by pairing insert columns with select items by position; `None` on a missing column. */
  function BuiltRow(cols: seq<Column>, items: seq<Expr>, row: Row): Option<Row>
    requires |cols| == |items|
  {
    if cols == [] then Some(map[])
    else
      var n := |cols| - 1;
      match BuiltRow(cols[..n], items[..n], row)
      case None => None
      case Some(before) =>
        if Evaluates(items[n], row) then Some(before[cols[n] := Eval(items[n], row)]) else None
  }

  predicate RespectsNotNull(row: Row, notNull: set<Column>) {
    forall c :: c in notNull ==> c in row && row[c] != Null
  }

  function BuiltRows(cols: seq<Column>, items: seq<Expr>, notNull: set<Column>, rows: seq<Row>): Option<seq<Row>>
    requires |cols| == |items|
  {
    if rows == [] then Some([])
    else
      var n := |rows| - 1;
      match BuiltRows(cols, items, notNull, rows[..n])
      case None => None
      case Some(before) =>
        var built := BuiltRow(cols, items, rows[n]);
        if built.Some? && RespectsNotNull(built.value, notNull) then Some(before + [built.value]) else None
  }

  /** The table has the column the item names. */
  predicate Resolves(e: Expr, columns: set<Column>) {
    match e
    case Col(c) => c in columns
    case CoalesceEmpty(c) => c in columns
    case NullAs(_) => true
    case Lit(_) => true
  }

  /**
   The rows copied; `None` on a column the table does not have, even if it has no rows, and on a row that
   cannot be inserted.
   */
  function Copied(cols: seq<Column>, items: seq<Expr>, notNull: set<Column>, t: Table): Option<seq<Row>>
    requires |cols| == |items|
  {
    if forall i :: 0 <= i < |items| ==> Resolves(items[i], t.columns) then BuiltRows(cols, items, notNull, t.rows)
    else None
  }

  /** The rebuilt table; a copy that fails aborts the migration. */
  function Rebuilt(cols: seq<Column>, items: seq<Expr>, notNull: set<Column>, t: Table): Option<Table>
    requires |cols| == |items|
  {
    match Copied(cols, items, notNull, t)
    case None => None
    case Some(rows) => Some(Table((set c | c in cols), notNull, rows))
  }

  // ---------- Column lists ----------

  function Columns(cols: seq<Column>): (items: seq<Expr>)
    ensures |items| == |cols|
    ensures forall i :: 0 <= i < |cols| ==> items[i] == Col(cols[i])
  {
    if cols == [] then [] else Columns(cols[..|cols| - 1]) + [Col(cols[|cols| - 1])]
  }

  function OptionalItem(existing: set<Column>, c: Column): Expr {
    if c in existing then Col(c) else NullAs(c)
  }

  function OptionalItems(existing: set<Column>, cols: seq<Column>): (items: seq<Expr>)
    ensures |items| == |cols|
    ensures forall i :: 0 <= i < |cols| ==> items[i] == OptionalItem(existing, cols[i])
  {
    if cols == [] then []
    else OptionalItems(existing, cols[..|cols| - 1]) + [OptionalItem(existing, cols[|cols| - 1])]
  }

  const GENERATOR_COLUMNS: seq<Column> := BASE + OPTIONAL + [ClipType, GeneratorParams]
  const OLD_COLUMNS: seq<Column> := BASE + OPTIONAL
  const ASSET_COLUMNS: seq<Column> := BASE_WITH_TYPE + OPTIONAL_WITH_PARAMS + [SourceAssetId]
  const NO_ASSET_COLUMNS: seq<Column> := BASE_WITH_TYPE + OPTIONAL_WITH_PARAMS

  function GeneratorItems(existing: set<Column>): (items: seq<Expr>)
    ensures |items| == |GENERATOR_COLUMNS|
  {
    Columns(BASE) + OptionalItems(existing, OPTIONAL) + [Lit(Text("file")), Lit(Null)]
  }

  function OldItems(existing: set<Column>): (items: seq<Expr>)
    ensures |items| == |OLD_COLUMNS|
  {
    (Columns(BASE) + OptionalItems(existing, OPTIONAL))[2 := CoalesceEmpty(SourceVideoId)]
  }

  function AssetItems(existing: set<Column>): (items: seq<Expr>)
    ensures |items| == |ASSET_COLUMNS|
  {
    Columns(BASE_WITH_TYPE) + OptionalItems(existing, OPTIONAL_WITH_PARAMS) + [NullAs(SourceAssetId)]
  }

  function NoAssetItems(existing: set<Column>): (items: seq<Expr>)
    ensures |items| == |NO_ASSET_COLUMNS|
  {
    Columns(BASE_WITH_TYPE) + OptionalItems(existing, OPTIONAL_WITH_PARAMS)
  }

  // ---------- Migrations ----------

  function UpgradeGenerator(t: Table): Option<Table> {
    Rebuilt(GENERATOR_COLUMNS, GeneratorItems(t.columns), REQUIRED + {ClipType}, t)
  }

  function DowngradeGenerator(t: Table): Option<Table> {
    Rebuilt(OLD_COLUMNS, OldItems(t.columns), REQUIRED + {SourceVideoId}, t)
  }

  function UpgradeAsset(t: Table): Option<Table> {
    Rebuilt(ASSET_COLUMNS, AssetItems(t.columns), REQUIRED + {ClipType}, t)
  }

  function DowngradeAsset(t: Table): Option<Table> {
    Rebuilt(NO_ASSET_COLUMNS, NoAssetItems(t.columns), REQUIRED + {ClipType}, t)
  }

  /** The database, rebuilt statement by statement. */
  class Database {
    var clips: Table

    constructor (t: Table)
      ensures clips == t
    {
      clips := t;
    }

    static method SelectParts(base: seq<Column>, optional: seq<Column>, existing: set<Column>)
      returns (parts: seq<Expr>)
      ensures parts == Columns(base) + OptionalItems(existing, optional)
    {
      parts := Columns(base);
      for i := 0 to |optional|
        invariant parts == Columns(base) + OptionalItems(existing, optional[..i])
      {
        assert optional[..i + 1][..i] == optional[..i];
        parts := parts + [if optional[i] in existing then Col(optional[i]) else NullAs(optional[i])];
      }
      assert optional[..|optional|] == optional;
    }

    method InsertSelect(cols: seq<Column>, items: seq<Expr>, notNull: set<Column>) returns (r: Option<seq<Row>>)
      requires |cols| == |items|
      ensures r == Copied(cols, items, notNull, clips)
    {
      for i := 0 to |items|
        invariant forall j :: 0 <= j < i ==> Resolves(items[j], clips.columns)
      {
        if !Resolves(items[i], clips.columns) {
          return None;
        }
      }
      var rows: seq<Row> := [];
      for i := 0 to |clips.rows|
        invariant BuiltRows(cols, items, notNull, clips.rows[..i]) == Some(rows)
      {
        assert clips.rows[..i + 1][..i] == clips.rows[..i];
        var built := BuiltRow(cols, items, clips.rows[i]);
        if built.None? || !RespectsNotNull(built.value, notNull) {
          FailureSticks(cols, items, notNull, clips.rows, i);
          return None;
        }
        rows := rows + [built.value];
      }
      assert clips.rows[..|clips.rows|] == clips.rows;
      return Some(rows);
    }

    /** Create, copy, drop and rename; a failed copy leaves `clips` alone. */
    method Rebuild(cols: seq<Column>, items: seq<Expr>, notNull: set<Column>) returns (ok: bool)
      requires |cols| == |items|
      modifies this
      ensures ok <==> Rebuilt(cols, items, notNull, old(clips)).Some?
      ensures clips == if ok then Rebuilt(cols, items, notNull, old(clips)).value else old(clips)
    {
      var rows := InsertSelect(cols, items, notNull);
      ok := rows.Some?;
      if ok {
        clips := Table((set c | c in cols), notNull, rows.value);
      }
    }

    method UpgradeGeneratorClips() returns (ok: bool)
      modifies this
      ensures ok <==> UpgradeGenerator(old(clips)).Some?
      ensures clips == if ok then UpgradeGenerator(old(clips)).value else old(clips)
    {
      var parts := SelectParts(BASE, OPTIONAL, clips.columns);
      parts := parts + [Lit(Text("file")), Lit(Null)];
      ok := Rebuild(BASE + OPTIONAL + [ClipType, GeneratorParams], parts, REQUIRED + {ClipType});
    }

    method DowngradeGeneratorClips() returns (ok: bool)
      modifies this
      ensures ok <==> DowngradeGenerator(old(clips)).Some?
      ensures clips == if ok then DowngradeGenerator(old(clips)).value else old(clips)
    {
      var parts := SelectParts(BASE, OPTIONAL, clips.columns);
      parts := parts[2 := CoalesceEmpty(SourceVideoId)];
      ok := Rebuild(BASE + OPTIONAL, parts, REQUIRED + {SourceVideoId});
    }

    method UpgradeSourceAsset() returns (ok: bool)
      modifies this
      ensures ok <==> UpgradeAsset(old(clips)).Some?
      ensures clips == if ok then UpgradeAsset(old(clips)).value else old(clips)
    {
      var parts := SelectParts(BASE_WITH_TYPE, OPTIONAL_WITH_PARAMS, clips.columns);
      parts := parts + [NullAs(SourceAssetId)];
      ok := Rebuild(BASE_WITH_TYPE + OPTIONAL_WITH_PARAMS + [SourceAssetId], parts, REQUIRED + {ClipType});
    }

    method DowngradeSourceAsset() returns (ok: bool)
      modifies this
      ensures ok <==> DowngradeAsset(old(clips)).Some?
      ensures clips == if ok then DowngradeAsset(old(clips)).value else old(clips)
    {
      var parts := SelectParts(BASE_WITH_TYPE, OPTIONAL_WITH_PARAMS, clips.columns);
      ok := Rebuild(BASE_WITH_TYPE + OPTIONAL_WITH_PARAMS, parts, REQUIRED + {ClipType});
    }
  }

  lemma {:induction false} FailureSticks(
      cols: seq<Column>, items: seq<Expr>, notNull: set<Column>, rows: seq<Row>, i: nat)
    requires |cols| == |items| && i < |rows|
    requires var built := BuiltRow(cols, items, rows[i]); built.None? || !RespectsNotNull(built.value, notNull)
    ensures BuiltRows(cols, items, notNull, rows) == None
    decreases |rows|
  {
    var n := |rows| - 1;
    if i < n {
      FailureSticks(cols, items, notNull, rows[..n], i);
    }
  }

  // ---------- Pairing ----------

  predicate IsBase(c: Column) {
    c.Id? || c.ProjectId? || c.SourceVideoId? || c.InPoint? || c.OutPoint? || c.TimelinePosition?
    || c.CreatedAt? || c.UpdatedAt?
  }

  predicate IsOld(c: Column) {
    IsBase(c) || c.EffectsJson? || c.TrackId? || c.TimelineStart? || c.TimelineEnd?
  }

  predicate IsGenerator(c: Column) {
    IsOld(c) || c.ClipType? || c.GeneratorParams?
  }

  predicate IsAsset(c: Column) {
    IsGenerator(c) || c.SourceAssetId?
  }

  datatype Migration = GeneratorUp | GeneratorDown | AssetUp | AssetDown

  /** The columns of the schema a migration leads to. */
  predicate InTarget(m: Migration, c: Column) {
    match m
    case GeneratorDown => IsOld(c)
    case AssetUp => IsAsset(c)
    case _ => IsGenerator(c)
  }

  /** What a migration is meant to put in target column `c`, by name. */
  function SourceOf(m: Migration, existing: set<Column>, c: Column): Expr {
    if m.GeneratorUp? && c.ClipType? then Lit(Text("file"))
    else if m.GeneratorUp? && c.GeneratorParams? then Lit(Null)
    else if m.GeneratorDown? && c.SourceVideoId? then CoalesceEmpty(c)
    else if m.AssetUp? && c.SourceAssetId? then NullAs(c)
    else if IsBase(c) || c.ClipType? then Col(c)
    else OptionalItem(existing, c)
  }

  function NotNullOf(m: Migration): set<Column> {
    REQUIRED + if m.GeneratorDown? then {SourceVideoId} else {ClipType}
  }

  function ColumnsOf(m: Migration): seq<Column> {
    match m
    case GeneratorUp => GENERATOR_COLUMNS
    case GeneratorDown => OLD_COLUMNS
    case AssetUp => ASSET_COLUMNS
    case AssetDown => NO_ASSET_COLUMNS
  }

  function ItemsOf(m: Migration, existing: set<Column>): seq<Expr> {
    match m
    case GeneratorUp => GeneratorItems(existing)
    case GeneratorDown => OldItems(existing)
    case AssetUp => AssetItems(existing)
    case AssetDown => NoAssetItems(existing)
  }

  function Migrated(m: Migration, t: Table): Option<Table> {
    match m
    case GeneratorUp => UpgradeGenerator(t)
    case GeneratorDown => DowngradeGenerator(t)
    case AssetUp => UpgradeAsset(t)
    case AssetDown => DowngradeAsset(t)
  }

  /** `items` supplies `cols` by name. */
  predicate Pairs(m: Migration, existing: set<Column>, cols: seq<Column>, items: seq<Expr>) {
    |items| == |cols| && forall i :: 0 <= i < |cols| ==> items[i] == SourceOf(m, existing, cols[i])
  }

  /** By position, every insert column meets the select item for the column of the same name. */
  lemma ListsPairByName(m: Migration, existing: set<Column>)
    ensures Pairs(m, existing, ColumnsOf(m), ItemsOf(m, existing))
  {
    match m {
      case GeneratorUp => GeneratorUpPairs(existing);
      case GeneratorDown => GeneratorDownPairs(existing);
      case AssetUp => AssetUpPairs(existing);
      case AssetDown => AssetDownPairs(existing);
    }
  }

  lemma GeneratorUpPairs(existing: set<Column>)
    ensures Pairs(GeneratorUp, existing, GENERATOR_COLUMNS, GeneratorItems(existing))
  {
  }

  lemma GeneratorDownPairs(existing: set<Column>)
    ensures Pairs(GeneratorDown, existing, OLD_COLUMNS, OldItems(existing))
  {
  }

  lemma AssetUpPairs(existing: set<Column>)
    ensures Pairs(AssetUp, existing, ASSET_COLUMNS, AssetItems(existing))
  {
  }

  lemma AssetDownPairs(existing: set<Column>)
    ensures Pairs(AssetDown, existing, NO_ASSET_COLUMNS, NoAssetItems(existing))
  {
  }

  /** The insert lists name exactly the columns of their schema. */
  lemma ListsAreSchemas(m: Migration, c: Column)
    ensures c in ColumnsOf(m) <==> InTarget(m, c)
  {
    BaseMembers(c);
    assert c in OPTIONAL <==> c.EffectsJson? || c.TrackId? || c.TimelineStart? || c.TimelineEnd? by {
      assert OPTIONAL[0] == EffectsJson && OPTIONAL[1] == TrackId;
      assert OPTIONAL[2] == TimelineStart && OPTIONAL[3] == TimelineEnd;
    }
  }

  lemma BaseMembers(c: Column)
    ensures c in BASE <==> IsBase(c)
  {
    assert BASE[0] == Id && BASE[1] == ProjectId && BASE[2] == SourceVideoId && BASE[3] == InPoint;
    assert BASE[4] == OutPoint && BASE[5] == TimelinePosition && BASE[6] == CreatedAt && BASE[7] == UpdatedAt;
  }
}
