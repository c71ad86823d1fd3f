/** A relational database as the migrations use it: tables with columns, rows, CHECKs, unique
    constraints and foreign keys, named indexes, and a connection that runs one statement at a
    time. */
module Databases {
  import opened Basics
  import opened CheckText

  datatype Value = Null | Int(i: int) | Text(s: string)

  type Row = map<string, Value>

  function Cell(row: Row, column: string): Value {
    if column in row then row[column] else Null
  }

  /** `column` refers to `target` of `table`. */
  datatype ForeignKey = ForeignKey(column: string, table: string, target: string)

  datatype Shape = Shape(
    columns: seq<string>,
    notNull: set<string>,
    checks: seq<Check>,
    uniques: seq<seq<string>>,
    foreignKeys: seq<ForeignKey>)

  datatype Table = Table(shape: Shape, rows: seq<Row>)

  datatype IndexBody = IndexBody(columns: seq<string>, unique: bool)

  datatype Index = Index(table: string, body: IndexBody)

  /** Index names are global to the database. */
  datatype Database = Database(tables: map<string, Table>, indexes: map<string, Index>)

  /** What a declaring class says its table is; a name that needs quoting in SQL says so. */
  datatype Model = Model(quoted: bool, shape: Shape, indexes: map<string, IndexBody>)

  // ---------------------------------------------------------------------------- constraints

  /** SQL: a NULL passes every vocabulary. */
  predicate Passes(check: Check, row: Row) {
    var v := Cell(row, check.column);
    v.Null? || (v.Text? && v.s in check.values)
  }

  predicate RowFits(shape: Shape, row: Row) {
    && (forall c | c in shape.notNull :: !Cell(row, c).Null?)
    && (forall k | k in shape.checks :: Passes(k, row))
  }

  /** Two rows collide when every column is present in both and equal. */
  predicate Collide(a: Row, b: Row, columns: seq<string>) {
    forall c | c in columns :: !Cell(a, c).Null? && Cell(a, c) == Cell(b, c)
  }

  predicate Distinct(rows: seq<Row>, columns: seq<string>) {
    forall i, j | 0 <= i < j < |rows| :: !Collide(rows[i], rows[j], columns)
  }

  predicate Fits(shape: Shape, rows: seq<Row>) {
    && (forall r | r in rows :: RowFits(shape, r))
    && (forall u | u in shape.uniques :: Distinct(rows, u))
  }

  predicate IsParent(rows: seq<Row>, column: string, v: Value) {
    exists r | r in rows :: Cell(r, column) == v
  }

  /** A column a foreign key may refer to: unique by itself, by a constraint or by an index. */
  predicate Keyed(db: Database, table: string, column: string)
    requires table in db.tables
  {
    && column in db.tables[table].shape.columns
    && ([column] in db.tables[table].shape.uniques || IndexKeyed(db.indexes, table, column))
  }

  predicate IndexKeyed(indexes: map<string, Index>, table: string, column: string) {
    exists n | n in indexes :: indexes[n] == Index(table, IndexBody([column], true))
  }

  /** Every row names no parent, or one that is there. */
  predicate ParentsFound(parents: seq<Row>, rows: seq<Row>, key: ForeignKey) {
    forall r | r in rows :: Cell(r, key.column).Null? || IsParent(parents, key.target, Cell(r, key.column))
  }

  predicate KeyHolds(db: Database, rows: seq<Row>, key: ForeignKey) {
    if key.table !in db.tables then forall r | r in rows :: Cell(r, key.column).Null?
    else Keyed(db, key.table, key.target) && ParentsFound(db.tables[key.table].rows, rows, key)
  }

  predicate KeysHold(db: Database, t: Table) {
    forall k | k in t.shape.foreignKeys :: KeyHolds(db, t.rows, k)
  }

  /** What `PRAGMA foreign_key_check` looks for, over the whole database: references to a column
      that is missing or not unique, and rows without their parent. */
  predicate Integrity(db: Database) {
    forall u | u in db.tables :: KeysHold(db, db.tables[u])
  }

  predicate RowsWithin(t: Table) {
    forall r | r in t.rows :: forall c | c in r :: c in t.shape.columns
  }

  /** No row holds a value for a column its table lacks, and no index is on a missing table. */
  predicate WellFormed(db: Database) {
    && (forall u | u in db.tables :: RowsWithin(db.tables[u]))
    && (forall n | n in db.indexes :: db.indexes[n].table in db.tables)
  }

  predicate IndexHolds(db: Database, index: Index) {
    index.table in db.tables && index.body.unique ==> Distinct(db.tables[index.table].rows, index.body.columns)
  }

  /** What the database itself sees to: no two rows collide on a unique index. */
  predicate UniquesHold(db: Database) {
    forall n | n in db.indexes :: IndexHolds(db, db.indexes[n])
  }

  // ------------------------------------------------------------------------------ statements

  function Projected(row: Row, columns: seq<string>): Row {
    map c | c in columns :: Cell(row, c)
  }

  function Project(rows: seq<Row>, columns: seq<string>): (r: seq<Row>)
    ensures |r| == |rows|
    ensures forall i :: 0 <= i < |r| ==> r[i] == Projected(rows[i], columns)
  {
    if rows == [] then [] else [Projected(rows[0], columns)] + Project(rows[1..], columns)
  }

  function Retarget(keys: seq<ForeignKey>, was: string, now: string): (r: seq<ForeignKey>)
    ensures |r| == |keys|
    ensures forall i :: 0 <= i < |r| ==> r[i] == if keys[i].table == was then keys[i].(table := now) else keys[i]
  {
    if keys == [] then []
    else [if keys[0].table == was then keys[0].(table := now) else keys[0]] + Retarget(keys[1..], was, now)
  }

  function Retargeted(t: Table, was: string, now: string): Table {
    t.(shape := t.shape.(foreignKeys := Retarget(t.shape.foreignKeys, was, now)))
  }

  function Without(indexes: map<string, Index>, table: string): map<string, Index> {
    map n | n in indexes && indexes[n].table != table :: indexes[n]
  }

  function Dropped(db: Database, table: string): Database {
    Database(db.tables - {table}, Without(db.indexes, table))
  }

  /** Foreign keys and indexes that named the old name name the new one. */
  function Renamed(db: Database, was: string, now: string): Database
    requires was in db.tables
  {
    var tables := (db.tables - {was})[now := db.tables[was]];
    Database(
      map u | u in tables :: Retargeted(tables[u], was, now),
      map n | n in db.indexes :: if db.indexes[n].table == was then db.indexes[n].(table := now) else db.indexes[n])
  }

  predicate CanIndex(db: Database, table: string, body: IndexBody) {
    && table in db.tables
    && (forall c | c in body.columns :: c in db.tables[table].shape.columns)
    && (body.unique ==> Distinct(db.tables[table].rows, body.columns))
  }

  predicate CanCopy(db: Database, into: string, columns: seq<string>, source: string) {
    && into in db.tables && source in db.tables
    && (forall c | c in columns :: c in db.tables[source].shape.columns && c in db.tables[into].shape.columns)
    && Fits(db.tables[into].shape, db.tables[into].rows + Project(db.tables[source].rows, columns))
  }

  function WithColumn(db: Database, table: string, column: string): Database
    requires table in db.tables
  {
    var t := db.tables[table];
    db.(tables := db.tables[table := t.(shape := t.shape.(columns := t.shape.columns + [column]))])
  }

  function ChecksWithout(checks: seq<Check>, name: string): (r: seq<Check>)
    ensures forall k :: k in r <==> k in checks && k.name != name
  {
    if checks == [] then []
    else (if checks[0].name == name then [] else [checks[0]]) + ChecksWithout(checks[1..], name)
  }

  function WithChecks(db: Database, table: string, checks: seq<Check>): Database
    requires table in db.tables
  {
    var t := db.tables[table];
    db.(tables := db.tables[table := t.(shape := t.shape.(checks := checks))])
  }

  /** PostgreSQL does not parse an empty list of values. */
  predicate CanCheck(db: Database, table: string, check: Check) {
    && table in db.tables && check.values != []
    && (forall k | k in db.tables[table].shape.checks :: k.name != check.name)
    && (forall r | r in db.tables[table].rows :: Passes(check, r))
  }

  function Mapped(rows: seq<Row>, f: Row -> Row): (r: seq<Row>)
    ensures |r| == |rows|
    ensures forall i :: 0 <= i < |r| ==> r[i] == f(rows[i])
  {
    if rows == [] then [] else [f(rows[0])] + Mapped(rows[1..], f)
  }

  function WithRows(db: Database, table: string, rows: seq<Row>): Database
    requires table in db.tables
  {
    db.(tables := db.tables[table := db.tables[table].(rows := rows)])
  }

  /** The table's constraints and unique indexes would hold of these rows. */
  predicate CanHold(db: Database, table: string, rows: seq<Row>)
    requires table in db.tables
  {
    && Fits(db.tables[table].shape, rows)
    && (forall n | n in db.indexes && db.indexes[n].table == table && db.indexes[n].body.unique :: Distinct(rows, db.indexes[n].body.columns))
  }

  function Filter<T(!new)>(s: seq<T>, p: T -> bool): (r: seq<T>)
    ensures forall x :: x in r <==> x in s && p(x)
  {
    if s == [] then []
    else (if p(s[0]) then [s[0]] else []) + Filter(s[1..], p)
  }

  predicate Targeted(db: Database, table: string, column: string) {
    exists u | u in db.tables && u != table :: exists k | k in db.tables[u].shape.foreignKeys :: k.table == table && k.target == column
  }

  function ShapeWithout(shape: Shape, table: string, column: string): Shape {
    Shape(
      Filter(shape.columns, (c: string) => c != column),
      shape.notNull - {column},
      Filter(shape.checks, (k: Check) => k.column != column),
      Filter(shape.uniques, (u: seq<string>) => column !in u),
      Filter(shape.foreignKeys, (k: ForeignKey) => k.column != column && !(k.table == table && k.target == column)))
  }

  /** Constraints and indexes of the table that are built on the column go with it. */
  function WithoutColumn(db: Database, table: string, column: string): Database
    requires table in db.tables
  {
    var t := db.tables[table];
    Database(
      db.tables[table := Table(ShapeWithout(t.shape, table, column), Mapped(t.rows, (r: Row) => r - {column}))],
      map n | n in db.indexes && !(db.indexes[n].table == table && column in db.indexes[n].body.columns) :: db.indexes[n])
  }

  datatype Dialect = SQLite | PostgreSQL

  /** One connection. A statement that fails leaves the database as it was. */
  class Connection {
    const dialect: Dialect
    var db: Database
    var saved: Option<Database>
    var foreignKeys: bool

    constructor (dialect: Dialect, db: Database)
      ensures this.dialect == dialect && this.db == db && saved.None? && foreignKeys
    {
      this.dialect := dialect;
      this.db := db;
      saved := None;
      foreignKeys := true;
    }

    /** Silently ignored inside a transaction. */
    method PragmaForeignKeys(on: bool)
      modifies `foreignKeys
      ensures foreignKeys == if saved.Some? then old(foreignKeys) else on
    {
      if saved.None? {
        foreignKeys := on;
      }
    }

    method Begin()
      requires saved.None?
      modifies `saved
      ensures saved == Some(db)
    {
      saved := Some(db);
    }

    method Commit()
      modifies `saved
      ensures saved.None?
    {
      saved := None;
    }

    method Rollback()
      modifies `saved, `db
      ensures saved.None?
      ensures db == if old(saved).Some? then old(saved).value else old(db)
    {
      if saved.Some? {
        db := saved.value;
      }
      saved := None;
    }

    /** `engine.begin()` around DDL: one transaction on PostgreSQL, while SQLite's driver commits
        every such statement by itself. */
    method BeginDdl()
      requires saved.None?
      modifies `saved
      ensures saved == if dialect.PostgreSQL? then Some(db) else None
    {
      if dialect.PostgreSQL? {
        saved := Some(db);
      }
    }

    method CreateTable(table: string, shape: Shape) returns (ok: bool)
      modifies `db
      ensures ok <==> table !in old(db).tables
      ensures db == if ok then old(db).(tables := old(db).tables[table := Table(shape, [])]) else old(db)
    {
      ok := table !in db.tables;
      if ok {
        db := db.(tables := db.tables[table := Table(shape, [])]);
      }
    }

    /** With enforcement on, dropping a table first deletes its rows, and what that does to the
        tables that refer to it is anybody's guess. */
    method DropTable(table: string) returns (ok: bool)
      modifies `db
      ensures ok ==> table in old(db).tables
      ensures !ok ==> db == old(db)
      ensures !foreignKeys ==> (ok <==> table in old(db).tables)
      ensures ok && !foreignKeys ==> db == Dropped(old(db), table)
    {
      ok := table in db.tables;
      if ok && foreignKeys {
        ok := *;
        if ok {
          db := *;
        }
      } else if ok {
        db := Dropped(db, table);
      }
    }

    method DropTableIfExists(table: string) returns (ok: bool)
      modifies `db
      ensures !ok ==> db == old(db)
      ensures !foreignKeys ==> ok && db == if table in old(db).tables then Dropped(old(db), table) else old(db)
    {
      ok := true;
      if table in db.tables {
        ok := DropTable(table);
      }
    }

    /** `INSERT INTO into (columns) SELECT columns FROM source` */
    method InsertSelect(into: string, columns: seq<string>, source: string) returns (ok: bool)
      modifies `db
      ensures ok <==> CanCopy(old(db), into, columns, source)
      ensures !ok ==> db == old(db)
      ensures ok ==> db == old(db).(tables := old(db).tables[into :=
          old(db).tables[into].(rows := old(db).tables[into].rows + Project(old(db).tables[source].rows, columns))])
    {
      ok := CanCopy(db, into, columns, source);
      if ok {
        db := db.(tables := db.tables[into := db.tables[into].(rows := db.tables[into].rows + Project(db.tables[source].rows, columns))]);
      }
    }

    method RenameTable(was: string, now: string) returns (ok: bool)
      modifies `db
      ensures ok <==> was in old(db).tables && now !in old(db).tables
      ensures db == if ok then Renamed(old(db), was, now) else old(db)
    {
      ok := was in db.tables && now !in db.tables;
      if ok {
        db := Renamed(db, was, now);
      }
    }

    /** `CREATE INDEX IF NOT EXISTS`: a name that is taken, by any table, is left alone. */
    method CreateIndexIfNotExists(name: string, index: Index) returns (ok: bool)
      modifies `db
      ensures ok <==> name in old(db).indexes || CanIndex(old(db), index.table, index.body)
      ensures db == if ok && name !in old(db).indexes then old(db).(indexes := old(db).indexes[name := index]) else old(db)
    {
      ok := name in db.indexes || CanIndex(db, index.table, index.body);
      if ok && name !in db.indexes {
        db := db.(indexes := db.indexes[name := index]);
      }
    }

    /** `CREATE INDEX`, as `create_all` issues it: a name that is taken is an error. */
    method CreateIndex(name: string, index: Index) returns (ok: bool)
      modifies `db
      ensures ok <==> name !in old(db).indexes && CanIndex(old(db), index.table, index.body)
      ensures db == if ok then old(db).(indexes := old(db).indexes[name := index]) else old(db)
    {
      ok := name !in db.indexes && CanIndex(db, index.table, index.body);
      if ok {
        db := db.(indexes := db.indexes[name := index]);
      }
    }

    /** `ALTER TABLE ... ADD COLUMN` of a nullable column: no row holds a value for it. */
    method AddColumn(table: string, column: string) returns (ok: bool)
      modifies `db
      ensures ok <==> table in old(db).tables && column !in old(db).tables[table].shape.columns
      ensures db == if ok then WithColumn(old(db), table, column) else old(db)
    {
      ok := table in db.tables && column !in db.tables[table].shape.columns;
      if ok {
        db := WithColumn(db, table, column);
      }
    }

    /** `ALTER TABLE ... DROP COLUMN IF EXISTS`: refused while another table refers to it. */
    method DropColumnIfExists(table: string, column: string) returns (ok: bool)
      modifies `db
      ensures ok <==> table in old(db).tables && !Targeted(old(db), table, column)
      ensures db == if ok && column in old(db).tables[table].shape.columns then WithoutColumn(old(db), table, column) else old(db)
    {
      ok := table in db.tables && !Targeted(db, table, column);
      if ok && column in db.tables[table].shape.columns {
        db := WithoutColumn(db, table, column);
      }
    }

    /** `UPDATE table SET ...`, as the function it applies to every row. */
    method Update(table: string, f: Row -> Row) returns (ok: bool)
      modifies `db
      ensures ok <==> table in old(db).tables && CanHold(old(db), table, Mapped(old(db).tables[table].rows, f))
      ensures db == if ok then WithRows(old(db), table, Mapped(old(db).tables[table].rows, f)) else old(db)
    {
      ok := table in db.tables && CanHold(db, table, Mapped(db.tables[table].rows, f));
      if ok {
        db := WithRows(db, table, Mapped(db.tables[table].rows, f));
      }
    }

    /** `ALTER TABLE ... DROP CONSTRAINT IF EXISTS` */
    method DropCheckIfExists(table: string, name: string) returns (ok: bool)
      modifies `db
      ensures ok <==> table in old(db).tables
      ensures db == if ok then WithChecks(old(db), table, ChecksWithout(old(db).tables[table].shape.checks, name)) else old(db)
    {
      ok := table in db.tables;
      if ok {
        db := WithChecks(db, table, ChecksWithout(db.tables[table].shape.checks, name));
      }
    }

    /** `ALTER TABLE ... ADD CONSTRAINT ... CHECK`: the rows there must pass it. */
    method AddCheck(table: string, check: Check) returns (ok: bool)
      modifies `db
      ensures ok <==> CanCheck(old(db), table, check)
      ensures db == if ok then WithChecks(old(db), table, old(db).tables[table].shape.checks + [check]) else old(db)
    {
      ok := CanCheck(db, table, check);
      if ok {
        db := WithChecks(db, table, db.tables[table].shape.checks + [check]);
      }
    }

    method ForeignKeyCheck() returns (violations: bool)
      ensures violations <==> !Integrity(db)
    {
      violations := !Integrity(db);
    }
  }
}
