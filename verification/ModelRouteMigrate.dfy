/** The `model_routes` migration (backend/models/model_route_migrate.py). */
module ModelRouteMigrate {
  import opened Basics
  import opened CheckText
  import opened Databases
  import opened TableRebuild

  const TABLE := "model_routes"
  const RETIRED_COLUMN := "api_key_env"
  const RETIRED_PROVIDER := "mineru"
  const PROVIDER_REPLACEMENT := "openai"
  const RETIRED_PROVIDER_PATH := "/file_parse"
  const PROVIDER_CHECK := "ck_model_routes_provider"
  const PROVIDERS := ["openai", "anthropic"]
  const METADATA := ["context_window", "max_tokens", "modalities", "reasoning"]

  // ------------------------------------------------------------------------------- the rows

  function Lower(s: string): (r: string)
    ensures |r| == |s|
    ensures forall i :: 0 <= i < |s| ==> r[i] == LowerChar(s[i])
  {
    if s == "" then "" else [LowerChar(s[0])] + Lower(s[1..])
  }

  /** `LOWER(provider) = 'mineru'` */
  predicate Retired(row: Row) {
    var v := Cell(row, "provider");
    v.Text? && Lower(v.s) == RETIRED_PROVIDER
  }

  /** The first UPDATE: a path that is still the retired default goes. */
  function ClearPath(row: Row): Row {
    if Retired(row) && Cell(row, "path") == Text(RETIRED_PROVIDER_PATH) then row["path" := Text("")] else row
  }

  /** The second UPDATE. */
  function ReplaceProvider(row: Row): Row {
    if Retired(row) then row["provider" := Text(PROVIDER_REPLACEMENT)] else row
  }

  function Rewritten(row: Row): Row {
    ReplaceProvider(ClearPath(row))
  }

  /** What the two statements in this order do to one cell. */
  lemma RewrittenCells(row: Row, c: string)
    ensures Cell(Rewritten(row), c) ==
              if Retired(row) && c == "provider" then Text("openai")
              else if Retired(row) && c == "path" && Cell(row, "path") == Text("/file_parse") then Text("")
              else Cell(row, c)
    ensures !Retired(Rewritten(row))
  {
    assert Retired(ClearPath(row)) <==> Retired(row);
    assert Lower("openai")[0] == 'o';
  }

  /** In the other order the path would survive its provider. */
  lemma OrderMatters(row: Row)
    requires Retired(row) && Cell(row, "path") == Text(RETIRED_PROVIDER_PATH)
    ensures Cell(ClearPath(ReplaceProvider(row)), "path") == Text("/file_parse") && Cell(Rewritten(row), "path") == Text("")
  {
    RewrittenCells(row, "path");
    assert Lower("openai")[0] == 'o';
  }

  predicate SomeRetired(rows: seq<Row>) {
    exists r | r in rows :: Retired(r)
  }

  /** `SELECT name ... WHERE LOWER(provider) = 'mineru'` */
  function RetiredNames(rows: seq<Row>): (r: seq<Value>)
    ensures r != [] <==> SomeRetired(rows)
    ensures forall v :: v in r <==> exists row :: row in rows && Retired(row) && Cell(row, "name") == v
  {
    if rows == [] then []
    else
      assert rows == [rows[0]] + rows[1..];
      (if Retired(rows[0]) then [Cell(rows[0], "name")] else []) + RetiredNames(rows[1..])
  }

  lemma RewrittenInSteps(rows: seq<Row>)
    ensures Mapped(Mapped(rows, ClearPath), ReplaceProvider) == Mapped(rows, Rewritten)
    ensures !SomeRetired(rows) ==> Mapped(rows, Rewritten) == rows
    ensures !SomeRetired(Mapped(rows, Rewritten))
  {
    forall r | r in Mapped(rows, Rewritten)
      ensures !Retired(r)
    {
      var i :| 0 <= i < |rows| && r == Rewritten(rows[i]);
      RewrittenCells(rows[i], "provider");
    }
    assert forall i | 0 <= i < |rows| :: rows[i] in rows;
  }

  function Columns(db: Database): set<string> {
    ColumnsPresent(db, TABLE)
  }

  function Rows(db: Database): seq<Row> {
    if TABLE in db.tables then db.tables[TABLE].rows else []
  }

  /** The transaction that rewrites the rows: the columns it names exist, and both states of the
      rows pass what the table enforces. */
  predicate CanRewrite(db: Database)
    requires TABLE in db.tables
  {
    && "name" in db.tables[TABLE].shape.columns && "provider" in db.tables[TABLE].shape.columns
    && (SomeRetired(Rows(db)) ==>
          && "path" in db.tables[TABLE].shape.columns
          && CanHold(db, TABLE, Mapped(Rows(db), ClearPath))
          && CanHold(db, TABLE, Mapped(Rows(db), Rewritten)))
  }

  function RewrittenDb(db: Database): Database
    requires TABLE in db.tables
  {
    WithRows(db, TABLE, Mapped(Rows(db), Rewritten))
  }

  lemma NothingToRewrite(db: Database)
    requires TABLE in db.tables && !SomeRetired(Rows(db))
    ensures RewrittenDb(db) == db
  {
    RewrittenInSteps(Rows(db));
    assert db.tables[TABLE := db.tables[TABLE]] == db.tables;
  }

  method UpdateRetired(conn: Connection) returns (ok: bool)
    requires TABLE in conn.db.tables
    modifies conn`db
    ensures ok <==> CanHold(old(conn.db), TABLE, Mapped(Rows(old(conn.db)), ClearPath)) && CanHold(old(conn.db), TABLE, Mapped(Rows(old(conn.db)), Rewritten))
    ensures ok ==> conn.db == RewrittenDb(old(conn.db))
  {
    RewrittenInSteps(Rows(conn.db));
    ok := conn.Update(TABLE, ClearPath);
    if ok {
      ok := conn.Update(TABLE, ReplaceProvider);
    }
  }

  /** Inside the transaction. */
  method RewriteFound(conn: Connection) returns (ok: bool, names: seq<Value>)
    requires TABLE in conn.db.tables
    modifies conn`db
    ensures ok <==> CanRewrite(old(conn.db))
    ensures ok ==> conn.db == RewrittenDb(old(conn.db)) && names == RetiredNames(Rows(old(conn.db)))
  {
    names := [];
    var columns := conn.db.tables[TABLE].shape.columns;
    ok := "name" in columns && "provider" in columns;
    if ok {
      names := RetiredNames(conn.db.tables[TABLE].rows);
      if names != [] {
        ok := "path" in columns;
        if ok {
          ok := UpdateRetired(conn);
        }
      } else {
        NothingToRewrite(conn.db);
      }
    }
  }

  /** The first half of `retire_mineru_provider`. */
  method RewriteRows(conn: Connection) returns (ok: bool, names: seq<Value>)
    requires conn.saved.None? && TABLE in conn.db.tables
    modifies conn`db, conn`saved
    ensures conn.saved.None? && conn.foreignKeys == old(conn.foreignKeys)
    ensures ok <==> CanRewrite(old(conn.db))
    ensures conn.db == if ok then RewrittenDb(old(conn.db)) else old(conn.db)
    ensures ok ==> names == RetiredNames(Rows(old(conn.db)))
  {
    conn.Begin();
    ok, names := RewriteFound(conn);
    if ok {
      conn.Commit();
    } else {
      conn.Rollback();
    }
  }

  // -------------------------------------------------------------------------- the constraint

  predicate ContainsAt(s: string, part: string, i: nat) {
    i + |part| <= |s| && s[i..i + |part|] == part
  }

  predicate Contains(s: string, part: string) {
    exists i | 0 <= i <= |s| :: ContainsAt(s, part, i)
  }

  predicate StaleCheck(k: Check) {
    Contains(Lower(k.text), RETIRED_PROVIDER)
  }

  /** `_provider_check_is_stale` */
  predicate Stale(db: Database) {
    TABLE in db.tables && exists k | k in db.tables[TABLE].shape.checks :: StaleCheck(k)
  }

  lemma LowerJoins(a: string, b: string)
    ensures Lower(a + b) == Lower(a) + Lower(b)
  {
    forall i | 0 <= i < |a + b|
      ensures Lower(a + b)[i] == (Lower(a) + Lower(b))[i]
    {
    }
  }

  /** A constraint is found stale exactly when its text holds the retired provider, in any case. */
  lemma StaleExactly(k: Check)
    ensures StaleCheck(k) <==> exists u, w, v :: k.text == u + (w + v) && Lower(w) == RETIRED_PROVIDER
  {
    if i: nat :| i <= |Lower(k.text)| && ContainsAt(Lower(k.text), RETIRED_PROVIDER, i) {
      var u, w, v := HeldAt(k.text, RETIRED_PROVIDER, i);
    }
    if u, w, v :| k.text == u + (w + v) && Lower(w) == RETIRED_PROVIDER {
      Holds(u, w, v);
      assert Contains(Lower(k.text), RETIRED_PROVIDER);
    }
  }

  lemma HeldAt(s: string, part: string, i: nat) returns (u: string, w: string, v: string)
    requires ContainsAt(Lower(s), part, i)
    ensures s == u + (w + v) && Lower(w) == part
  {
    u, w, v := s[..i], s[i..i + |part|], s[i + |part|..];
    forall j | 0 <= j < |part|
      ensures Lower(w)[j] == part[j]
    {
      assert part[j] == Lower(s)[i + j];
    }
  }

  lemma Holds(u: string, w: string, v: string)
    ensures Contains(Lower(u + (w + v)), Lower(w))
  {
    LowerJoins(u, w + v);
    LowerJoins(w, v);
    var low := Lower(u + (w + v));
    assert low[|u|..|u| + |w|] == Lower(w);
    assert ContainsAt(low, Lower(w), |u|);
  }

  lemma {:induction false} ListHolds(values: seq<string>, i: nat) returns (u: string, v: string)
    requires i < |values|
    ensures List(values) == u + (values[i] + v)
    decreases |values|
  {
    if i > 0 {
      u, v := ListHolds(values[1..], i - 1);
      u := "'" + (values[0] + ("', " + u));
    } else {
      u, v := "'", if |values| == 1 then "')" else "', " + List(values[1..]);
    }
  }

  /** A generated vocabulary that lists the retired provider is found stale. */
  lemma RetiredVocabularyIsStale(name: string, column: string, values: seq<string>)
    requires RETIRED_PROVIDER in values
    ensures StaleCheck(Generated(name, column, values))
  {
    var i :| 0 <= i < |values| && values[i] == RETIRED_PROVIDER;
    var u, v := ListHolds(values, i);
    var text := InCheck(column, values);
    assert text == (column + (" IN (" + u)) + (values[i] + v);
    RetiredIsLower();
    StaleExactly(Generated(name, column, values));
  }

  lemma RetiredIsLower()
    ensures Lower(RETIRED_PROVIDER) == RETIRED_PROVIDER
  {
  }

  function CurrentCheck(): Check {
    Generated(PROVIDER_CHECK, "provider", PROVIDERS)
  }

  predicate NoU(s: string) {
    forall c | c in s :: c != 'u' && c != 'U'
  }

  lemma NoUMeansCurrent(k: Check)
    requires NoU(k.text)
    ensures !StaleCheck(k)
  {
    var low := Lower(k.text);
    forall i: nat | i <= |low|
      ensures !ContainsAt(low, RETIRED_PROVIDER, i)
    {
      if i + 6 <= |low| {
        assert k.text[i + 5] in k.text;
        assert low[i..i + 6][5] == low[i + 5] != 'u';
        assert RETIRED_PROVIDER[5] == 'u';
      }
    }
  }

  lemma CurrentCheckIsCurrent()
    ensures !StaleCheck(CurrentCheck())
  {
    var list := List(PROVIDERS);
    assert list == "'" + ("openai" + ("', " + ("'" + ("anthropic" + "')"))));
    assert NoU("openai") && NoU("anthropic") && NoU("'") && NoU("', ") && NoU("')") && NoU("provider") && NoU(" IN (");
    assert NoU(list);
    assert NoU(CurrentCheck().text);
    NoUMeansCurrent(CurrentCheck());
  }

  function Rechecked(db: Database): Database
    requires TABLE in db.tables
  {
    WithChecks(db, TABLE, ChecksWithout(db.tables[TABLE].shape.checks, PROVIDER_CHECK) + [CurrentCheck()])
  }

  method Recheck(conn: Connection) returns (ok: bool)
    requires conn.saved.None? && TABLE in conn.db.tables
    modifies conn`db, conn`saved
    ensures conn.saved.None?
    ensures ok <==> forall r | r in Rows(old(conn.db)) :: Passes(CurrentCheck(), r)
    ensures conn.db == if ok then Rechecked(old(conn.db)) else old(conn.db)
  {
    conn.Begin();
    var dropped := conn.DropCheckIfExists(TABLE, PROVIDER_CHECK);
    ok := conn.AddCheck(TABLE, CurrentCheck());
    if ok {
      conn.Commit();
    } else {
      conn.Rollback();
    }
  }

  /** A rebuild as this migration sees it. */
  predicate RebuiltOrRaised(was: Database, now: Database, models: map<string, Model>, ok: bool)
    requires TABLE in was.tables
  {
    if now == was && !ok then
      TABLE !in models || models[TABLE].quoted || !Rebuildable(was, models[TABLE], TABLE) || !Integrity(now)
    else
      && TABLE in models && !models[TABLE].quoted
      && Rebuildable(was, models[TABLE], TABLE) && IsRebuilt(was, now, models[TABLE], TABLE) && (ok <==> Integrity(now))
  }

  datatype Change = Unchanged | Recreated | WasRebuilt

  /** The second half of `retire_mineru_provider`. */
  method RefreshCheck(conn: Connection, models: map<string, Model>) returns (ok: bool, change: Change)
    requires conn.saved.None? && WellFormed(conn.db) && TABLE in conn.db.tables
    modifies conn
    ensures conn.saved.None? && (old(conn.foreignKeys) ==> conn.foreignKeys)
    ensures !Stale(old(conn.db)) ==> ok && change == Unchanged && conn.db == old(conn.db)
    ensures Stale(old(conn.db)) && conn.dialect.PostgreSQL? ==>
              && (ok <==> forall r | r in Rows(old(conn.db)) :: Passes(CurrentCheck(), r))
              && conn.db == if ok then Rechecked(old(conn.db)) else old(conn.db)
    ensures Stale(old(conn.db)) && conn.dialect.SQLite? ==> RebuiltOrRaised(old(conn.db), conn.db, models, ok)
    ensures Stale(old(conn.db)) && ok ==> change == if conn.dialect.PostgreSQL? then Recreated else WasRebuilt
  {
    ok := true;
    change := Unchanged;
    if Stale(conn.db) {
      match conn.dialect
      case PostgreSQL =>
        ok := Recheck(conn);
        change := Recreated;
      case SQLite =>
        var outcome := RebuildTable(conn, models, TABLE);
        ok := outcome.Done?;
        change := WasRebuilt;
    }
  }

  // ----------------------------------------------------------------------- added columns

  function Lacking(wanted: seq<string>, db: Database): (r: seq<string>)
    requires TABLE in db.tables
    ensures forall c :: c in r <==> c in wanted && c !in db.tables[TABLE].shape.columns
  {
    if wanted == [] then []
    else
      var before := Lacking(wanted[..|wanted| - 1], db);
      var c := wanted[|wanted| - 1];
      assert wanted == wanted[..|wanted| - 1] + [c];
      if c in db.tables[TABLE].shape.columns then before else before + [c]
  }

  lemma {:induction false} LackingDistinct(wanted: seq<string>, db: Database)
    requires TABLE in db.tables && AllDistinct(wanted)
    ensures AllDistinct(Lacking(wanted, db))
    decreases |wanted|
  {
    if wanted != [] {
      var before := wanted[..|wanted| - 1];
      LackingDistinct(before, db);
      assert forall i | 0 <= i < |before| :: wanted[i] == before[i];
      assert wanted[|wanted| - 1] !in before;
    }
  }

  function WithColumns(db: Database, columns: seq<string>): Database
    requires TABLE in db.tables
  {
    var t := db.tables[TABLE];
    db.(tables := db.tables[TABLE := t.(shape := t.shape.(columns := t.shape.columns + columns))])
  }

  /** `add_metadata_columns` */
  method AddMetadataColumns(conn: Connection, wanted: seq<string>) returns (added: seq<string>)
    requires conn.saved.None? && TABLE in conn.db.tables && AllDistinct(wanted)
    modifies conn`db, conn`saved
    ensures conn.saved.None?
    ensures added == Lacking(wanted, old(conn.db))
    ensures conn.db == WithColumns(old(conn.db), added)
  {
    ghost var was := conn.db;
    added := Lacking(wanted, conn.db);
    LackingDistinct(wanted, was);
    assert was.tables[TABLE].shape.columns + [] == was.tables[TABLE].shape.columns;
    assert was.tables[TABLE := was.tables[TABLE]] == was.tables;
    if added == [] {
      return;
    }
    conn.BeginDdl();
    var k := 0;
    while k < |added|
      invariant 0 <= k <= |added|
      invariant conn.db == WithColumns(was, added[..k])
    {
      assert added[k] !in added[..k] && added[k] in added;
      assert added[..k + 1] == added[..k] + [added[k]];
      assert was.tables[TABLE].shape.columns + added[..k + 1] == (was.tables[TABLE].shape.columns + added[..k]) + [added[k]];
      var ok := conn.AddColumn(TABLE, added[k]);
      k := k + 1;
    }
    assert added[..k] == added;
    conn.Commit();
  }

  // ----------------------------------------------------------------------- dropped column

  /** `retire_api_key_env` */
  method RetireApiKeyEnv(conn: Connection, models: map<string, Model>) returns (ok: bool, changed: bool)
    requires conn.saved.None? && WellFormed(conn.db) && TABLE in conn.db.tables
    modifies conn
    ensures conn.saved.None? && (old(conn.foreignKeys) ==> conn.foreignKeys)
    ensures RETIRED_COLUMN !in Columns(old(conn.db)) ==> ok && !changed && conn.db == old(conn.db)
    ensures RETIRED_COLUMN in Columns(old(conn.db)) && ok ==> changed
    ensures RETIRED_COLUMN in Columns(old(conn.db)) && conn.dialect.PostgreSQL? ==>
              && (ok <==> !Targeted(old(conn.db), TABLE, RETIRED_COLUMN))
              && conn.db == if ok then WithoutColumn(old(conn.db), TABLE, RETIRED_COLUMN) else old(conn.db)
    ensures RETIRED_COLUMN in Columns(old(conn.db)) && conn.dialect.SQLite? ==> RebuiltOrRaised(old(conn.db), conn.db, models, ok)
  {
    ok := true;
    changed := false;
    if RETIRED_COLUMN in ColumnsPresent(conn.db, TABLE) {
      match conn.dialect
      case PostgreSQL =>
        ok := conn.DropColumnIfExists(TABLE, RETIRED_COLUMN);
        changed := ok;
      case SQLite =>
        var outcome := RebuildTable(conn, models, TABLE);
        ok := outcome.Done?;
        changed := ok;
    }
  }
}
