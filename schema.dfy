/** The `get_schema` tool of the database-inspection server: the rows of
    `information_schema.columns` (ordered by table and column position) regrouped into one
    ordered column list per table. */
module Schema {
  import opened Common

  /** One `(table_name, column_name, data_type)` row of the query. */
  datatype ColumnRow = ColumnRow(tableName: string, columnName: string, dataType: string)

  /** One `{ column, type }` entry of the answer. */
  datatype Column = Column(column: string, dataType: string)

  function ColumnOf(r: ColumnRow): Column {
    Column(r.columnName, r.dataType)
  }

  /** The tables the rows mention. */
  function TableNames(rows: seq<ColumnRow>): set<string> {
    set r | r in rows :: r.tableName
  }

  /** The entries of one table, in row order. */
  function ColumnsOf(rows: seq<ColumnRow>, table: string): (cols: seq<Column>)
    ensures |cols| <= |rows|
  {
    if |rows| == 0 then []
    else
      var last := rows[|rows| - 1];
      ColumnsOf(rows[..|rows| - 1], table) + (if last.tableName == table then [ColumnOf(last)] else [])
  }

  /** One more row adds its table to the names. */
  lemma TableNamesStep(rows: seq<ColumnRow>, i: nat)
    requires i < |rows|
    ensures TableNames(rows[..i + 1]) == TableNames(rows[..i]) + {rows[i].tableName}
  {
    assert forall x :: x in rows[..i + 1] <==> x in rows[..i] || x == rows[i];
  }

  /** One more row appends its entry to its own table and to no other. */
  lemma ColumnsOfStep(rows: seq<ColumnRow>, i: nat)
    requires i < |rows|
    ensures forall t :: ColumnsOf(rows[..i + 1], t)
                     == ColumnsOf(rows[..i], t) + (if rows[i].tableName == t then [ColumnOf(rows[i])] else [])
  {
    assert rows[..i + 1][..i] == rows[..i];
  }

  /** A table has entries exactly when some row names it. */
  lemma {:induction false} ColumnsOfNonEmpty(rows: seq<ColumnRow>, table: string)
    ensures |ColumnsOf(rows, table)| > 0 <==> table in TableNames(rows)
  {
    if |rows| > 0 {
      var n := |rows| - 1;
      ColumnsOfNonEmpty(rows[..n], table);
      TableNamesStep(rows, n);
      assert rows[..n + 1] == rows;
    }
  }

  /** The `for (const r of rows)` loop, over a dictionary that has no keys but the ones it
      creates: the answer has one key per table, holding that table's entries in row order. */
  method GetSchema(rows: seq<ColumnRow>) returns (schema: map<string, seq<Column>>)
    ensures schema.Keys == TableNames(rows)
    ensures forall t :: t in schema ==> schema[t] == ColumnsOf(rows, t)
  {
    schema := map[];
    for i := 0 to |rows|
      invariant schema.Keys == TableNames(rows[..i])
      invariant forall t :: t in schema ==> schema[t] == ColumnsOf(rows[..i], t)
    {
      var r := rows[i];
      TableNamesStep(rows, i);
      ColumnsOfStep(rows, i);
      if r.tableName !in schema {
        ColumnsOfNonEmpty(rows[..i], r.tableName);
        schema := schema[r.tableName := []];
      }
      schema := schema[r.tableName := schema[r.tableName] + [ColumnOf(r)]];
    }
    assert rows[..|rows|] == rows;
  }

  /** No table maps to an empty list. */
  lemma NoEmptyTable(rows: seq<ColumnRow>, t: string)
    requires t in TableNames(rows)
    ensures ColumnsOf(rows, t) != []
  {
    ColumnsOfNonEmpty(rows, t);
  }

  // ---------------------------------------------------------------------------------------------
  // Every row lands exactly once, in order.

  /** The entries of the first `n` rows come first in a table's list. */
  lemma {:induction false} ColumnsOfPrefix(rows: seq<ColumnRow>, n: nat, t: string)
    requires n <= |rows|
    ensures ColumnsOf(rows[..n], t) <= ColumnsOf(rows, t)
    decreases |rows| - n
  {
    if n < |rows| {
      ColumnsOfPrefix(rows, n + 1, t);
      var front := rows[..n + 1];
      assert front[..n] == rows[..n];
      assert ColumnsOf(front, t) == ColumnsOf(rows[..n], t) + (if rows[n].tableName == t then [ColumnOf(rows[n])] else []);
    } else {
      assert rows[..n] == rows;
    }
  }

  /** Row `i` is entry number `k` of its table, where `k` counts the earlier rows of that table. */
  lemma RowPlacement(rows: seq<ColumnRow>, i: nat)
    requires i < |rows|
    ensures var t := rows[i].tableName;
      var k := |ColumnsOf(rows[..i], t)|;
      k < |ColumnsOf(rows, t)| && ColumnsOf(rows, t)[k] == ColumnOf(rows[i])
  {
    var t := rows[i].tableName;
    var front := rows[..i + 1];
    assert front[..i] == rows[..i];
    assert ColumnsOf(front, t) == ColumnsOf(rows[..i], t) + [ColumnOf(rows[i])];
    ColumnsOfPrefix(rows, i + 1, t);
  }

  /** Of two rows of one table, the earlier row's entry comes first. */
  lemma ColumnOrder(rows: seq<ColumnRow>, i: nat, j: nat)
    requires i < j < |rows| && rows[i].tableName == rows[j].tableName
    ensures |ColumnsOf(rows[..i], rows[i].tableName)| < |ColumnsOf(rows[..j], rows[j].tableName)|
  {
    var t := rows[i].tableName;
    var front := rows[..j];
    assert front[..i] == rows[..i];
    assert front[..i + 1] == rows[..i + 1];
    ColumnsOfPrefix(front, i + 1, t);
    assert rows[..i + 1][..i] == rows[..i];
    assert ColumnsOf(rows[..i + 1], t) == ColumnsOf(rows[..i], t) + [ColumnOf(rows[i])];
  }

  /** The tables in order of first appearance, each once. */
  function DistinctTables(rows: seq<ColumnRow>): (ts: seq<string>)
    ensures forall i, j :: 0 <= i < j < |ts| ==> ts[i] != ts[j]
    ensures forall t :: t in ts <==> t in TableNames(rows)
  {
    if |rows| == 0 then []
    else
      var front := rows[..|rows| - 1];
      var last := rows[|rows| - 1];
      assert TableNames(rows) == TableNames(front) + {last.tableName} by {
        assert forall r :: r in rows <==> r in front || r == last;
      }
      var d := DistinctTables(front);
      if last.tableName in d then d else d + [last.tableName]
  }

  /** Table `a` has a row before any row of table `b`. */
  predicate AppearsBefore(rows: seq<ColumnRow>, a: string, b: string) {
    exists p :: 0 <= p < |rows| && rows[p].tableName == a && forall q :: 0 <= q <= p ==> rows[q].tableName != b
  }

  /** What holds of a prefix of the rows holds of the rows. */
  lemma AppearsBeforeLonger(rows: seq<ColumnRow>, n: nat, a: string, b: string)
    requires n <= |rows| && AppearsBefore(rows[..n], a, b)
    ensures AppearsBefore(rows, a, b)
  {
    var front := rows[..n];
    var p :| 0 <= p < |front| && front[p].tableName == a && forall q :: 0 <= q <= p ==> front[q].tableName != b;
    assert rows[p] == front[p];
    forall q | 0 <= q <= p ensures rows[q].tableName != b {
      assert rows[q] == front[q];
    }
  }

  /** The tables are listed in order of their first row. */
  lemma {:induction false} DistinctTablesInFirstAppearanceOrder(rows: seq<ColumnRow>)
    ensures forall i, j :: 0 <= i < j < |DistinctTables(rows)| ==>
      AppearsBefore(rows, DistinctTables(rows)[i], DistinctTables(rows)[j])
  {
    if |rows| > 0 {
      var n := |rows| - 1;
      var front, last := rows[..n], rows[n];
      var d := DistinctTables(front);
      var ts := DistinctTables(rows);
      DistinctTablesInFirstAppearanceOrder(front);
      assert rows[..n] == front;
      forall i, j | 0 <= i < j < |ts| ensures AppearsBefore(rows, ts[i], ts[j]) {
        if j < |d| {
          assert ts[i] == d[i] && ts[j] == d[j];
          assert AppearsBefore(front, d[i], d[j]);
          AppearsBeforeLonger(rows, n, d[i], d[j]);
        } else {
          assert ts == d + [last.tableName] && ts[i] == d[i] && ts[j] == last.tableName;
          assert d[i] in TableNames(front);
          var r :| r in front && r.tableName == d[i];
          var p :| 0 <= p < n && front[p] == r;
          assert rows[p] == front[p];
          forall q | 0 <= q <= p ensures rows[q].tableName != last.tableName {
            assert rows[q] == front[q];
            assert front[q] in front;
          }
        }
      }
    }
  }

  /** A table's entries turned back into rows. */
  function Tagged(t: string, cols: seq<Column>): (rs: seq<ColumnRow>)
    ensures |rs| == |cols|
    ensures forall k :: 0 <= k < |cols| ==> rs[k] == ColumnRow(t, cols[k].column, cols[k].dataType)
  {
    if |cols| == 0 then [] else Tagged(t, cols[..|cols| - 1]) + [ColumnRow(t, cols[|cols| - 1].column, cols[|cols| - 1].dataType)]
  }

  /** The answer read back as rows, table by table. */
  function Regroup(rows: seq<ColumnRow>, tables: seq<string>): seq<ColumnRow> {
    if |tables| == 0 then [] else Tagged(tables[0], ColumnsOf(rows, tables[0])) + Regroup(rows, tables[1..])
  }

  lemma {:induction false} RegroupAppend(rows: seq<ColumnRow>, tables: seq<string>, x: string)
    ensures Regroup(rows, tables + [x]) == Regroup(rows, tables) + Tagged(x, ColumnsOf(rows, x))
  {
    if |tables| == 0 {
      assert tables + [x] == [x];
      assert [x][1..] == [];
    } else {
      assert (tables + [x])[0] == tables[0];
      assert (tables + [x])[1..] == tables[1..] + [x];
      RegroupAppend(rows, tables[1..], x);
    }
  }

  lemma TaggedSnoc(t: string, cols: seq<Column>, c: Column)
    ensures Tagged(t, cols + [c]) == Tagged(t, cols) + [ColumnRow(t, c.column, c.dataType)]
  {
    assert (cols + [c])[..|cols|] == cols;
  }

  /** A listed table that is not the row's own reads back the same. */
  lemma DistinctTail(tables: seq<string>)
    requires |tables| > 0
    requires forall i, j :: 0 <= i < j < |tables| ==> tables[i] != tables[j]
    ensures tables[0] !in tables[1..]
    ensures forall i, j :: 0 <= i < j < |tables[1..]| ==> tables[1..][i] != tables[1..][j]
  {
    forall k | 0 <= k < |tables| - 1 ensures tables[1..][k] != tables[0] {
      assert tables[1..][k] == tables[k + 1];
    }
  }

  /** One more row adds itself to its own table's read-back and to no other. */
  lemma TaggedAddRow(rows: seq<ColumnRow>, r: ColumnRow, t: string)
    ensures var a := Tagged(t, ColumnsOf(rows, t));
      Tagged(t, ColumnsOf(rows + [r], t)) == if r.tableName == t then a + [r] else a
  {
    var rows' := rows + [r];
    assert rows'[..|rows'| - 1] == rows;
    if r.tableName == t {
      TaggedSnoc(t, ColumnsOf(rows, t), ColumnOf(r));
    }
  }

  /** One more row adds itself to the read-back, once, when its table is listed once. */
  lemma {:induction false} RegroupAddRow(rows: seq<ColumnRow>, r: ColumnRow, tables: seq<string>)
    requires forall i, j :: 0 <= i < j < |tables| ==> tables[i] != tables[j]
    ensures multiset(Regroup(rows + [r], tables))
         == multiset(Regroup(rows, tables)) + (if r.tableName in tables then multiset{r} else multiset{})
  {
    if |tables| > 0 {
      var t := tables[0];
      var rows' := rows + [r];
      var tail := tables[1..];
      var cols := ColumnsOf(rows, t);
      var a, b := Tagged(t, cols), Regroup(rows, tail);
      var a', b' := Tagged(t, ColumnsOf(rows', t)), Regroup(rows', tail);
      TaggedAddRow(rows, r, t);
      assert r.tableName == t ==> r.tableName !in tail by {
        DistinctTail(tables);
      }
      assert multiset(b') == multiset(b) + (if r.tableName in tail then multiset{r} else multiset{}) by {
        DistinctTail(tables);
        RegroupAddRow(rows, r, tail);
      }
      assert r.tableName in tables <==> r.tableName == t || r.tableName in tail;
      assert Regroup(rows, tables) == a + b;
      assert Regroup(rows', tables) == a' + b';
    }
  }

  /** A row whose table is new starts that table's read-back, which follows the others. */
  lemma {:induction false} RegroupNewTable(rows: seq<ColumnRow>)
    requires |rows| > 0
    requires rows[|rows| - 1].tableName !in DistinctTables(rows[..|rows| - 1])
    ensures var d := DistinctTables(rows[..|rows| - 1]);
      Regroup(rows, DistinctTables(rows)) == Regroup(rows, d) + [rows[|rows| - 1]]
  {
    var n := |rows| - 1;
    var front := rows[..n];
    var r := rows[n];
    var d := DistinctTables(front);
    assert DistinctTables(rows) == d + [r.tableName];
    RegroupAppend(rows, d, r.tableName);
    ColumnsOfNonEmpty(front, r.tableName);
    ColumnsOfStep(rows, n);
    assert rows[..n + 1] == rows;
    assert ColumnsOf(rows, r.tableName) == [] + [ColumnOf(r)];
    TaggedSnoc(r.tableName, [], ColumnOf(r));
  }

  /** Read back table by table, the answer holds exactly the input rows: each row once, so the
      entries of all tables together number as many as the rows. */
  lemma {:induction false} RegroupIsPermutation(rows: seq<ColumnRow>)
    ensures multiset(Regroup(rows, DistinctTables(rows))) == multiset(rows)
    ensures |Regroup(rows, DistinctTables(rows))| == |rows|
  {
    if |rows| > 0 {
      var n := |rows| - 1;
      var front := rows[..n];
      var r := rows[n];
      assert rows == front + [r];
      RegroupIsPermutation(front);
      var d := DistinctTables(front);
      RegroupAddRow(front, r, d);
      var added := if r.tableName in d then multiset{r} else multiset{};
      assert multiset(Regroup(rows, d)) == multiset(front) + added;
      if r.tableName !in d {
        RegroupNewTable(rows);
        assert multiset(Regroup(rows, DistinctTables(rows))) == multiset(Regroup(rows, d)) + multiset{r};
      } else {
        assert DistinctTables(rows) == d;
      }
      assert multiset(rows) == multiset(front) + multiset{r};
    }
    assert |multiset(Regroup(rows, DistinctTables(rows)))| == |Regroup(rows, DistinctTables(rows))|;
  }

  // ---------------------------------------------------------------------------------------------
  // The loop as written, over a plain `{}` object.

  /** The names `Object.prototype` provides to every plain object. */
  const ObjectPrototypeKeys: set<string> := {
    "constructor", "__proto__", "hasOwnProperty", "isPrototypeOf", "propertyIsEnumerable",
    "toString", "valueOf", "toLocaleString", "__defineGetter__", "__defineSetter__",
    "__lookupGetter__", "__lookupSetter__"}

  const PushNotAFunction := "TypeError: schema[r.table_name].push is not a function"

  /** Some row names a table the way `Object.prototype` names one of its members. */
  predicate NamesPrototypeKey(rows: seq<ColumnRow>) {
    exists i :: 0 <= i < |rows| && rows[i].tableName in ObjectPrototypeKeys
  }

  /** A row with a prototype name is a witness. */
  lemma PrototypeRowWitness(rows: seq<ColumnRow>, i: nat)
    requires i < |rows| && rows[i].tableName in ObjectPrototypeKeys
    ensures NamesPrototypeKey(rows)
  {
  }

  /** A row without a prototype name keeps a prefix free of them. */
  lemma NoPrototypeRowStep(rows: seq<ColumnRow>, i: nat)
    requires i < |rows| && !NamesPrototypeKey(rows[..i]) && rows[i].tableName !in ObjectPrototypeKeys
    ensures !NamesPrototypeKey(rows[..i + 1])
  {
    var front, longer := rows[..i], rows[..i + 1];
    forall k | 0 <= k < i + 1 ensures longer[k].tableName !in ObjectPrototypeKeys {
      if k < i {
        assert longer[k] == front[k];
      }
    }
  }

  /** The loop exactly as written: `schema[name]` of a plain object finds the inherited member
      for a prototype name, which is truthy, so no list is created, and the `push` on it throws. */
  method GetSchemaAsWritten(rows: seq<ColumnRow>) returns (result: Result<map<string, seq<Column>>>)
    ensures result.Err? <==> NamesPrototypeKey(rows)
    ensures result.Err? ==> result.error == PushNotAFunction
    ensures result.Ok? ==> result.value.Keys == TableNames(rows)
    ensures result.Ok? ==> forall t :: t in result.value ==> result.value[t] == ColumnsOf(rows, t)
  {
    var schema: map<string, seq<Column>> := map[];
    for i := 0 to |rows|
      invariant !NamesPrototypeKey(rows[..i])
      invariant schema.Keys == TableNames(rows[..i])
      invariant forall t :: t in schema ==> schema[t] == ColumnsOf(rows[..i], t)
    {
      var r := rows[i];
      if r.tableName in ObjectPrototypeKeys {
        PrototypeRowWitness(rows, i);
        return Err(PushNotAFunction);
      }
      NoPrototypeRowStep(rows, i);
      TableNamesStep(rows, i);
      ColumnsOfStep(rows, i);
      if r.tableName !in schema {
        ColumnsOfNonEmpty(rows[..i], r.tableName);
        schema := schema[r.tableName := []];
      }
      schema := schema[r.tableName := schema[r.tableName] + [ColumnOf(r)]];
    }
    assert rows[..|rows|] == rows;
    return Ok(schema);
  }

  /** A database with a table called `constructor` (a legal table name) makes the tool fail. */
  lemma ConstructorTableBreaksSchema()
    ensures NamesPrototypeKey([ColumnRow("constructor", "id", "integer")])
  {
    var rows := [ColumnRow("constructor", "id", "integer")];
    assert rows[0].tableName in ObjectPrototypeKeys;
  }
}
