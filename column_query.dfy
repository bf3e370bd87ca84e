/**
 The catalog query of the Oracle column reader, stated as a selection
 predicate and an ordering over rows instead of SQL text: the database runs
 the query, and `Columns.Execute` receives the rows it returns.
 */
module ColumnQuery {
  import opened Wrappers
  import opened OracleColumns

  /** Oracle's own schemas, whose columns are never read. */
  const SystemOwners: set<string> :=
    {"SYS", "SYSMAN", "CTXSYS", "MDSYS", "OLAPSYS", "ORDSYS", "OUTLN", "WKSYS", "WMSYS", "XDB", "ORDPLUGINS", "SYSTEM"}

  /** `name LIKE 'BIN$%'`: a dropped table waiting in the recycle bin. */
  predicate IsRecycleBinName(name: string)
  {
    |name| >= 4 && name[..4] == "BIN$"
  }

  /**
   `column = :param OR :param IS NULL`: a null filter matches every value.
   Oracle binds a zero-length string as NULL, so an empty filter does too.
   */
  predicate FilterMatches(filter: Option<string>, value: string)
  {
    filter.None? || filter.value == "" || filter.value == value
  }

  /** The query's WHERE clause. */
  predicate Selected(row: CatalogRow, ownerFilter: Option<string>, tableFilter: Option<string>): (b: bool)
    ensures b ==> row.owner !in SystemOwners && !IsRecycleBinName(row.tableName)
    ensures b && ownerFilter.Some? && ownerFilter.value != "" ==> row.owner == ownerFilter.value
    ensures b && tableFilter.Some? && tableFilter.value != "" ==> row.tableName == tableFilter.value
    ensures row.owner !in SystemOwners && !IsRecycleBinName(row.tableName)
      && ownerFilter in {None, Some(""), Some(row.owner)}
      && tableFilter in {None, Some(""), Some(row.tableName)}
      ==> b
  {
    && !IsRecycleBinName(row.tableName)
    && FilterMatches(ownerFilter, row.owner)
    && row.owner !in SystemOwners
    && FilterMatches(tableFilter, row.tableName)
  }

  /** The catalog rows the WHERE clause keeps, each as often as the catalog holds it. */
  function SelectRows(catalog: seq<CatalogRow>, ownerFilter: Option<string>, tableFilter: Option<string>): (rows: seq<CatalogRow>)
    ensures forall r :: r in rows <==> r in catalog && Selected(r, ownerFilter, tableFilter)
    ensures forall x :: multiset(rows)[x] == if Selected(x, ownerFilter, tableFilter) then multiset(catalog)[x] else 0
  {
    if catalog == [] then []
    else
      var last := catalog[|catalog| - 1];
      var init := catalog[..|catalog| - 1];
      assert catalog == init + [last];
      SelectRows(init, ownerFilter, tableFilter)
        + (if Selected(last, ownerFilter, tableFilter) then [last] else [])
  }

  /** Strict lexicographic order on character codes. */
  predicate StrLess(a: string, b: string)
  {
    b != [] && (a == [] || a[0] < b[0] || (a[0] == b[0] && StrLess(a[1..], b[1..])))
  }

  predicate StrLessEq(a: string, b: string)
  {
    a == b || StrLess(a, b)
  }

  /** Ascending COLUMN_ID with Oracle's default NULLS LAST. */
  predicate ColumnIdLessEq(a: Option<int>, b: Option<int>)
  {
    match (a, b)
    case (Some(x), Some(y)) => x <= y
    case (_, None) => true
    case (None, Some(_)) => false
  }

  /** `ORDER BY OWNER, TABLE_NAME, COLUMN_ID`. */
  predicate RowKeyLessEq(a: CatalogRow, b: CatalogRow)
  {
    || StrLess(a.owner, b.owner)
    || (a.owner == b.owner && StrLess(a.tableName, b.tableName))
    || (a.owner == b.owner && a.tableName == b.tableName && ColumnIdLessEq(a.ordinalPosition, b.ordinalPosition))
  }

  predicate SortedByKey(rows: seq<CatalogRow>)
  {
    forall i, j :: 0 <= i < j < |rows| ==> RowKeyLessEq(rows[i], rows[j])
  }

  /** `rows` is a possible answer of the query on `catalog`: the selected rows, in query order. */
  ghost predicate IsQueryAnswer(catalog: seq<CatalogRow>, ownerFilter: Option<string>, tableFilter: Option<string>, rows: seq<CatalogRow>)
  {
    multiset(rows) == multiset(SelectRows(catalog, ownerFilter, tableFilter)) && SortedByKey(rows)
  }

  /** With both filters null, every row outside the system schemas and the recycle bin is selected. */
  lemma UnfilteredSelection(catalog: seq<CatalogRow>, r: CatalogRow)
    ensures r in SelectRows(catalog, None, None) <==>
      r in catalog && r.owner !in SystemOwners && !IsRecycleBinName(r.tableName)
  {
  }

  /**
   Mapping a query answer gives one column per selected catalog row: each
   column satisfies the filters, and every selected row has its column.
   */
  lemma QueryAnswerColumns(catalog: seq<CatalogRow>, ownerFilter: Option<string>, tableFilter: Option<string>, rows: seq<CatalogRow>)
    requires IsQueryAnswer(catalog, ownerFilter, tableFilter, rows)
    ensures |MapRows(rows)| == |SelectRows(catalog, ownerFilter, tableFilter)|
    ensures forall k :: 0 <= k < |rows| ==>
      var c := MapRows(rows)[k];
      && c.schemaOwner !in SystemOwners
      && !IsRecycleBinName(c.tableName)
      && FilterMatches(ownerFilter, c.schemaOwner)
      && FilterMatches(tableFilter, c.tableName)
    ensures forall r :: r in catalog && Selected(r, ownerFilter, tableFilter) ==> MapRow(r) in MapRows(rows)
  {
    var sel := SelectRows(catalog, ownerFilter, tableFilter);
    assert |rows| == |multiset(rows)| == |multiset(sel)| == |sel|;
    forall k | 0 <= k < |rows|
      ensures Selected(rows[k], ownerFilter, tableFilter)
    {
      assert rows[k] in multiset(rows);
    }
    forall r | r in catalog && Selected(r, ownerFilter, tableFilter)
      ensures MapRow(r) in MapRows(rows)
    {
      assert r in multiset(sel);
      var k :| 0 <= k < |rows| && rows[k] == r;
      assert MapRows(rows)[k] == MapRow(r);
    }
  }

  /**
   The columns of a sorted answer come grouped by owner, then table; within a
   table the ordinal does not decrease up to a row whose COLUMN_ID is present.
   */
  lemma {:induction false} SortedColumns(rows: seq<CatalogRow>)
    requires SortedByKey(rows)
    ensures forall i, j :: 0 <= i < j < |rows| ==>
      var a, b := MapRows(rows)[i], MapRows(rows)[j];
      && StrLessEq(a.schemaOwner, b.schemaOwner)
      && (a.schemaOwner == b.schemaOwner ==> StrLessEq(a.tableName, b.tableName))
      && (a.schemaOwner == b.schemaOwner && a.tableName == b.tableName && rows[j].ordinalPosition.Some?
          ==> a.ordinal <= b.ordinal)
  {
    forall i, j | 0 <= i < j < |rows|
      ensures
        var a, b := MapRows(rows)[i], MapRows(rows)[j];
        && StrLessEq(a.schemaOwner, b.schemaOwner)
        && (a.schemaOwner == b.schemaOwner ==> StrLessEq(a.tableName, b.tableName))
        && (a.schemaOwner == b.schemaOwner && a.tableName == b.tableName && rows[j].ordinalPosition.Some?
            ==> a.ordinal <= b.ordinal)
    {
      assert RowKeyLessEq(rows[i], rows[j]);
      StrLessIrreflexive(rows[i].owner);
      StrLessIrreflexive(rows[i].tableName);
    }
  }

  lemma {:induction false} StrLessIrreflexive(a: string)
    ensures !StrLess(a, a)
  {
    if a != [] {
      StrLessIrreflexive(a[1..]);
    }
  }

  lemma {:induction false} StrLessTotal(a: string, b: string)
    ensures a == b || StrLess(a, b) || StrLess(b, a)
  {
    if a != [] && b != [] && a[0] == b[0] {
      StrLessTotal(a[1..], b[1..]);
      if a[1..] == b[1..] {
        assert a == [a[0]] + a[1..] && b == [b[0]] + b[1..];
      }
    }
  }

  lemma {:induction false} StrLessTransitive(a: string, b: string, c: string)
    requires StrLess(a, b) && StrLess(b, c)
    ensures StrLess(a, c)
  {
    if a != [] && a[0] == b[0] && b[0] == c[0] {
      StrLessTransitive(a[1..], b[1..], c[1..]);
    }
  }

  /** Any two rows are comparable under the query's ordering. */
  lemma RowKeyTotal(a: CatalogRow, b: CatalogRow)
    ensures RowKeyLessEq(a, b) || RowKeyLessEq(b, a)
  {
    StrLessTotal(a.owner, b.owner);
    StrLessTotal(a.tableName, b.tableName);
  }

  /** The query's ordering is transitive. */
  lemma RowKeyTransitive(a: CatalogRow, b: CatalogRow, c: CatalogRow)
    requires RowKeyLessEq(a, b) && RowKeyLessEq(b, c)
    ensures RowKeyLessEq(a, c)
  {
    if StrLess(a.owner, b.owner) && StrLess(b.owner, c.owner) {
      StrLessTransitive(a.owner, b.owner, c.owner);
    }
    if a.owner == b.owner == c.owner && StrLess(a.tableName, b.tableName) && StrLess(b.tableName, c.tableName) {
      StrLessTransitive(a.tableName, b.tableName, c.tableName);
    }
  }

  /** A sequence whose neighbours are in query order is sorted throughout. */
  lemma {:induction false} SortedFromAdjacent(rows: seq<CatalogRow>)
    requires forall k :: 0 <= k < |rows| - 1 ==> RowKeyLessEq(rows[k], rows[k + 1])
    ensures SortedByKey(rows)
  {
    if |rows| > 1 {
      var init := rows[..|rows| - 1];
      SortedFromAdjacent(init);
      forall i | 0 <= i < |rows| - 1
        ensures RowKeyLessEq(rows[i], rows[|rows| - 1])
      {
        if i < |rows| - 2 {
          assert RowKeyLessEq(init[i], init[|rows| - 2]);
          RowKeyTransitive(rows[i], rows[|rows| - 2], rows[|rows| - 1]);
        }
      }
    }
  }

  /** NULLS LAST: within one table, a row with a null COLUMN_ID is followed only by such rows. */
  lemma NullColumnIdsLast(rows: seq<CatalogRow>)
    requires SortedByKey(rows)
    ensures forall i, j ::
      (0 <= i < j < |rows| && rows[i].owner == rows[j].owner
        && rows[i].tableName == rows[j].tableName && rows[i].ordinalPosition.None?)
      ==> rows[j].ordinalPosition.None?
  {
    forall i, j | 0 <= i < j < |rows| && rows[i].owner == rows[j].owner
      && rows[i].tableName == rows[j].tableName && rows[i].ordinalPosition.None?
      ensures rows[j].ordinalPosition.None?
    {
      assert RowKeyLessEq(rows[i], rows[j]);
      StrLessIrreflexive(rows[i].owner);
      StrLessIrreflexive(rows[i].tableName);
    }
  }

  /**
   Runs the reader on an answer of its own query: every column it appends
   satisfies the reader's owner and table filters and the exclusions.
   */
  method ExecuteQuery(reader: Columns, ghost catalog: seq<CatalogRow>, rows: seq<CatalogRow>)
    returns (columns: seq<DatabaseColumn>)
    requires IsQueryAnswer(catalog, reader.owner, reader.tableName, rows)
    modifies reader
    ensures columns == reader.Result == old(reader.Result) + MapRows(rows)
    ensures |columns| == |old(reader.Result)| + |SelectRows(catalog, reader.owner, reader.tableName)|
    ensures forall k :: |old(reader.Result)| <= k < |columns| ==>
      && columns[k].schemaOwner !in SystemOwners
      && !IsRecycleBinName(columns[k].tableName)
      && FilterMatches(reader.owner, columns[k].schemaOwner)
      && FilterMatches(reader.tableName, columns[k].tableName)
  {
    ghost var before := reader.Result;
    ghost var mapped := MapRows(rows);
    QueryAnswerColumns(catalog, reader.owner, reader.tableName, rows);
    columns := reader.Execute(rows);
    assert columns == before + mapped;
    forall k | |before| <= k < |columns|
      ensures && columns[k].schemaOwner !in SystemOwners
              && !IsRecycleBinName(columns[k].tableName)
              && FilterMatches(reader.owner, columns[k].schemaOwner)
              && FilterMatches(reader.tableName, columns[k].tableName)
    {
      assert columns[k] == mapped[k - |before|];
    }
  }

  /** A column with a null COLUMN_ID sorts last and gets ordinal 0, after larger ordinals. */
  lemma NullColumnIdSortsLast()
    ensures var rows := [
        CatalogRow("HR", "EMP", "ENAME", Some(2), "VARCHAR2", Some(10), Some(10), None, None, true, None),
        CatalogRow("HR", "EMP", "HIDDEN", None, "NUMBER", None, Some(22), None, None, true, None)];
      SortedByKey(rows) && MapRows(rows)[0].ordinal == 2 && MapRows(rows)[1].ordinal == 0
  {
  }
}
