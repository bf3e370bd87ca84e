/**
 The Oracle column reader: one row of `ALL_TAB_COLUMNS` becomes one
 canonical column, appended to the reader's result list.
 */
module OracleColumns {
  import opened Wrappers
  import opened Decimal
  import opened Trim

  /** One catalog row as the typed record readers return it; `None` is a database NULL. */
  datatype CatalogRow = CatalogRow(
    owner: string,
    tableName: string,
    columnName: string,
    ordinalPosition: Option<int>,   // COLUMN_ID
    dataType: string,
    charLength: Option<int>,
    dataLength: Option<int>,
    dataPrecision: Option<int>,
    dataScale: Option<int>,
    nullable: bool,
    dataDefault: Option<string>)

  /** The canonical column entity. */
  datatype DatabaseColumn = DatabaseColumn(
    schemaOwner: string,
    tableName: string,
    name: string,
    ordinal: int,
    dbDataType: string,
    length: Option<int>,
    precision: Option<int>,
    scale: Option<int>,
    nullable: bool,
    defaultValue: Option<string>)

  /** Characters stripped from both ends of a stored default expression. */
  const DefaultTrimChars: set<char> := {'\n', ' ', '\'', '='}

  /** The text types whose displayed name carries the character length. */
  predicate IsLengthAnnotatedType(dataType: string)
  {
    dataType == "NCHAR" || dataType == "NVARCHAR2" || dataType == "VARCHAR2"
  }

  /** C#'s lifted `<` on `int?`: false whenever the left operand is null. */
  predicate LiftedLess(a: Option<int>, b: int)
  {
    a.Some? && a.value < b
  }

  /** The displayed type name: text types get `(charLength)` appended, all others are left alone. */
  function AnnotateType(dataType: string, charLength: Option<int>): (r: string)
    ensures |r| >= |dataType| && r[..|dataType|] == dataType
    ensures r != dataType <==> IsLengthAnnotatedType(dataType)
  {
    if IsLengthAnnotatedType(dataType) then dataType + "(" + ShowNullable(charLength) + ")"
    else dataType
  }

  /** Splits `s` as `dataType(len)` for the given annotated type, when it has that shape. */
  function ParseAnnotationOf(s: string, dataType: string): Option<Option<int>>
  {
    var n := |dataType|;
    if |s| >= n + 2 && s[..n + 1] == dataType + "(" && s[|s| - 1] == ')'
    then ParseNullable(s[n + 1..|s| - 1])
    else None
  }

  /** Recovers the text type and its character length from a displayed type name. */
  function ParseAnnotation(s: string): Option<(string, Option<int>)>
  {
    match ParseAnnotationOf(s, "NCHAR")
    case Some(c) => Some(("NCHAR", c))
    case None =>
      match ParseAnnotationOf(s, "NVARCHAR2")
      case Some(c) => Some(("NVARCHAR2", c))
      case None =>
        match ParseAnnotationOf(s, "VARCHAR2")
        case Some(c) => Some(("VARCHAR2", c))
        case None => None
  }

  lemma ParseAnnotationOfAnnotated(dataType: string, charLength: Option<int>)
    ensures ParseAnnotationOf(dataType + "(" + ShowNullable(charLength) + ")", dataType) == Some(charLength)
  {
    var inner := ShowNullable(charLength);
    var s := dataType + "(" + inner + ")";
    var n := |dataType|;
    assert s[..n + 1] == dataType + "(";
    assert s[n + 1..|s| - 1] == inner;
    ParseShowNullable(charLength);
  }

  lemma ParseAnnotationOfMismatch(s: string, dataType: string, k: nat)
    requires k < |dataType| && k < |s| && s[k] != dataType[k]
    ensures ParseAnnotationOf(s, dataType) == None
  {
  }

  /** Annotating a text type loses nothing: type and character length can be read back. */
  lemma AnnotationRoundTrip(dataType: string, charLength: Option<int>)
    requires IsLengthAnnotatedType(dataType)
    ensures ParseAnnotation(AnnotateType(dataType, charLength)) == Some((dataType, charLength))
  {
    var s := AnnotateType(dataType, charLength);
    assert s == dataType + "(" + ShowNullable(charLength) + ")";
    ParseAnnotationOfAnnotated(dataType, charLength);
    if dataType == "NCHAR" {
      assert ParseAnnotationOf(s, "NCHAR") == Some(charLength);
    } else {
      ParseAnnotationOfMismatch(s, "NCHAR", 1);
      if dataType == "NVARCHAR2" {
        assert ParseAnnotationOf(s, "NVARCHAR2") == Some(charLength);
      } else {
        ParseAnnotationOfMismatch(s, "NVARCHAR2", 0);
        assert ParseAnnotationOf(s, "VARCHAR2") == Some(charLength);
      }
    }
  }

  /** Two character lengths never produce the same displayed text type. */
  lemma AnnotationInjective(dataType: string, c1: Option<int>, c2: Option<int>)
    requires IsLengthAnnotatedType(dataType)
    requires AnnotateType(dataType, c1) == AnnotateType(dataType, c2)
    ensures c1 == c2
  {
    AnnotationRoundTrip(dataType, c1);
    AnnotationRoundTrip(dataType, c2);
  }

  /** `Length`: the character length, replaced by the byte length only when it is present and below 1. */
  function ColumnLength(charLength: Option<int>, dataLength: Option<int>): (r: Option<int>)
    ensures r == charLength || r == dataLength
    ensures r != charLength ==> charLength.Some? && charLength.value < 1
    ensures LiftedLess(charLength, 1) ==> r == dataLength
    ensures charLength.None? ==> r.None?
  {
    if LiftedLess(charLength, 1) then dataLength else charLength
  }

  /** The stored default: a non-empty value is trimmed, null and empty are kept as they are. */
  function StoredDefault(d: Option<string>): (r: Option<string>)
    ensures r.None? <==> d.None?
    ensures d.Some? ==> IsTrimOf(d.value, DefaultTrimChars, r.value)
  {
    if d.None? || d.value == "" then
      assert d.Some? ==> TrimmedAt(d.value, DefaultTrimChars, 0, 0) && d.value == d.value[0..0];
      d
    else Some(TrimSet(d.value, DefaultTrimChars))
  }

  /** The column one catalog row maps to. */
  function MapRow(row: CatalogRow): (col: DatabaseColumn)
    ensures col.schemaOwner == row.owner && col.tableName == row.tableName && col.name == row.columnName
    ensures IsLengthAnnotatedType(row.dataType) ==> ParseAnnotation(col.dbDataType) == Some((row.dataType, row.charLength))
    ensures !IsLengthAnnotatedType(row.dataType) ==> col.dbDataType == row.dataType
    ensures col.length != row.charLength ==> LiftedLess(row.charLength, 1) && col.length == row.dataLength
    ensures LiftedLess(row.charLength, 1) ==> col.length == row.dataLength
    ensures row.dataDefault.Some? ==> col.defaultValue.Some? && IsTrimOf(row.dataDefault.value, DefaultTrimChars, col.defaultValue.value)
  {
    var dbDataType := AnnotateType(row.dataType, row.charLength);
    assert IsLengthAnnotatedType(row.dataType) ==> ParseAnnotation(dbDataType) == Some((row.dataType, row.charLength)) by {
      if IsLengthAnnotatedType(row.dataType) {
        AnnotationRoundTrip(row.dataType, row.charLength);
      }
    }
    DatabaseColumn(
      schemaOwner := row.owner,
      tableName := row.tableName,
      name := row.columnName,
      ordinal := match row.ordinalPosition case Some(p) => p case None => 0,
      dbDataType := dbDataType,
      length := ColumnLength(row.charLength, row.dataLength),
      precision := row.dataPrecision,
      scale := row.dataScale,
      nullable := row.nullable,
      defaultValue := StoredDefault(row.dataDefault))
  }

  /** The columns a sequence of rows maps to, appended in row order. */
  function MapRows(rows: seq<CatalogRow>): (cols: seq<DatabaseColumn>)
    ensures |cols| == |rows|
    ensures forall k :: 0 <= k < |rows| ==> cols[k] == MapRow(rows[k])
  {
    if rows == [] then [] else MapRows(rows[..|rows| - 1]) + [MapRow(rows[|rows| - 1])]
  }

  lemma MapRowTextType(row: CatalogRow)
    requires IsLengthAnnotatedType(row.dataType)
    ensures MapRow(row).dbDataType == row.dataType + "(" + ShowNullable(row.charLength) + ")"
    ensures row.charLength.None? ==> MapRow(row).dbDataType == row.dataType + "()"
  {
  }

  lemma MapRowOtherType(row: CatalogRow)
    requires !IsLengthAnnotatedType(row.dataType)
    ensures MapRow(row).dbDataType == row.dataType
  {
  }

  lemma MapRowOrdinal(row: CatalogRow)
    ensures row.ordinalPosition.Some? ==> MapRow(row).ordinal == row.ordinalPosition.value
    ensures row.ordinalPosition.None? ==> MapRow(row).ordinal == 0
  {
  }

  lemma MapRowLength(row: CatalogRow)
    ensures row.charLength.Some? && row.charLength.value >= 1 ==> MapRow(row).length == row.charLength
    ensures row.charLength.Some? && row.charLength.value < 1 ==> MapRow(row).length == row.dataLength
    ensures row.charLength.None? ==> MapRow(row).length == None
  {
  }

  lemma MapRowCopiesFields(row: CatalogRow)
    ensures MapRow(row).schemaOwner == row.owner
    ensures MapRow(row).tableName == row.tableName
    ensures MapRow(row).name == row.columnName
    ensures MapRow(row).precision == row.dataPrecision
    ensures MapRow(row).scale == row.dataScale
    ensures MapRow(row).nullable == row.nullable
  {
  }

  /**
   The stored default is null exactly when the catalog's is, an empty default
   stays empty, and otherwise it is the catalog text with the trim set
   removed from both ends and nothing else changed.
   */
  lemma MapRowDefault(row: CatalogRow)
    ensures MapRow(row).defaultValue.None? <==> row.dataDefault.None?
    ensures row.dataDefault == Some("") ==> MapRow(row).defaultValue == Some("")
    ensures row.dataDefault.Some? ==> IsTrimOf(row.dataDefault.value, DefaultTrimChars, MapRow(row).defaultValue.value)
  {
  }

  /** Storing a default a second time changes nothing. */
  lemma StoredDefaultIdempotent(d: Option<string>)
    ensures StoredDefault(StoredDefault(d)) == StoredDefault(d)
  {
    if d.Some? && d.value != "" {
      TrimIdempotent(d.value, DefaultTrimChars);
    }
  }

  /** Outer spaces and quotes go, as in a default written `  'ABC' `. */
  lemma DefaultTrimExample()
    ensures StoredDefault(Some("  'ABC' ")) == Some("ABC")
  {
    var s := "  'ABC' ";
    assert TrimmedAt(s, DefaultTrimChars, 3, 6);
    assert s[3..6] == "ABC";
    TrimUnique(s, DefaultTrimChars, "ABC");
  }

  /** A carriage return is not in the trim set and shields the quote before it. */
  lemma DefaultCarriageReturnKept()
    ensures StoredDefault(Some("'x'\r\n")) == Some("x'\r")
  {
    var s := "'x'\r\n";
    assert TrimmedAt(s, DefaultTrimChars, 1, 4);
    assert s[1..4] == "x'\r";
    TrimUnique(s, DefaultTrimChars, "x'\r");
  }

  /**
   Re-deriving the displayed type from the stored length reproduces it, as
   long as the character length was null or at least 1.
   */
  lemma RederiveDisplayType(row: CatalogRow)
    requires !LiftedLess(row.charLength, 1)
    ensures AnnotateType(row.dataType, MapRow(row).length) == MapRow(row).dbDataType
  {
  }

  /** With a character length below 1 the stored length no longer matches the displayed type. */
  lemma RederiveDisplayTypeFails()
    ensures var row := CatalogRow("HR", "EMP", "CODE", Some(1), "NCHAR", Some(0), Some(4), None, None, true, None);
      AnnotateType(row.dataType, MapRow(row).length) != MapRow(row).dbDataType
  {
    assert ShowNullable(Some(4)) == "4" && ShowNullable(Some(0)) == "0";
    assert AnnotateType("NCHAR", Some(4))[6] != AnnotateType("NCHAR", Some(0))[6];
  }

  /** A `VARCHAR2` column of 10 characters in `HR.EMP`. */
  lemma VarcharScenario()
    ensures MapRow(CatalogRow("HR", "EMP", "ENAME", Some(2), "VARCHAR2", Some(10), Some(10), None, None, true, None))
      == DatabaseColumn("HR", "EMP", "ENAME", 2, "VARCHAR2(10)", Some(10), None, None, true, None)
  {
    assert ShowNullable(Some(10)) == "10";
  }

  /** The reader: filter values fixed at construction, and the list `Mapper` appends to. */
  class Columns {
    const commandTimeout: Option<int>
    const owner: Option<string>
    const tableName: Option<string>
    var Result: seq<DatabaseColumn>

    constructor(commandTimeout: Option<int>, owner: Option<string>, tableName: Option<string>)
      ensures this.commandTimeout == commandTimeout
      ensures this.owner == owner && this.tableName == tableName
      ensures Result == []
    {
      this.commandTimeout := commandTimeout;
      this.tableName := tableName;
      this.owner := owner;
      Result := [];
    }

    /** Builds the column for `row` and appends it; earlier columns are kept as they are. */
    method Mapper(row: CatalogRow)
      modifies this
      ensures Result == old(Result) + [MapRow(row)]
    {
      var dbDataTypeWithLength := row.dataType;
      if IsLengthAnnotatedType(row.dataType) {
        dbDataTypeWithLength := row.dataType + "(" + ShowNullable(row.charLength) + ")";
      }
      var col := DatabaseColumn(
        schemaOwner := row.owner,
        tableName := row.tableName,
        name := row.columnName,
        ordinal := if row.ordinalPosition.Some? then row.ordinalPosition.value else 0,
        dbDataType := dbDataTypeWithLength,
        length := row.charLength,
        precision := row.dataPrecision,
        scale := row.dataScale,
        nullable := row.nullable,
        defaultValue := None);
      if LiftedLess(col.length, 1) {
        col := col.(length := row.dataLength);
      }
      var d := row.dataDefault;
      if d.Some? && d.value != "" {
        d := Some(TrimSet(d.value, DefaultTrimChars));
      }
      col := col.(defaultValue := d);
      Result := Result + [col];
    }

    /** Maps every row the query returned, in order, and returns the accumulated list. */
    method Execute(rows: seq<CatalogRow>) returns (columns: seq<DatabaseColumn>)
      modifies this
      ensures Result == old(Result) + MapRows(rows)
      ensures columns == Result
    {
      var i := 0;
      while i < |rows|
        invariant 0 <= i <= |rows|
        invariant Result == old(Result) + MapRows(rows[..i])
      {
        assert rows[..i + 1][..i] == rows[..i];
        Mapper(rows[i]);
        i := i + 1;
      }
      assert rows[..i] == rows;
      columns := Result;
    }
  }
}
