# Oracle column reader — a Dafny model

This project models the column reader of DatabaseSchemaReader's Oracle provider
(`DatabaseSchemaReader/ProviderSchemaReaders/Databases/Oracle/Columns.cs`). The reader queries `ALL_TAB_COLUMNS`. It turns each returned catalog row
into a canonical `DatabaseColumn` and appends that column to its `Result` list.

The modules follow the pieces of that file:

- `Wrappers` (`wrappers.dfy`): `Option`, which stands for a database NULL or a C# `null`.
- `Decimal` (`decimal.dfy`): the text C# produces when an `int?` is concatenated into a string.
  A null value gives `""`. Any other value gives its decimal digits, with a leading `-` when negative.
  A parser is included and proved to read that text back.
- `Trim` (`trim.dfy`): .NET's `String.Trim(params char[])`, for a non-empty set of characters, as `TrimSet`.
  It cuts at two indices: `StartCut` skips the leading trim characters, `EndCut` the trailing ones.
  `IsTrimOf` characterises its result on its own terms. `TrimSet` is proved to meet it.
  The characterisation is proved to determine the result uniquely, and trimming is proved idempotent.
- `OracleColumns` (`oracle_columns.dfy`): the row and column datatypes, and the per-field rules.
  `AnnotateType` builds the displayed type, `ColumnLength` the length and `StoredDefault` the default.
  `MapRow` is the pure specification of one mapping.
  The class `Columns` holds the filter values and `Result`. Its method `Mapper` builds a column step by step,
  as the C# does: it overwrites the length, reassigns the default and appends. It is proved equal to `MapRow`.
  `Execute` runs `Mapper` over the returned rows in a loop.
- `ColumnQuery` (`column_query.dfy`): the query's `WHERE` clause as the predicate `Selected`.
  `SelectRows` filters a catalog with it. The `ORDER BY` clause is the predicate `SortedByKey`.
  Its key comparison `RowKeyLessEq` is proved total and transitive.
  `IsQueryAnswer` says which row sequences the database may return.

Two C# behaviours are reproduced on purpose:

- The lifted `col.Length < 1` is false when the length is null.
  So a null `CHAR_LENGTH` leaves `Length` null, and `DATA_LENGTH` is not consulted.
- Concatenating a null `int?` adds nothing, so a `VARCHAR2` with a null `CHAR_LENGTH` is shown as `VARCHAR2()`.

Where the behaviour one might expect and the code differ, the model follows the code:

- One might expect a character length that is absent or below 1 to fall back to the byte length.
  The code falls back only when the length is present and below 1.
- One might expect an empty default to become absent. The code stores an empty default as `""`.
- One might expect re-deriving the displayed type from the stored length to reproduce it for every row.
  It is proved whenever `CHAR_LENGTH` is null or at least 1 (`RederiveDisplayType`).
  It can fail for a text type whose `CHAR_LENGTH` is below 1 and differs from `DATA_LENGTH` (`RederiveDisplayTypeFails`).

## Model

| member | source | states |
|---|---|---|
| `OracleColumns.AnnotateType` | DatabaseSchemaReader/ProviderSchemaReaders/Databases/Oracle/Columns.cs:57-67 | The displayed type always starts with `DATA_TYPE`. It differs from `DATA_TYPE` exactly when the type is `NCHAR`, `NVARCHAR2` or `VARCHAR2`. |
| `OracleColumns.MapRowTextType` | DatabaseSchemaReader/ProviderSchemaReaders/Databases/Oracle/Columns.cs:60-64 | For the three text types, `DbDataType` is `DATA_TYPE + "(" + CHAR_LENGTH + ")"`. A null length gives e.g. `VARCHAR2()`. |
| `OracleColumns.MapRowOtherType` | DatabaseSchemaReader/ProviderSchemaReaders/Databases/Oracle/Columns.cs:60-67 | Every other type, `CHAR` and `NUMBER` included, is kept unchanged. |
| `OracleColumns.AnnotationRoundTrip` | DatabaseSchemaReader/ProviderSchemaReaders/Databases/Oracle/Columns.cs:60-64 | From an annotated text type, the type name and the nullable character length can be parsed back. |
| `OracleColumns.AnnotationInjective` | DatabaseSchemaReader/ProviderSchemaReaders/Databases/Oracle/Columns.cs:60-64 | Two different character lengths never give the same displayed text type. |
| `OracleColumns.MapRow` | DatabaseSchemaReader/ProviderSchemaReaders/Databases/Oracle/Columns.cs:50-91 | A column keeps its row's owner, table and name. A text type's character length can be read back from the displayed type; other types are shown as they are. The length is `DATA_LENGTH` when `CHAR_LENGTH` is present and below 1, and `CHAR_LENGTH` otherwise. A present default is stored trimmed. |
| `OracleColumns.ColumnLength` | DatabaseSchemaReader/ProviderSchemaReaders/Databases/Oracle/Columns.cs:76-84 | The length is one of the two catalog lengths. A present `CHAR_LENGTH` below 1 is replaced by `DATA_LENGTH` (possibly null), and only then does the length differ from `CHAR_LENGTH`. A null `CHAR_LENGTH` gives a null length. |
| `OracleColumns.StoredDefault` | DatabaseSchemaReader/ProviderSchemaReaders/Databases/Oracle/Columns.cs:85-90 | The stored default is null exactly when the catalog's is. A present default is stored as its trimmed value, `""` included. |
| `OracleColumns.MapRowOrdinal` | DatabaseSchemaReader/ProviderSchemaReaders/Databases/Oracle/Columns.cs:74 | `Ordinal` is the `COLUMN_ID` when present, and 0 when it is null. |
| `OracleColumns.MapRowLength` | DatabaseSchemaReader/ProviderSchemaReaders/Databases/Oracle/Columns.cs:76-84 | `Length` is `CHAR_LENGTH` when that is at least 1. It is `DATA_LENGTH` (possibly null) when `CHAR_LENGTH` is below 1. It is null when `CHAR_LENGTH` is null. |
| `OracleColumns.MapRowCopiesFields` | DatabaseSchemaReader/ProviderSchemaReaders/Databases/Oracle/Columns.cs:69-79 | Owner, table, name, precision, scale and nullability are copied unchanged. |
| `OracleColumns.MapRowDefault` | DatabaseSchemaReader/ProviderSchemaReaders/Databases/Oracle/Columns.cs:85-90 | A null default stays null and `""` stays `""`. Any other default is the catalog text with the trim characters removed from both ends and nothing else changed. |
| `OracleColumns.StoredDefaultIdempotent` | DatabaseSchemaReader/ProviderSchemaReaders/Databases/Oracle/Columns.cs:85-90 | Applying the default rule to an already stored default changes nothing. |
| `OracleColumns.DefaultTrimExample` | DatabaseSchemaReader/ProviderSchemaReaders/Databases/Oracle/Columns.cs:88 | The default `  'ABC' ` is stored as `ABC`. |
| `OracleColumns.DefaultCarriageReturnKept` | DatabaseSchemaReader/ProviderSchemaReaders/Databases/Oracle/Columns.cs:88 | A carriage return is not trimmed. It also shields the quote before it: `'x'\r\n` is stored as `x'\r`. |
| `OracleColumns.RederiveDisplayType` | DatabaseSchemaReader/ProviderSchemaReaders/Databases/Oracle/Columns.cs:60-84 | When `CHAR_LENGTH` is null or at least 1, annotating `DATA_TYPE` with the stored `Length` reproduces the stored `DbDataType`. |
| `OracleColumns.RederiveDisplayTypeFails` | DatabaseSchemaReader/ProviderSchemaReaders/Databases/Oracle/Columns.cs:64-84 | With `CHAR_LENGTH` 0 and `DATA_LENGTH` 4, that re-derivation gives a different type name. |
| `OracleColumns.VarcharScenario` | DatabaseSchemaReader/ProviderSchemaReaders/Databases/Oracle/Columns.cs:52-90 | `HR.EMP.ENAME`, a `VARCHAR2` with `CHAR_LENGTH` 10, maps to `VARCHAR2(10)` with length 10, ordinal 2 and a null default. |
| `OracleColumns.MapRows` | DatabaseSchemaReader/ProviderSchemaReaders/Databases/Oracle/Columns.cs:37-41 | Mapping n rows gives n columns. Column k is the mapping of row k. |
| `OracleColumns.Columns.constructor` | DatabaseSchemaReader/ProviderSchemaReaders/Databases/Oracle/Columns.cs:13-17 | The reader keeps its owner and table filters and starts with an empty `Result`. |
| `OracleColumns.Columns.Mapper` | DatabaseSchemaReader/ProviderSchemaReaders/Databases/Oracle/Columns.cs:50-92 | `Result` grows by exactly one element, the mapped column. All earlier elements are unchanged. |
| `OracleColumns.Columns.Execute` | DatabaseSchemaReader/ProviderSchemaReaders/Databases/Oracle/Columns.cs:37-41 | `Result` is extended by the mapped rows, in row order, and is returned. |
| `Decimal.Digits` | DatabaseSchemaReader/ProviderSchemaReaders/Databases/Oracle/Columns.cs:64 | The decimal rendering of a non-negative length is non-empty and all digits. It has no leading zero, and 0 is written as `0`. |
| `Decimal.ShowInt` | DatabaseSchemaReader/ProviderSchemaReaders/Databases/Oracle/Columns.cs:64 | The rendering of an integer is non-empty. It starts with `-` exactly when the integer is negative. |
| `Decimal.ShowNullable` | DatabaseSchemaReader/ProviderSchemaReaders/Databases/Oracle/Columns.cs:64 | A nullable integer renders as `""` exactly when it is null. |
| `Decimal.ParseDigitsOfDigits` | DatabaseSchemaReader/ProviderSchemaReaders/Databases/Oracle/Columns.cs:64 | Parsing the digits of n gives back n. |
| `Decimal.ParseShowInt` | DatabaseSchemaReader/ProviderSchemaReaders/Databases/Oracle/Columns.cs:64 | Parsing the rendering of any integer gives it back. |
| `Decimal.ParseShowNullable` | DatabaseSchemaReader/ProviderSchemaReaders/Databases/Oracle/Columns.cs:64 | Parsing the rendering of a nullable integer gives it back, null included. |
| `Trim.StartCut` | DatabaseSchemaReader/ProviderSchemaReaders/Databases/Oracle/Columns.cs:88 | From a start index, skips exactly the trim characters: everything skipped is in the set, and the character it stops at is not. |
| `Trim.EndCut` | DatabaseSchemaReader/ProviderSchemaReaders/Databases/Oracle/Columns.cs:88 | From an end index back to a lower bound, drops exactly the trailing trim characters: everything dropped is in the set, and the last character kept is not. |
| `Trim.TrimSet` | DatabaseSchemaReader/ProviderSchemaReaders/Databases/Oracle/Columns.cs:88 | The result is a contiguous slice of the input. Only trim characters lie outside it. A non-empty result starts and ends with a character outside the set. |
| `Trim.TrimmedAtUnique` | DatabaseSchemaReader/ProviderSchemaReaders/Databases/Oracle/Columns.cs:88 | Any two cuts meeting that description keep the same characters. |
| `Trim.TrimUnique` | DatabaseSchemaReader/ProviderSchemaReaders/Databases/Oracle/Columns.cs:88 | Any value meeting that description is the trimmed value. |
| `Trim.TrimIdempotent` | DatabaseSchemaReader/ProviderSchemaReaders/Databases/Oracle/Columns.cs:88 | Trimming a trimmed value returns it unchanged. |
| `ColumnQuery.Selected` | DatabaseSchemaReader/ProviderSchemaReaders/Databases/Oracle/Columns.cs:29-33 | A selected row is outside the 12 system schemas and the recycle bin, and matches every non-empty filter exactly. Conversely, such a row is selected whenever each filter is null, empty or equal to its value. |
| `ColumnQuery.SelectRows` | DatabaseSchemaReader/ProviderSchemaReaders/Databases/Oracle/Columns.cs:29-33 | A catalog row is kept exactly when all four hold: its table name does not start with `BIN$`; the owner filter is null, empty or equal to its owner; its owner is not one of the 12 system schemas; the table filter is null, empty or equal to its table name. Each kept row appears as often as in the catalog, and a row not selected never appears. |
| `ColumnQuery.UnfilteredSelection` | DatabaseSchemaReader/ProviderSchemaReaders/Databases/Oracle/Columns.cs:29-33 | With both filters null, exactly the rows outside the system schemas and the recycle bin are selected. |
| `ColumnQuery.QueryAnswerColumns` | DatabaseSchemaReader/ProviderSchemaReaders/Databases/Oracle/Columns.cs:29-41 | For any answer the query may return, the mapped list has one column per selected row. Every column satisfies the owner and table filters and the exclusions. Every selected row's column is in the list. |
| `ColumnQuery.RowKeyTotal` | DatabaseSchemaReader/ProviderSchemaReaders/Databases/Oracle/Columns.cs:34 | Any two rows are comparable under `ORDER BY OWNER, TABLE_NAME, COLUMN_ID`. |
| `ColumnQuery.RowKeyTransitive` | DatabaseSchemaReader/ProviderSchemaReaders/Databases/Oracle/Columns.cs:34 | That ordering is transitive. |
| `ColumnQuery.SortedFromAdjacent` | DatabaseSchemaReader/ProviderSchemaReaders/Databases/Oracle/Columns.cs:34 | A row sequence whose neighbours are in query order is sorted in full. |
| `ColumnQuery.SortedColumns` | DatabaseSchemaReader/ProviderSchemaReaders/Databases/Oracle/Columns.cs:34 | Columns of a sorted answer are ordered by owner, then table. Within a table, ordinals do not decrease up to a row whose `COLUMN_ID` is present. |
| `ColumnQuery.NullColumnIdsLast` | DatabaseSchemaReader/ProviderSchemaReaders/Databases/Oracle/Columns.cs:34 | In a sorted answer, within one owner and table, a row with a null `COLUMN_ID` is followed only by rows whose `COLUMN_ID` is null too. |
| `ColumnQuery.NullColumnIdSortsLast` | DatabaseSchemaReader/ProviderSchemaReaders/Databases/Oracle/Columns.cs:34 | Example: a row with `COLUMN_ID` 2 followed by one with a null `COLUMN_ID` is sorted, and their columns get ordinals 2 then 0. |
| `ColumnQuery.ExecuteQuery` | DatabaseSchemaReader/ProviderSchemaReaders/Databases/Oracle/Columns.cs:13-41 | A reader run on an answer of its own query appends one column per selected catalog row. Each new column is outside the system schemas and the recycle bin and matches the reader's owner and table filters. |

## Left out

- Connection and command plumbing is not modelled: `ExecuteDbReader`, `IConnectionAdapter`, `DbCommand` creation and disposal, and exception propagation. The base class `OracleSqlExecuter` is not part of this model. `Execute` takes the rows the database returned as its input. `Result` is taken to start empty, since the base class that creates it is outside this model.
- `AddParameters`, `EnsureOracleBindByName` and `AddDbParameter` are not modelled as driver calls. The nullable owner and table filters are `Option` values, and `FilterMatches` gives a null filter its "match anything" meaning.
- An empty owner or table filter is bound as NULL by Oracle, so `FilterMatches` treats `""` like a null filter; the driver's handling of the value before binding is not modelled.
- The command timeout is stored by the constructor and has no other effect in the model.
- The SQL text is not kept as a string. Its `WHERE` clause is `Selected` and its `ORDER BY` is `SortedByKey`. `LIKE 'BIN$%'` is a prefix test. Oracle's collation is taken to be character-code order (`StrLess`). Query execution itself belongs to the database.
- The record readers `GetString`, `GetNullableInt` and `GetBoolean` are not modelled. A row arrives with its fields already typed, and `NULLABLE` arrives as a bool. A missing required field, which fails inside those readers, therefore cannot be expressed.
- Integers are unbounded. Catalog lengths, positions, precisions and scales are far inside the 32-bit range.
- `Decimal.ShowInt`: uses the invariant culture's `-` for negative numbers; a culture with another negative sign is not modelled.
