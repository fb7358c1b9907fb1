/**
 * The Oracle support of the first package: the DDL of the schema metadata table, the
 * product-name test and the DDL-transaction flag.
 */
module LegacyOracleDbSupport {
  import opened Wrappers
  import opened JavaStrings

  /** A column of the metadata table: its name and the rest of its definition. */
  datatype Column = Column(name: string, definition: string)

  /** The columns of the metadata table, in table order. */
  const Columns: seq<Column> := [
    Column("version", "VARCHAR2(20) NOT NULL PRIMARY KEY"),
    Column("description", "VARCHAR2(100)"),
    Column("script", "VARCHAR2(100) NOT NULL UNIQUE"),
    Column("installed_on", "TIMESTAMP DEFAULT CURRENT_TIMESTAMP"),
    Column("execution_time", "INT"),
    Column("state", "VARCHAR2(15) NOT NULL"),
    Column("current_version", "NUMBER(1) NOT NULL")]

  /** How a column appears in the statement: indented, and followed by a comma unless it is the last. */
  function ColumnText(c: Column, last: bool): string {
    "    " + c.name + " " + c.definition + (if last then "" else ",")
  }

  function ColumnList(cs: seq<Column>): string
    decreases |cs|
  {
    if cs == [] then ""
    else if |cs| == 1 then ColumnText(cs[0], true)
    else ColumnText(cs[0], false) + ColumnList(cs[1..])
  }

  /** Where the text of column `i` starts in the column list. */
  function ColumnOffset(cs: seq<Column>, i: nat): nat
    requires i <= |cs|
  {
    if i == 0 then 0 else |ColumnText(cs[0], |cs| == 1)| + ColumnOffset(cs[1..], i - 1)
  }

  /** The column definitions as the create-table statement holds them. */
  function ColumnsText(): string {
    ColumnList(Columns)
  }

  lemma ColumnTextStartsWithName(c: Column, last: bool)
    ensures StartsWith(ColumnText(c, last), "    " + c.name + " ")
  {
    var p := "    " + c.name + " ";
    assert ColumnText(c, last) == p + (c.definition + (if last then "" else ","));
  }

  lemma {:induction false} ColumnOffsetStep(cs: seq<Column>, i: nat)
    requires i < |cs|
    ensures ColumnOffset(cs, i + 1) == ColumnOffset(cs, i) + |ColumnText(cs[i], i == |cs| - 1)|
    decreases i
  {
    if i > 0 {
      ColumnOffsetStep(cs[1..], i - 1);
    }
  }

  lemma SliceAfterPrefix(a: string, b: string, k: nat, n: nat)
    requires k + n <= |b|
    ensures (a + b)[|a| + k..|a| + k + n] == b[k..k + n]
  {
  }

  /** The offsets grow with the index: each column's text is not empty. */
  lemma ColumnOffsetsIncrease(cs: seq<Column>, i: nat)
    requires i < |cs|
    ensures ColumnOffset(cs, i) < ColumnOffset(cs, i + 1)
  {
    ColumnOffsetStep(cs, i);
  }

  /**
   * Each column's indented name starts at its offset: with the offsets growing, the
   * columns appear in the list in the order they are given.
   */
  lemma {:induction false} ColumnOrder(cs: seq<Column>, i: nat)
    requires i < |cs|
    ensures OccursAt(ColumnList(cs), "    " + cs[i].name + " ", ColumnOffset(cs, i))
    decreases i
  {
    var p := "    " + cs[i].name + " ";
    var head := ColumnText(cs[0], |cs| == 1);
    var whole := ColumnList(cs);
    if i == 0 {
      ColumnTextStartsWithName(cs[0], |cs| == 1);
      assert whole == head || whole == head + ColumnList(cs[1..]);
      assert whole[..|p|] == head[..|p|];
    } else {
      ColumnOrder(cs[1..], i - 1);
      var tail := ColumnList(cs[1..]);
      assert whole == head + tail;
      var k := ColumnOffset(cs[1..], i - 1);
      assert ColumnOffset(cs, i) == |head| + k;
      SliceAfterPrefix(head, tail, k, |p|);
      assert cs[1..][i - 1] == cs[i];
    }
  }

  /** In the metadata table: version, description, script, installed_on, execution_time, state, current_version. */
  lemma MetaDataColumnsInOrder()
    ensures forall i :: 0 <= i < |Columns| ==> OccursAt(ColumnsText(), "    " + Columns[i].name + " ", ColumnOffset(Columns, i))
    ensures forall i :: 0 <= i < |Columns| - 1 ==> ColumnOffset(Columns, i) < ColumnOffset(Columns, i + 1)
  {
    forall i | 0 <= i < |Columns|
      ensures OccursAt(ColumnsText(), "    " + Columns[i].name + " ", ColumnOffset(Columns, i))
      ensures ColumnOffset(Columns, i) < ColumnOffset(Columns, i + 1)
    {
      ColumnOrder(Columns, i);
      ColumnOffsetsIncrease(Columns, i);
    }
  }

  /** The create-table statement around a column list. */
  function CreateTableSql(tableName: string, columns: string): (r: string)
    ensures StartsWith(r, "CREATE TABLE " + tableName + " (") && EndsWith(r, ")")
  {
    var head := "CREATE TABLE " + tableName + " (";
    var r := head + columns + ")";
    assert r[..|head|] == head;
    assert r[|r| - 1..] == ")";
    r
  }

  /** The statement adding the index on current_version. */
  function AddIndexSql(tableName: string): (r: string)
    ensures StartsWith(r, "ALTER TABLE " + tableName + " ADD INDEX " + tableName)
  {
    var head := "ALTER TABLE " + tableName + " ADD INDEX " + tableName;
    var r := head + "_current_version_index (current_version)";
    assert r[..|head|] == head;
    r
  }

  /** createSchemaMetaDataTableSql: the create-table statement, then the index statement. */
  function CreateSchemaMetaDataTableSql(tableName: string): (r: seq<string>)
    ensures |r| == 2
    ensures StartsWith(r[0], "CREATE TABLE " + tableName + " (") && EndsWith(r[0], ")")
    ensures StartsWith(r[1], "ALTER TABLE " + tableName + " ADD INDEX " + tableName)
  {
    [CreateTableSql(tableName, ColumnsText()), AddIndexSql(tableName)]
  }

  /** The create-table statement is the table name wrapped around the fixed column list. */
  lemma CreateTableAroundColumns(tableName: string)
    ensures CreateSchemaMetaDataTableSql(tableName)[0] == "CREATE TABLE " + tableName + " (" + ColumnsText() + ")"
    ensures CreateSchemaMetaDataTableSql(tableName)[1]
         == "ALTER TABLE " + tableName + " ADD INDEX " + tableName + "_current_version_index (current_version)"
  {
  }

  /** A text built from fixed pieces around two copies of a name determines the name. */
  lemma TwiceEmbeddedDetermines(a: string, b: string, c: string, t: string, u: string)
    requires a + t + b + t + c == a + u + b + u + c
    ensures t == u
  {
    var x := a + t + b + t + c;
    assert |t| == |u|;
    assert x[|a|..|a| + |t|] == t;
    assert (a + u + b + u + c)[|a|..|a| + |u|] == u;
  }

  /** Different table names give different DDL. */
  lemma DdlDeterminesTable(t: string, u: string)
    requires CreateSchemaMetaDataTableSql(t) == CreateSchemaMetaDataTableSql(u)
    ensures t == u
  {
    CreateTableAroundColumns(t);
    CreateTableAroundColumns(u);
    TwiceEmbeddedDetermines("ALTER TABLE ", " ADD INDEX ", "_current_version_index (current_version)", t, u);
  }

  /** supportsDatabase: exactly the product name "Oracle". */
  function SupportsDatabase(databaseProductName: Option<string>): (r: bool)
    ensures r <==> databaseProductName == Some("Oracle")
  {
    databaseProductName.Some? && databaseProductName.value == "Oracle"
  }

  /** supportsDdlTransactions: always true. */
  function SupportsDdlTransactions(): (r: bool)
    ensures r
  {
    true
  }
}
