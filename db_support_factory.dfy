/**
 * The choice of database support from the product name the JDBC driver reports: a list
 * of exact, case-sensitive names, and any name starting with "DB2" (DB2 appends the
 * platform, as in DB2/NT). The connection and its metadata call are not part of this
 * model: the product name, which may be null, is the input.
 */
module DbSupportFactory {
  import opened Wrappers
  import opened JavaStrings
  import LegacyOracleDbSupport

  /** The database supports the factory can create. */
  datatype Dialect = H2 | HSQL | SQLSERVER | MYSQL | ORACLE | POSTGRESQL | DB2

  /** Why no support could be created. */
  datatype FactoryError = UnableToDetermine | Unsupported(productName: string)

  /** The text of the FlywayException thrown. */
  function ErrorMessage(e: FactoryError): string {
    match e
    case UnableToDetermine => "Unable to determine database. Product name is null."
    case Unsupported(name) => "Unsupported Database: " + name
  }

  /** createDbSupport, from the product name on. */
  function CreateDbSupport(databaseProductName: Option<string>): (r: Result<Dialect, FactoryError>)
    ensures r == Failure(UnableToDetermine) <==> databaseProductName.None?
    ensures r.Failure? && databaseProductName.Some? ==> r.error == Unsupported(databaseProductName.value)
  {
    match databaseProductName
    case None => Failure(UnableToDetermine)
    case Some(name) =>
      if name == "H2" then Success(H2)
      else if name == "HSQL Database Engine" || name == "Google SQL Service/HSQL Database Engine" then Success(HSQL)
      else if name == "Microsoft SQL Server" then Success(SQLSERVER)
      else if name == "MySQL" || name == "Google SQL Service/MySQL" then Success(MYSQL)
      else if name == "Oracle" then Success(ORACLE)
      else if name == "PostgreSQL" then Success(POSTGRESQL)
      else if StartsWith(name, "DB2") then Success(DB2)
      else Failure(Unsupported(name))
  }

  /** The names matched exactly, each with its dialect. */
  const ExactNames: map<string, Dialect> := map[
    "H2" := H2,
    "HSQL Database Engine" := HSQL,
    "Google SQL Service/HSQL Database Engine" := HSQL,
    "Microsoft SQL Server" := SQLSERVER,
    "MySQL" := MYSQL,
    "Google SQL Service/MySQL" := MYSQL,
    "Oracle" := ORACLE,
    "PostgreSQL" := POSTGRESQL]

  /** No exactly matched name starts with "DB2", so the order of the tests does not matter. */
  lemma ExactNamesAreNotDb2()
    ensures forall n :: n in ExactNames ==> !StartsWith(n, "DB2")
  {
    forall n | n in ExactNames ensures !StartsWith(n, "DB2") {
      assert n[0] != 'D' || n[1] != 'B';
    }
  }

  /** The dispatch is the lookup table, then the DB2 prefix rule, then the error. */
  lemma DispatchIsLookup(name: string)
    ensures CreateDbSupport(Some(name))
         == if name in ExactNames then Success(ExactNames[name])
            else if StartsWith(name, "DB2") then Success(DB2)
            else Failure(Unsupported(name))
  {
    ExactNamesAreNotDb2();
  }

  /** Exactly the names starting with "DB2" select DB2. */
  lemma Db2IffPrefix(name: string)
    ensures CreateDbSupport(Some(name)) == Success(DB2) <==> StartsWith(name, "DB2")
  {
    DispatchIsLookup(name);
    ExactNamesAreNotDb2();
  }

  /** A name is supported exactly when it is one of the listed names or starts with "DB2". */
  lemma SupportedIffKnown(name: string)
    ensures CreateDbSupport(Some(name)).Success? <==> (name in ExactNames || StartsWith(name, "DB2"))
  {
    DispatchIsLookup(name);
  }

  /** DB2 reports its platform after the name: "DB2/NT" is DB2. */
  lemma Db2WithPlatform()
    ensures CreateDbSupport(Some("DB2/NT")) == Success(DB2)
  {
    assert "DB2/NT"[..3] == "DB2";
  }

  /** The matching is case-sensitive: "h2" and "oracle" are not supported. */
  lemma CaseSensitive()
    ensures CreateDbSupport(Some("h2")) == Failure(Unsupported("h2"))
    ensures CreateDbSupport(Some("oracle")) == Failure(Unsupported("oracle"))
  {
    assert "h2"[0] != "DB2"[0];
    assert "oracle"[0] != "DB2"[0];
  }

  /** The factory picks Oracle for exactly the product names the first package's Oracle support accepts. */
  lemma AgreesWithLegacyOracleSupport(databaseProductName: Option<string>)
    ensures CreateDbSupport(databaseProductName) == Success(ORACLE)
        <==> LegacyOracleDbSupport.SupportsDatabase(databaseProductName)
  {
  }
}
