/**
 * The single-migration record of the first package: a version, a state that starts
 * UNKNOWN and becomes SUCCESS or FAILED when the migration runs, the time the run took,
 * and the script name. The migration body runs in a transaction on a thread of its own
 * that migrate waits for; here it is one step whose outcome and clock readings are inputs.
 */
module LegacyMigration {
  import opened Wrappers

  /** How the migration body ends: normally, with an Exception, or with a java.lang.Error. */
  datatype BodyOutcome = Completes | ThrowsException | ThrowsError

  /** The states of a migration. */
  datatype MigrationState = UNKNOWN | SUCCESS | FAILED

  /**
   * The schema version of the first package. Its class is not part of this model beyond
   * its EMPTY constant; how it prints is given to the members that print it.
   */
  datatype SchemaVersion = EMPTY | Version(text: string)

  const TwoTo31: int := 0x8000_0000
  const TwoTo32: int := 0x1_0000_0000

  /** A value a Java int can hold. */
  predicate IsInt32(x: int) {
    -TwoTo31 <= x < TwoTo31
  }

  /**
   * The cast (int) of a long: the low 32 bits read as a signed number. The long
   * subtraction before it may wrap as well, but 2^32 divides 2^64, so casting the exact
   * difference gives the same int.
   */
  function ToInt32(x: int): (r: int)
    ensures IsInt32(r)
    ensures (x - r) % TwoTo32 == 0
    ensures IsInt32(x) ==> r == x
  {
    var low := x % TwoTo32;
    if low >= TwoTo31 then low - TwoTo32 else low
  }

  /** The cast keeps exactly the residue modulo 2^32: it is the one int of that residue. */
  lemma ToInt32Unique(x: int, y: int)
    requires IsInt32(y) && (x - y) % TwoTo32 == 0
    ensures ToInt32(x) == y
  {
    var r := ToInt32(x);
    var q1 := (x - y) / 0x1_0000_0000;
    var q2 := (x - r) / 0x1_0000_0000;
    assert x - y == 0x1_0000_0000 * q1;
    assert x - r == 0x1_0000_0000 * q2;
    assert r - y == 0x1_0000_0000 * (q1 - q2);
    assert -0x1_0000_0000 < r - y < 0x1_0000_0000;
  }

  /** The text of the exception assertNotFailed throws, given how the version prints. */
  function FailureMessage(printedVersion: string): string {
    "Migration to version " + printedVersion + " failed! Please restore backups and roll back database and code!"
  }

  class Migration {
    var schemaVersion: SchemaVersion
    var migrationState: MigrationState
    /** The time in milliseconds the last run took, -1 before any run. */
    var executionTime: int
    /** The script name for the history; null until a subclass sets it. */
    var scriptName: Option<string>

    /** The execution time always fits the int field it is kept in. */
    predicate Valid()
      reads this
    {
      IsInt32(executionTime)
    }

    /** A fresh migration: version EMPTY, state UNKNOWN, execution time -1. */
    constructor()
      ensures Valid()
      ensures schemaVersion == EMPTY && migrationState == UNKNOWN && executionTime == -1
      ensures scriptName == None
    {
      schemaVersion := EMPTY;
      migrationState := UNKNOWN;
      executionTime := -1;
      scriptName := None;
    }

    function GetVersion(): (r: SchemaVersion)
      reads this
      ensures r == schemaVersion
    {
      schemaVersion
    }

    function GetState(): (r: MigrationState)
      reads this
      ensures r == migrationState
    {
      migrationState
    }

    /** getExecutionTime widens the int field to a long, keeping its value. */
    function GetExecutionTime(): (r: int)
      requires Valid()
      reads this
      ensures r == executionTime && IsInt32(r)
    {
      executionTime
    }

    function GetScriptName(): (r: Option<string>)
      reads this
      ensures r == scriptName
    {
      scriptName
    }

    /** assertNotFailed: fails, naming the version, exactly when the state is FAILED. */
    function AssertNotFailed(printed: SchemaVersion -> string): (r: Outcome<string>)
      reads this
      ensures r.Fail? <==> migrationState == FAILED
      ensures r.Fail? ==> r.error == FailureMessage(printed(schemaVersion))
    {
      if migrationState == FAILED then Fail(FailureMessage(printed(schemaVersion))) else Pass
    }

    /**
     * migrate: runs the body; the state becomes SUCCESS when the body completes and
     * FAILED when it throws an Exception (which is not passed on). An Error is not caught:
     * it ends the migration thread, the state keeps its value, and migrate goes on after
     * join. In every case the execution time becomes the elapsed time between the two
     * clock readings, cast to int.
     */
    method Migrate(body: BodyOutcome, start: int, finish: int)
      requires Valid()
      modifies this`migrationState, this`executionTime
      ensures Valid()
      ensures body == Completes ==> migrationState == SUCCESS
      ensures body == ThrowsException ==> migrationState == FAILED
      ensures body == ThrowsError ==> migrationState == old(migrationState)
      ensures executionTime == ToInt32(finish - start)
    {
      match body {
        case Completes => migrationState := SUCCESS;
        case ThrowsException => migrationState := FAILED;
        case ThrowsError =>
      }
      executionTime := ToInt32(finish - start);
    }
  }
}
