/**
 * The validator: compares the migrations recorded in the metadata table, position by
 * position, with the classpath migrations in oldest-first order, and reports the first
 * difference. The metadata table is a snapshot of what its queries return.
 */
module DbValidators {
  import opened Wrappers
  import opened JavaStrings
  import opened Migrations

  /** The two values of ValidationType; only ALL validates. */
  datatype ValidationType = NONE | ALL

  /** What the metadata table reports: whether it exists, and the applied migrations in its order. */
  datatype MetaDataTable = MetaDataTable(present: bool, appliedMigrations: seq<Migration>)

  /** The differences validate can report. */
  datatype Discrepancy =
    | MoreApplied(appliedCount: nat, classpathCount: nat)
    | VersionMismatch(script: string, dbVersion: Version, classpathVersion: Version)
    | TypeMismatch(script: string, dbType: MigrationType, classpathType: MigrationType)
    | ChecksumMismatch(script: string, dbChecksum: Option<int>, classpathChecksum: Option<int>)

  /** %s of an Integer that may be null. */
  function ChecksumText(c: Option<int>): string {
    match c
    case None => "null"
    case Some(v) => IntToString(v)
  }

  /** The shape shared by the three mismatch formats: the kind, the script, and the two values. */
  function MismatchText(kind: string, script: string, db: string, classpath: string): string {
    kind + script + ": DB=" + db + ", Classpath=" + classpath
  }

  /** The text validate returns for a discrepancy. */
  function Message(d: Discrepancy): string {
    match d
    case MoreApplied(a, c) =>
      "more applied migrations than classpath migrations: applied migrations=" + NatToString(a)
      + ", classpath migrations=" + NatToString(c)
    case VersionMismatch(s, db, cp) =>
      MismatchText("Version mismatch for migration ", s, VersionText(db), VersionText(cp))
    case TypeMismatch(s, db, cp) =>
      MismatchText("Migration Type mismatch for migration ", s, TypeName(db), TypeName(cp))
    case ChecksumMismatch(s, db, cp) =>
      MismatchText("Checksum mismatch for migration ", s, ChecksumText(db), ChecksumText(cp))
  }

  /** ObjectUtils.nullSafeEquals on two Integers. */
  function NullSafeEquals(a: Option<int>, b: Option<int>): (r: bool)
    ensures r <==> a == b
    ensures a.None? && b.None? ==> r
    ensures a.None? != b.None? ==> !r
  {
    match (a, b)
    case (None, None) => true
    case (Some(x), Some(y)) => x == y
    case _ => false
  }

  /** One applied migration against the classpath migration at its position: version, then type, then checksum. */
  function CheckPair(applied: Migration, classpath: Migration): (r: Option<Discrepancy>)
    ensures r == None <==> (applied.version == classpath.version
                            && applied.migrationType == classpath.migrationType
                            && applied.checksum == classpath.checksum)
    ensures applied.version != classpath.version
        ==> r == Some(VersionMismatch(applied.script, applied.version, classpath.version))
    ensures applied.version == classpath.version && applied.migrationType != classpath.migrationType
        ==> r == Some(TypeMismatch(applied.script, applied.migrationType, classpath.migrationType))
    ensures applied.version == classpath.version && applied.migrationType == classpath.migrationType
            && applied.checksum != classpath.checksum
        ==> r == Some(ChecksumMismatch(applied.script, applied.checksum, classpath.checksum))
    ensures r.Some? ==> !r.value.MoreApplied? && r.value.script == applied.script
  {
    if applied.version != classpath.version then
      Some(VersionMismatch(applied.script, applied.version, classpath.version))
    else if applied.migrationType != classpath.migrationType then
      Some(TypeMismatch(applied.script, applied.migrationType, classpath.migrationType))
    else if !NullSafeEquals(applied.checksum, classpath.checksum) then
      Some(ChecksumMismatch(applied.script, applied.checksum, classpath.checksum))
    else None
  }

  /** The lowest position from `from` on whose pair differs, or -1. */
  function FirstMismatchIndex(applied: seq<Migration>, classpath: seq<Migration>, from: nat): (k: int)
    requires |applied| <= |classpath|
    ensures k == -1 || from <= k < |applied|
    ensures k >= 0 ==> CheckPair(applied[k], classpath[k]).Some?
    ensures k >= 0 ==> forall i :: from <= i < k ==> CheckPair(applied[i], classpath[i]) == None
    ensures k == -1 <==> forall i :: from <= i < |applied| ==> CheckPair(applied[i], classpath[i]) == None
    decreases |applied| - from
  {
    if from >= |applied| then -1
    else if CheckPair(applied[from], classpath[from]).Some? then from
    else FirstMismatchIndex(applied, classpath, from + 1)
  }

  /** What validate reports, given the oldest-first classpath migrations. */
  function ValidationResult(validationType: ValidationType, table: MetaDataTable, classpath: seq<Migration>): (r: Option<Discrepancy>)
    ensures validationType != ALL || !table.present ==> r == None
    ensures validationType == ALL && table.present && |table.appliedMigrations| > |classpath|
        ==> r == Some(MoreApplied(|table.appliedMigrations|, |classpath|))
  {
    var applied := table.appliedMigrations;
    if validationType != ALL || !table.present then None
    else if |applied| > |classpath| then Some(MoreApplied(|applied|, |classpath|))
    else
      var k := FirstMismatchIndex(applied, classpath, 0);
      if k == -1 then None else CheckPair(applied[k], classpath[k])
  }

  /** With validation on and the table present, the report is the pair at the lowest differing position. */
  lemma LowestMismatchReported(table: MetaDataTable, classpath: seq<Migration>)
    requires table.present && |table.appliedMigrations| <= |classpath|
    ensures var r := ValidationResult(ALL, table, classpath);
      var applied := table.appliedMigrations;
      && (r == None <==> forall i :: 0 <= i < |applied| ==> CheckPair(applied[i], classpath[i]) == None)
      && (r.Some? ==> exists k :: (0 <= k < |applied| && r == CheckPair(applied[k], classpath[k])
                                  && forall i :: 0 <= i < k ==> CheckPair(applied[i], classpath[i]) == None))
  {
    var k := FirstMismatchIndex(table.appliedMigrations, classpath, 0);
    if k >= 0 {
      assert CheckPair(table.appliedMigrations[k], classpath[k]).Some?;
    }
  }

  /** Classpath migrations beyond the applied ones never change the report. */
  lemma {:induction false} ExtraClasspathMigrationsIgnored(applied: seq<Migration>, classpath: seq<Migration>, extra: seq<Migration>, from: nat)
    requires |applied| <= |classpath|
    ensures FirstMismatchIndex(applied, classpath + extra, from) == FirstMismatchIndex(applied, classpath, from)
    decreases |applied| - from
  {
    if from < |applied| {
      assert (classpath + extra)[from] == classpath[from];
      ExtraClasspathMigrationsIgnored(applied, classpath, extra, from + 1);
    }
  }

  lemma ExtraClasspathMigrationsValid(table: MetaDataTable, classpath: seq<Migration>, extra: seq<Migration>)
    requires |table.appliedMigrations| <= |classpath|
    ensures ValidationResult(ALL, table, classpath + extra) == ValidationResult(ALL, table, classpath)
  {
    ExtraClasspathMigrationsIgnored(table.appliedMigrations, classpath, extra, 0);
    var k := FirstMismatchIndex(table.appliedMigrations, classpath, 0);
    if k >= 0 { assert (classpath + extra)[k] == classpath[k]; }
  }

  /** A history that is exactly the oldest classpath migrations validates. */
  lemma MatchingHistoryValid(table: MetaDataTable, classpath: seq<Migration>)
    requires |table.appliedMigrations| <= |classpath|
    requires table.appliedMigrations == classpath[..|table.appliedMigrations|]
    ensures ValidationResult(ALL, table, classpath) == None
  {
    var applied := table.appliedMigrations;
    forall i | 0 <= i < |applied| ensures CheckPair(applied[i], classpath[i]) == None {
      assert applied[i] == classpath[i];
    }
  }

  /**
   * A history that is the oldest classpath migrations, except that one recorded checksum
   * was changed, is reported as a checksum mismatch of that migration's script.
   */
  lemma TamperedChecksumReported(classpath: seq<Migration>, n: nat, k: nat, c: Option<int>)
    requires k < n <= |classpath| && c != classpath[k].checksum
    ensures var applied := classpath[..n][k := classpath[k].(checksum := c)];
      ValidationResult(ALL, MetaDataTable(true, applied), classpath)
        == Some(ChecksumMismatch(classpath[k].script, c, classpath[k].checksum))
  {
    var applied := classpath[..n][k := classpath[k].(checksum := c)];
    forall i | 0 <= i < k ensures CheckPair(applied[i], classpath[i]) == None {
      assert applied[i] == classpath[i];
    }
    assert CheckPair(applied[k], classpath[k]).Some?;
    var m := FirstMismatchIndex(applied, classpath, 0);
    assert m == k;
  }

  lemma MismatchTextNames(kind: string, script: string, db: string, classpath: string)
    ensures Contains(MismatchText(kind, script, db, classpath), script)
    ensures Contains(MismatchText(kind, script, db, classpath), db)
    ensures Contains(MismatchText(kind, script, db, classpath), classpath)
  {
    var t := MismatchText(kind, script, db, classpath);
    ContainsMiddle(kind, script, ": DB=" + db + ", Classpath=" + classpath);
    assert kind + script + (": DB=" + db + ", Classpath=" + classpath) == t;
    ContainsMiddle(kind + script + ": DB=", db, ", Classpath=" + classpath);
    assert kind + script + ": DB=" + db + (", Classpath=" + classpath) == t;
    ContainsMiddle(kind + script + ": DB=" + db + ", Classpath=", classpath, "");
    assert kind + script + ": DB=" + db + ", Classpath=" + classpath + "" == t;
  }

  lemma CountTextNames(p: string, a: string, q: string, c: string)
    ensures Contains(p + a + q + c, a) && Contains(p + a + q + c, c)
  {
    ContainsMiddle(p, a, q + c);
    assert p + a + (q + c) == p + a + q + c;
    ContainsMiddle(p + a + q, c, "");
    assert p + a + q + c + "" == p + a + q + c;
  }

  /** Every mismatch message names the applied migration's script, and the count message names both counts. */
  lemma MessageNamesScript(d: Discrepancy)
    ensures !d.MoreApplied? ==> Contains(Message(d), d.script)
    ensures d.MoreApplied? ==> Contains(Message(d), NatToString(d.appliedCount)) && Contains(Message(d), NatToString(d.classpathCount))
  {
    match d
    case MoreApplied(a, c) =>
      CountTextNames("more applied migrations than classpath migrations: applied migrations=", NatToString(a),
        ", classpath migrations=", NatToString(c));
    case VersionMismatch(s, db, cp) =>
      MismatchTextNames("Version mismatch for migration ", s, VersionText(db), VersionText(cp));
    case TypeMismatch(s, db, cp) =>
      MismatchTextNames("Migration Type mismatch for migration ", s, TypeName(db), TypeName(cp));
    case ChecksumMismatch(s, db, cp) =>
      MismatchTextNames("Checksum mismatch for migration ", s, ChecksumText(db), ChecksumText(cp));
  }

  /** Collections.reverse on the copy. */
  method ReverseInPlace(a: array<Migration>)
    modifies a
    ensures a[..] == Reverse(old(a[..]))
  {
    var i := 0;
    var j := a.Length - 1;
    while i < j
      invariant 0 <= i <= a.Length && j == a.Length - 1 - i
      invariant i <= j + 1
      invariant forall k :: 0 <= k < i ==> a[k] == old(a[a.Length - 1 - k]) && a[a.Length - 1 - k] == old(a[k])
      invariant forall k :: i <= k <= j ==> a[k] == old(a[k])
    {
      a[i], a[j] := a[j], a[i];
      i := i + 1;
      j := j - 1;
    }
  }

  class DbValidator {
    const validationType: ValidationType
    const metaDataTable: MetaDataTable
    /** The classpath migrations, oldest first. */
    const migrations: array<Migration>

    /** Keeps a reversed copy of the newest-first list it is given; the caller's array is not touched. */
    constructor(validationType: ValidationType, metaDataTable: MetaDataTable, source: array<Migration>)
      ensures this.validationType == validationType && this.metaDataTable == metaDataTable
      ensures fresh(migrations) && migrations != source
      ensures migrations[..] == Reverse(source[..])
      ensures source[..] == old(source[..])
    {
      var copy := new Migration[source.Length];
      var i := 0;
      while i < source.Length
        invariant 0 <= i <= source.Length
        invariant forall k :: 0 <= k < i ==> copy[k] == source[k]
      {
        copy[i] := source[i];
        i := i + 1;
      }
      assert copy[..] == source[..];
      ReverseInPlace(copy);
      this.validationType := validationType;
      this.metaDataTable := metaDataTable;
      this.migrations := copy;
    }

    /** validate: the first discrepancy as text, or None (null) when everything matches. */
    method Validate() returns (r: Option<string>)
      ensures r == match ValidationResult(validationType, metaDataTable, migrations[..])
                   case None => None
                   case Some(d) => Some(Message(d))
    {
      if validationType != ALL || !metaDataTable.present {
        return None;
      }
      var appliedMigrations := metaDataTable.appliedMigrations;
      if |appliedMigrations| > migrations.Length {
        return Some(Message(MoreApplied(|appliedMigrations|, migrations.Length)));
      }
      ghost var classpath := migrations[..];
      var i := 0;
      while i < |appliedMigrations|
        invariant 0 <= i <= |appliedMigrations|
        invariant FirstMismatchIndex(appliedMigrations, classpath, 0) == FirstMismatchIndex(appliedMigrations, classpath, i)
      {
        var appliedMigration := appliedMigrations[i];
        var classpathMigration := migrations[i];
        if appliedMigration.version != classpathMigration.version {
          return Some(Message(VersionMismatch(appliedMigration.script, appliedMigration.version, classpathMigration.version)));
        }
        if appliedMigration.migrationType != classpathMigration.migrationType {
          return Some(Message(TypeMismatch(appliedMigration.script, appliedMigration.migrationType, classpathMigration.migrationType)));
        }
        var appliedChecksum := appliedMigration.checksum;
        var classpathChecksum := classpathMigration.checksum;
        if !NullSafeEquals(appliedChecksum, classpathChecksum) {
          return Some(Message(ChecksumMismatch(appliedMigration.script, appliedChecksum, classpathMigration.checksum)));
        }
        i := i + 1;
      }
      return None;
    }
  }
}
