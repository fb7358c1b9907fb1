/**
 * The migration record the catalog and the validator work on, and the order of its
 * versions. The Migration and SchemaVersion classes of the new package are not part of
 * this model: a version is taken to be a sequence of numbers (1.2.3 is [1, 2, 3]),
 * compared part by part, a proper prefix coming first.
 */
module Migrations {
  import opened Wrappers
  import opened JavaStrings

  /** The kinds of migration, with the names of the Java enum constants. */
  datatype MigrationType = SQL | JAVA | SPRING_JDBC

  /** The name String.format prints for a migration type. */
  function TypeName(t: MigrationType): string {
    match t
    case SQL => "SQL"
    case JAVA => "JAVA"
    case SPRING_JDBC => "SPRING_JDBC"
  }

  type Version = seq<nat>

  /** One migration: its version, description, script name, checksum (Integer, may be null) and type. */
  datatype Migration = Migration(
    version: Version,
    description: Option<string>,
    script: string,
    checksum: Option<int>,
    migrationType: MigrationType)

  /** The dotted text of a version, as SchemaVersion.getVersion prints it. */
  function VersionText(v: Version): string {
    if v == [] then ""
    else if |v| == 1 then NatToString(v[0])
    else NatToString(v[0]) + "." + VersionText(v[1..])
  }

  /** `a` does not come after `b`: lexicographic on the parts, a prefix first. */
  predicate VersionLe(a: Version, b: Version)
    decreases |a|
  {
    a == [] || (b != [] && (a[0] < b[0] || (a[0] == b[0] && VersionLe(a[1..], b[1..]))))
  }

  /** compareTo on versions: negative, zero or positive. */
  function CompareVersions(a: Version, b: Version): (r: int)
    ensures r == 0 <==> a == b
    ensures r <= 0 <==> VersionLe(a, b)
    ensures r >= 0 <==> VersionLe(b, a)
  {
    VersionLeTotal(a, b);
    VersionLeAntisymmetric(a, b);
    if a == b then 0 else if VersionLe(a, b) then -1 else 1
  }

  lemma {:induction false} VersionLeReflexive(a: Version)
    ensures VersionLe(a, a)
    decreases |a|
  {
    if a != [] { VersionLeReflexive(a[1..]); }
  }

  lemma {:induction false} VersionLeTotal(a: Version, b: Version)
    ensures VersionLe(a, b) || VersionLe(b, a)
    decreases |a|
  {
    if a != [] && b != [] && a[0] == b[0] { VersionLeTotal(a[1..], b[1..]); }
  }

  lemma {:induction false} VersionLeAntisymmetric(a: Version, b: Version)
    ensures VersionLe(a, b) && VersionLe(b, a) ==> a == b
    decreases |a|
  {
    if a != [] && b != [] {
      VersionLeAntisymmetric(a[1..], b[1..]);
      assert a == [a[0]] + a[1..] && b == [b[0]] + b[1..];
    }
  }

  lemma {:induction false} VersionLeTransitive(a: Version, b: Version, c: Version)
    requires VersionLe(a, b) && VersionLe(b, c)
    ensures VersionLe(a, c)
    decreases |a|
  {
    if a != [] && a[0] == b[0] && b[0] == c[0] {
      VersionLeTransitive(a[1..], b[1..], c[1..]);
    }
  }

  /** Collections.sort order: versions do not decrease. */
  predicate Ascending(ms: seq<Migration>) {
    forall i, j :: 0 <= i < j < |ms| ==> VersionLe(ms[i].version, ms[j].version)
  }

  /** Newest first: versions do not increase. */
  predicate Descending(ms: seq<Migration>) {
    forall i, j :: 0 <= i < j < |ms| ==> VersionLe(ms[j].version, ms[i].version)
  }

  /** Collections.reverse */
  function Reverse<T>(s: seq<T>): (r: seq<T>)
    ensures |r| == |s|
    ensures forall i :: 0 <= i < |s| ==> r[i] == s[|s| - 1 - i]
  {
    seq(|s|, i requires 0 <= i < |s| => s[|s| - 1 - i])
  }

  lemma ReverseKeepsElements<T>(s: seq<T>)
    ensures multiset(Reverse(s)) == multiset(s)
    ensures Reverse(Reverse(s)) == s
  {
    ReverseMultiset(s);
  }

  lemma {:induction false} ReverseMultiset<T>(s: seq<T>)
    ensures multiset(Reverse(s)) == multiset(s)
    decreases |s|
  {
    if s != [] {
      ReverseMultiset(s[1..]);
      assert Reverse(s) == Reverse(s[1..]) + [s[0]];
      assert s == [s[0]] + s[1..];
    }
  }

  lemma ReverseAscending(ms: seq<Migration>)
    requires Ascending(ms)
    ensures Descending(Reverse(ms))
  {
  }

  /** Inserts `m` into an ascending list, before the first migration with a higher version. */
  function Insert(m: Migration, ms: seq<Migration>): (r: seq<Migration>)
    ensures multiset(r) == multiset(ms) + multiset{m}
    ensures |r| == |ms| + 1
  {
    if ms == [] then [m]
    else if VersionLe(m.version, ms[0].version) && m.version != ms[0].version then [m] + ms
    else
      var rest := Insert(m, ms[1..]);
      assert ms == [ms[0]] + ms[1..];
      [ms[0]] + rest
  }

  lemma {:induction false} InsertAscending(m: Migration, ms: seq<Migration>)
    requires Ascending(ms)
    ensures Ascending(Insert(m, ms))
    decreases |ms|
  {
    if ms == [] {
    } else if VersionLe(m.version, ms[0].version) && m.version != ms[0].version {
      forall j | 0 <= j < |ms| ensures VersionLe(m.version, ms[j].version) {
        if j > 0 { VersionLeTransitive(m.version, ms[0].version, ms[j].version); }
      }
    } else {
      InsertAscending(m, ms[1..]);
      VersionLeTotal(m.version, ms[0].version);
      var rest := Insert(m, ms[1..]);
      assert VersionLe(ms[0].version, m.version) by {
        if m.version == ms[0].version { VersionLeReflexive(m.version); }
      }
      forall j | 0 <= j < |rest| ensures VersionLe(ms[0].version, rest[j].version) {
        assert rest[j] in multiset(ms[1..]) + multiset{m};
        if rest[j] != m {
          assert rest[j] in ms[1..];
        }
      }
    }
  }

  /**
   * Collections.sort by version, as an insertion sort. Only the order of versions is
   * stated; how migrations of one version are arranged is left open.
   */
  function SortByVersion(ms: seq<Migration>): (r: seq<Migration>)
    ensures multiset(r) == multiset(ms)
    ensures |r| == |ms|
  {
    if ms == [] then []
    else
      assert ms == [ms[0]] + ms[1..];
      Insert(ms[0], SortByVersion(ms[1..]))
  }

  lemma {:induction false} SortByVersionAscending(ms: seq<Migration>)
    ensures Ascending(SortByVersion(ms))
    decreases |ms|
  {
    if ms != [] {
      SortByVersionAscending(ms[1..]);
      InsertAscending(ms[0], SortByVersion(ms[1..]));
    }
  }
}
