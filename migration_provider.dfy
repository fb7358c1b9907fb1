/**
 * The migration catalog: the union of what the migration resolvers find, sorted newest
 * first, refused when two migrations share a version, and cached after the first
 * successful lookup. What each resolver finds on the classpath is given as a
 * sequence per resolver; Migration.equals, which the HashSet uses, is the relation
 * `same`.
 */
module MigrationProviders {
  import opened Wrappers
  import opened Migrations

  /** The ValidationException of checkForIncompatibilities. */
  datatype ValidationError = DuplicateVersion(version: Version)

  function ErrorMessage(e: ValidationError): string {
    "Found more than one migration with version: " + VersionText(e.version)
  }

  // ---------------------------------------------------------------------------
  // collectMigrations
  // ---------------------------------------------------------------------------

  /** Some element of `acc` equals `m` in the sense of `same`. */
  function ContainsSame(acc: seq<Migration>, m: Migration, same: (Migration, Migration) -> bool): (r: bool)
    ensures r <==> exists k :: 0 <= k < |acc| && same(acc[k], m)
  {
    if acc == [] then false
    else
      assert forall k :: 1 <= k < |acc| ==> acc[k] == acc[1..][k - 1];
      same(acc[0], m) || ContainsSame(acc[1..], m, same)
  }

  /** HashSet.addAll: each migration is added unless an equal one is already there. */
  function AddAll(acc: seq<Migration>, ms: seq<Migration>, same: (Migration, Migration) -> bool): seq<Migration>
    decreases |ms|
  {
    if ms == [] then acc
    else
      var next := if ContainsSame(acc, ms[0], same) then acc else acc + [ms[0]];
      AddAll(next, ms[1..], same)
  }

  /** What the set holds after adding the outputs of the resolvers, in order. */
  function Collected(outputs: seq<seq<Migration>>, same: (Migration, Migration) -> bool): seq<Migration>
    decreases |outputs|
  {
    if outputs == [] then []
    else AddAll(Collected(outputs[..|outputs| - 1], same), outputs[|outputs| - 1], same)
  }

  /** No two elements are equal in the sense of `same`. */
  predicate NoTwoSame(ms: seq<Migration>, same: (Migration, Migration) -> bool) {
    forall i, j :: 0 <= i < j < |ms| ==> !same(ms[i], ms[j])
  }

  /** `m` is represented in `ms`: it is there, or an element equal to it is. */
  predicate Represented(ms: seq<Migration>, m: Migration, same: (Migration, Migration) -> bool) {
    m in ms || ContainsSame(ms, m, same)
  }

  /** Adding keeps the set free of equal pairs, keeps what it held, adds only from `ms`, and represents all of `ms`. */
  lemma {:induction false} AddAllProperties(acc: seq<Migration>, ms: seq<Migration>, same: (Migration, Migration) -> bool)
    requires NoTwoSame(acc, same)
    ensures var r := AddAll(acc, ms, same);
      && NoTwoSame(r, same)
      && |acc| <= |r| && r[..|acc|] == acc
      && (forall x :: x in r ==> x in acc || x in ms)
      && (forall x :: x in ms ==> Represented(r, x, same))
    decreases |ms|
  {
    if ms != [] {
      var m := ms[0];
      var next := if ContainsSame(acc, m, same) then acc else acc + [m];
      assert NoTwoSame(next, same);
      assert next[..|acc|] == acc;
      assert Represented(next, m, same);
      AddAllProperties(next, ms[1..], same);
      var r := AddAll(next, ms[1..], same);
      assert r[..|acc|] == r[..|next|][..|acc|];
      forall x | x in ms ensures Represented(r, x, same) {
        if x == m {
          if m in next {
            var k :| 0 <= k < |next| && next[k] == m;
            assert r[k] == m;
          } else {
            var k :| 0 <= k < |next| && same(next[k], m);
            assert r[k] == next[k];
          }
        } else {
          assert x in ms[1..];
        }
      }
      forall x | x in r ensures x in acc || x in ms {
        if x !in acc && x !in ms[1..] {
          assert x in next;
        }
      }
    }
  }

  /** The union of the resolvers' outputs: nothing invented, nothing lost, equal migrations kept once. */
  lemma {:induction false} CollectedIsUnion(outputs: seq<seq<Migration>>, same: (Migration, Migration) -> bool)
    ensures var c := Collected(outputs, same);
      && NoTwoSame(c, same)
      && (forall x :: x in c ==> exists o :: 0 <= o < |outputs| && x in outputs[o])
      && (forall o, x :: 0 <= o < |outputs| && x in outputs[o] ==> Represented(c, x, same))
    decreases |outputs|
  {
    if outputs != [] {
      var n := |outputs| - 1;
      var front := outputs[..n];
      CollectedIsUnion(front, same);
      var before := Collected(front, same);
      AddAllProperties(before, outputs[n], same);
      var c := Collected(outputs, same);
      forall x | x in c ensures exists o :: 0 <= o < |outputs| && x in outputs[o] {
        if x in before {
          var o :| 0 <= o < |front| && x in front[o];
          assert x in outputs[o];
        } else {
          assert x in outputs[n];
        }
      }
      forall o, x | 0 <= o < |outputs| && x in outputs[o] ensures Represented(c, x, same) {
        if o < n {
          assert x in front[o];
          assert Represented(before, x, same);
          assert c[..|before|] == before;
          if x in before {
            var k :| 0 <= k < |before| && before[k] == x;
            assert c[k] == x;
          } else {
            var k :| 0 <= k < |before| && same(before[k], x);
            assert c[k] == before[k];
          }
        }
      }
    }
  }

  /** collectMigrations: adds every resolver's output to one set. */
  method CollectMigrations(resolverOutputs: seq<seq<Migration>>, same: (Migration, Migration) -> bool)
    returns (migrations: seq<Migration>)
    ensures migrations == Collected(resolverOutputs, same)
  {
    migrations := [];
    var i := 0;
    while i < |resolverOutputs|
      invariant 0 <= i <= |resolverOutputs|
      invariant migrations == Collected(resolverOutputs[..i], same)
    {
      assert resolverOutputs[..i + 1][..i] == resolverOutputs[..i];
      migrations := AddAll(migrations, resolverOutputs[i], same);
      i := i + 1;
    }
    assert resolverOutputs[..i] == resolverOutputs;
  }

  // ---------------------------------------------------------------------------
  // checkForIncompatibilities
  // ---------------------------------------------------------------------------

  /** The first index whose migration has the same version as the next one, or -1. */
  function FirstDuplicateIndex(ms: seq<Migration>, from: nat): (r: int)
    ensures r == -1 || from <= r < |ms| - 1
    ensures r >= 0 ==> ms[r].version == ms[r + 1].version
    ensures r >= 0 ==> forall i :: from <= i < r ==> ms[i].version != ms[i + 1].version
    ensures r == -1 <==> forall i :: from <= i < |ms| - 1 ==> ms[i].version != ms[i + 1].version
    decreases |ms| - from
  {
    if from + 1 >= |ms| then -1
    else if ms[from].version == ms[from + 1].version then from
    else FirstDuplicateIndex(ms, from + 1)
  }

  /** checkForIncompatibilities: the first adjacent pair that compares equal is refused. */
  method CheckForIncompatibilities(migrations: seq<Migration>) returns (r: Outcome<ValidationError>)
    ensures var k := FirstDuplicateIndex(migrations, 0);
      r == if k == -1 then Pass else Fail(DuplicateVersion(migrations[k].version))
  {
    var i := 0;
    while i < |migrations| - 1
      invariant 0 <= i <= |migrations|
      invariant forall j :: 0 <= j < i && j < |migrations| - 1 ==> migrations[j].version != migrations[j + 1].version
    {
      var current := migrations[i];
      var next := migrations[i + 1];
      if CompareVersions(current.version, next.version) == 0 {
        return Fail(DuplicateVersion(current.version));
      }
      i := i + 1;
    }
    return Pass;
  }

  // ---------------------------------------------------------------------------
  // doFindAvailableMigrations
  // ---------------------------------------------------------------------------

  /** Two entries, at different positions, share a version. */
  predicate HasDuplicateVersion(ms: seq<Migration>) {
    exists i, j :: 0 <= i < j < |ms| && ms[i].version == ms[j].version
  }

  /** The catalog: collected, sorted ascending, reversed, then checked. */
  function Catalog(outputs: seq<seq<Migration>>, same: (Migration, Migration) -> bool): Result<seq<Migration>, ValidationError> {
    var ms := Reverse(SortByVersion(Collected(outputs, same)));
    var k := FirstDuplicateIndex(ms, 0);
    if k == -1 then Success(ms) else Failure(DuplicateVersion(ms[k].version))
  }

  /** doFindAvailableMigrations */
  method DoFindAvailableMigrations(resolverOutputs: seq<seq<Migration>>, same: (Migration, Migration) -> bool)
    returns (r: Result<seq<Migration>, ValidationError>)
    ensures r == Catalog(resolverOutputs, same)
  {
    var collected := CollectMigrations(resolverOutputs, same);
    var migrations := SortByVersion(collected);
    migrations := Reverse(migrations);
    var check := CheckForIncompatibilities(migrations);
    if check.Fail? {
      return Failure(check.error);
    }
    return Success(migrations);
  }

  /** On a newest-first list, two entries of one version force an adjacent pair of that version. */
  lemma DescendingDuplicateIsAdjacent(ms: seq<Migration>, i: int, j: int)
    requires Descending(ms) && 0 <= i < j < |ms| && ms[i].version == ms[j].version
    ensures ms[i].version == ms[i + 1].version
  {
    assert VersionLe(ms[i + 1].version, ms[i].version);
    if i + 1 < j {
      assert VersionLe(ms[j].version, ms[i + 1].version);
    } else {
      VersionLeReflexive(ms[j].version);
    }
    VersionLeAntisymmetric(ms[i].version, ms[i + 1].version);
  }

  lemma MultisetTwice(ms: seq<Migration>, i: nat, j: nat)
    requires i < j < |ms|
    ensures multiset(ms)[ms[i]] >= 1 && (ms[i] == ms[j] ==> multiset(ms)[ms[i]] >= 2)
  {
    assert ms == ms[..j] + ms[j..];
    assert ms[i] in ms[..j];
    assert ms[j] in ms[j..];
  }

  lemma MultisetTwiceIndices(ms: seq<Migration>, x: Migration)
    requires multiset(ms)[x] >= 2
    ensures exists i, j :: 0 <= i < j < |ms| && ms[i] == x && ms[j] == x
  {
    assert x in ms;
    var i :| 0 <= i < |ms| && ms[i] == x;
    assert ms == ms[..i] + [ms[i]] + ms[i + 1..];
    var rest := ms[..i] + ms[i + 1..];
    assert multiset(rest)[x] >= 1;
    assert x in rest;
    var k :| 0 <= k < |rest| && rest[k] == x;
    if k < i {
      assert ms[k] == x;
    } else {
      assert ms[k + 1] == x;
    }
  }

  /** Duplicate versions in multiset terms. */
  ghost predicate DuplicateVersionIn(m: multiset<Migration>) {
    exists x, y :: x in m && y in m && x.version == y.version && (x != y || m[x] >= 2)
  }

  lemma DuplicateVersionMultiset(ms: seq<Migration>)
    ensures HasDuplicateVersion(ms) <==> DuplicateVersionIn(multiset(ms))
  {
    if HasDuplicateVersion(ms) {
      var i, j :| 0 <= i < j < |ms| && ms[i].version == ms[j].version;
      MultisetTwice(ms, i, j);
      assert ms[j] in multiset(ms);
    }
    if DuplicateVersionIn(multiset(ms)) {
      var x, y :| x in multiset(ms) && y in multiset(ms) && x.version == y.version && (x != y || multiset(ms)[x] >= 2);
      if x == y {
        MultisetTwiceIndices(ms, x);
        var i, j :| 0 <= i < j < |ms| && ms[i] == x && ms[j] == x;
        assert ms[i].version == ms[j].version;
      } else {
        assert x in ms && y in ms;
        var i :| 0 <= i < |ms| && ms[i] == x;
        var j :| 0 <= j < |ms| && ms[j] == y;
        if i < j { assert ms[i].version == ms[j].version; }
        else { assert ms[j].version == ms[i].version; }
      }
    }
  }

  lemma SameElementsSameDuplicates(a: seq<Migration>, b: seq<Migration>)
    requires multiset(a) == multiset(b)
    ensures HasDuplicateVersion(a) <==> HasDuplicateVersion(b)
  {
    DuplicateVersionMultiset(a);
    DuplicateVersionMultiset(b);
  }

  /** Sorting and reversing give a newest-first permutation. */
  lemma SortedNewestFirst(c: seq<Migration>)
    ensures Descending(Reverse(SortByVersion(c)))
    ensures multiset(Reverse(SortByVersion(c))) == multiset(c)
  {
    SortByVersionAscending(c);
    ReverseAscending(SortByVersion(c));
    ReverseKeepsElements(SortByVersion(c));
  }

  /** On a newest-first list the adjacent check finds a pair exactly when some version occurs twice. */
  lemma DescendingCheck(ms: seq<Migration>)
    requires Descending(ms)
    ensures FirstDuplicateIndex(ms, 0) == -1 <==> !HasDuplicateVersion(ms)
  {
    if HasDuplicateVersion(ms) {
      var i, j :| 0 <= i < j < |ms| && ms[i].version == ms[j].version;
      DescendingDuplicateIsAdjacent(ms, i, j);
    }
    var k := FirstDuplicateIndex(ms, 0);
    assert k >= 0 ==> ms[k].version == ms[k + 1].version;
  }

  /** The catalog is refused exactly when two collected migrations share a version. */
  lemma CatalogFailsIffDuplicate(outputs: seq<seq<Migration>>, same: (Migration, Migration) -> bool)
    ensures Catalog(outputs, same).Failure? <==> HasDuplicateVersion(Collected(outputs, same))
  {
    var c := Collected(outputs, same);
    var ms := Reverse(SortByVersion(c));
    SortedNewestFirst(c);
    SameElementsSameDuplicates(ms, c);
    DescendingCheck(ms);
  }

  /** A successful catalog is newest first with every version once, and a permutation of the collected migrations. */
  lemma CatalogSuccess(outputs: seq<seq<Migration>>, same: (Migration, Migration) -> bool)
    requires Catalog(outputs, same).Success?
    ensures var ms := Catalog(outputs, same).value;
      && multiset(ms) == multiset(Collected(outputs, same))
      && (forall i, j :: 0 <= i < j < |ms| ==> VersionLe(ms[j].version, ms[i].version) && ms[i].version != ms[j].version)
  {
    var c := Collected(outputs, same);
    var ms := Reverse(SortByVersion(c));
    SortedNewestFirst(c);
    DescendingCheck(ms);
  }

  // ---------------------------------------------------------------------------
  // The provider object and its cache.
  // ---------------------------------------------------------------------------

  class MigrationProvider {
    /** What the SQL and the Java migration resolvers find, in the order they are asked. */
    const resolverOutputs: seq<seq<Migration>>
    /** Migration.equals */
    const same: (Migration, Migration) -> bool
    /** The cached catalog; None stands for the null field before the first successful lookup. */
    var availableMigrations: Option<seq<Migration>>

    /** A cached list is the catalog of the resolvers' outputs. */
    predicate Valid()
      reads this
    {
      availableMigrations.Some? ==> Catalog(resolverOutputs, same) == Success(availableMigrations.value)
    }

    constructor(resolverOutputs: seq<seq<Migration>>, same: (Migration, Migration) -> bool)
      ensures this.resolverOutputs == resolverOutputs && this.same == same
      ensures availableMigrations == None
      ensures Valid()
    {
      this.resolverOutputs := resolverOutputs;
      this.same := same;
      availableMigrations := None;
    }

    /** findAvailableMigrations: computed on the first call, then served from the cache. */
    method FindAvailableMigrations() returns (r: Result<seq<Migration>, ValidationError>)
      requires Valid()
      modifies this
      ensures Valid()
      ensures r == Catalog(resolverOutputs, same)
      ensures old(availableMigrations).Some? ==> availableMigrations == old(availableMigrations)
      ensures old(availableMigrations).None? ==>
        availableMigrations == if r.Success? then Some(r.value) else None
    {
      if availableMigrations.None? {
        var found := DoFindAvailableMigrations(resolverOutputs, same);
        if found.Failure? {
          return Failure(found.error);
        }
        availableMigrations := Some(found.value);
      }
      return Success(availableMigrations.value);
    }
  }
}
