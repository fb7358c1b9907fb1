/**
 * Migrations whose name carries their version and description, as in 1_2__Some_text:
 * the text before the first "__" is the version with '_' read as '.', the text after it
 * is the description with '_' read as ' '.
 */
module BaseMigrations {
  import opened Wrappers
  import opened JavaStrings

  /** The version text and the description (null when the name has none). */
  datatype SchemaVersion = SchemaVersion(version: string, description: Option<string>)

  /** "__" occurs nowhere in `s`. */
  predicate NoSeparator(s: string) {
    forall i: nat :: i + 2 <= |s| ==> !OccursAt(s, "__", i)
  }

  /** extractSchemaVersion */
  function ExtractSchemaVersion(migrationName: string): (r: SchemaVersion)
    ensures '_' !in r.version
    ensures r.description.Some? ==> '_' !in r.description.value
    ensures r.description.None? <==> NoSeparator(migrationName)
    ensures r.description.None? ==> |r.version| == |migrationName|
    ensures r.description.Some? ==> |r.version| + 2 + |r.description.value| == |migrationName|
  {
    var descriptionPos := IndexOf(migrationName, "__");
    if descriptionPos != -1 then
      var description := ReplaceChar(migrationName[descriptionPos + 2..], '_', ' ');
      SchemaVersion(ReplaceChar(migrationName[..descriptionPos], '_', '.'), Some(description))
    else
      SchemaVersion(ReplaceChar(migrationName, '_', '.'), None)
  }

  /**
   * A name made of a version part, "__" and a description part, where the version part
   * holds no "__" and does not end in '_', splits at that "__".
   */
  lemma SplitsAtFirstSeparator(v: string, d: string)
    requires NoSeparator(v)
    requires v == [] || v[|v| - 1] != '_'
    ensures ExtractSchemaVersion(v + "__" + d)
         == SchemaVersion(ReplaceChar(v, '_', '.'), Some(ReplaceChar(d, '_', ' ')))
  {
    var name := v + "__" + d;
    assert OccursAt(name, "__", |v|) by {
      assert name[|v|..|v| + 2] == "__";
    }
    forall i: nat | i < |v| ensures !OccursAt(name, "__", i) {
      if i + 2 <= |v| {
        assert name[i..i + 2] == v[i..i + 2];
        assert !OccursAt(v, "__", i);
      } else {
        assert name[i..i + 2][0] == v[|v| - 1];
      }
    }
    var k := IndexOf(name, "__");
    assert k == |v|;
    assert name[..k] == v;
    assert name[k + 2..] == d;
  }

  /** Without "__" there is no description and the whole name, '_' read as '.', is the version. */
  lemma WithoutSeparator(name: string)
    requires NoSeparator(name)
    ensures ExtractSchemaVersion(name) == SchemaVersion(ReplaceChar(name, '_', '.'), None)
  {
  }

  /** A name whose only "__" is at its end has an empty description, present and not null. */
  lemma TrailingSeparatorGivesEmptyDescription(v: string)
    requires NoSeparator(v)
    requires v == [] || v[|v| - 1] != '_'
    ensures ExtractSchemaVersion(v + "__").description == Some("")
  {
    SplitsAtFirstSeparator(v, "");
    assert v + "__" + "" == v + "__";
  }

  lemma DummyVersionHasNoSeparator()
    ensures NoSeparator("1_2_3")
  {
    var v := "1_2_3";
    forall i: nat | i + 2 <= |v| ensures !OccursAt(v, "__", i) {
      assert v[i..i + 2][0] == v[i] && v[i..i + 2][1] == v[i + 1];
    }
  }

  lemma DummyNameParts()
    ensures "1_2_3" + "__" + "Dummy_migration" == "1_2_3__Dummy_migration"
    ensures ReplaceChar("1_2_3", '_', '.') == "1.2.3"
    ensures ReplaceChar("Dummy_migration", '_', ' ') == "Dummy migration"
  {
  }

  /** V1_2_3__Dummy_migration has version 1.2.3 and description "Dummy migration". */
  lemma DummyMigrationName()
    ensures ExtractSchemaVersion("1_2_3__Dummy_migration") == SchemaVersion("1.2.3", Some("Dummy migration"))
  {
    DummyVersionHasNoSeparator();
    SplitsAtFirstSeparator("1_2_3", "Dummy_migration");
    DummyNameParts();
  }

  /** The part of a migration that initVersion writes. */
  class BaseMigration {
    /** The schema version; None until initVersion is called. */
    var schemaVersion: Option<SchemaVersion>

    constructor()
      ensures schemaVersion == None
    {
      schemaVersion := None;
    }

    /** initVersion: sets the schema version from the name, and nothing else. */
    method InitVersion(migrationName: string)
      modifies this`schemaVersion
      ensures schemaVersion == Some(ExtractSchemaVersion(migrationName))
    {
      schemaVersion := Some(ExtractSchemaVersion(migrationName));
    }
  }
}
