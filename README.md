# Flyway migration engine core, modelled in Dafny

This project models the deterministic decision logic of an early version of Flyway, the
database migration tool. Each module follows one Java class.

- **OracleSqlScript**: the two Oracle hooks of the script splitter.
  - `changeDelimiterIfNecessary` switches to the PL/SQL delimiter `/` on a `DECLARE`/`BEGIN`
    line or on a `CREATE [OR REPLACE] FUNCTION|PROCEDURE|PACKAGE` statement.
  - `endsWithOpenMultilineStringLiteral` tokenises the statement read so far, classifies tokens
    as opening or closing `'...'` and `q'X...X'` literals (`extractStringLiteralDelimitingTokens`,
    `computeQCloseToken`), and folds two flags over them.
  - The Java regular expressions are a small pattern datatype. Its meaning is whole-string,
    backtracking matching. A greedy matcher is proved to decide exactly that meaning.
- **Migrations / MigrationProviders**: the migration catalog.
  - The resolvers' outputs are unioned as a `HashSet` does it, sorted by version, reversed to
    newest first, and refused when two adjacent entries have one version.
  - The result is cached in the provider object after the first successful call.
- **DbValidators**: compares the applied history, position by position, with the classpath
  migrations in oldest-first order. It reports the first count, version, type or (null-safe)
  checksum difference. The constructor keeps a reversed copy of its argument.
- **BaseMigrations**: `extractSchemaVersion` (`1_2__Some_text` gives version `1.2` and
  description `Some text`) and `initVersion`.
- **LegacyMigration**: the single-migration object of the first package (`com.google.code`):
  - state UNKNOWN, then SUCCESS or FAILED;
  - the execution time of the last run, cast to a Java `int`;
  - the `assertNotFailed` gate.
- **SqlMigrations**: the SQL migration's fields, and its checksum.
  - The checksum is the CRC-32 of `java.util.zip.CRC32`: the reflected polynomial 0xEDB88320, a
    register started at all ones, and a final XOR with all ones (IEEE 802.3).
  - It is computed bit by bit on `bv32` and read as a signed `int`.
  - Proved: it changes whenever one byte changes, and it gives the standard check value
    0xCBF43926 on `123456789`.
- **DbSupportFactory**: the product-name dispatch of `createDbSupport`, to a dialect or an error.
- **LegacyOracleDbSupport**: the first package's Oracle support: the metadata-table DDL, the
  product-name test and the DDL-transaction flag.
- **ClassUtils**: `getShortName`.
- **FileSystemLocationScanner**: the classpath root computed from a location URL, resource names
  relative to it, and the recursive directory walk over an abstract file tree.
- **JavaStrings** and **Wrappers**: the `String`, `StringUtils` operations and the Option/Result
  types these rely on.

Two points where the program's behaviour is narrower than its documentation suggests:

- **Checksum input.** `SqlMigration` computes the checksum from the raw script text at
  construction. It applies the placeholder replacer only when the migration runs
  (SqlMigration.java:57 and 65). The model therefore takes the checksum from the raw source:
  `SqlMigrations.SqlMigration.constructor` states it, and the placeholders play no part in it.
- **The duplicate check.** The javadoc of `checkForIncompatibilities` (MigrationProvider.java:166)
  promises an exception when two migrations share a version. The code only compares adjacent
  entries. This is proved sufficient, because the entries are checked after sorting:
  `MigrationProviders.CatalogFailsIffDuplicate`.

Collaborators that are not part of this model are taken as follows:

- **Versions.** The new package's `SchemaVersion` is not part of this model. A version is a
  sequence of natural numbers, compared part by part, a proper prefix first, and printed dotted.
  Two other version types stay textual and are not connected to `Migrations.Version`:
  - `BaseMigrations.SchemaVersion` holds the text that `extractSchemaVersion` passes to the
    `SchemaVersion(String, String)` constructor. Parsing that text is part of `SchemaVersion`,
    which is not part of this model.
  - `LegacyMigration.SchemaVersion` is the first package's class, unrelated to the new one.
- **Migration equality.** The new package's `Migration.equals` is an arbitrary relation `same`,
  passed in.
- **Tokenizer.** `StringUtils.tokenizeToStringArray` is taken with Spring's defaults:
  - split at each delimiter character;
  - trim every token (drop characters `<= ' '` at both ends);
  - drop empty tokens.
- **Replacement.** `StringUtils.replace`/`replaceAll` with a literal pattern replace every
  non-overlapping occurrence, left to right.
- **Name parsing.** `MigrationInfoHelper` is given to the `SqlMigration` constructor as two
  functions of the version string.

## Model

| member | source | states |
|---|---|---|
| OracleSqlScript.MatchIsMatches | flyway-core/src/main/java/com/googlecode/flyway/core/dbsupport/oracle/OracleSqlScript.java:48-58 | On the patterns used, the greedy matcher answers exactly whether some way of splitting the string matches the whole pattern, as `String.matches` does (`\W` runs are maximal, `.*` stops at line terminators). |
| OracleSqlScript.MatchAnyIsMatchesOneOf | flyway-core/src/main/java/com/googlecode/flyway/core/dbsupport/oracle/OracleSqlScript.java:48-58 | Testing a list of alternatives with the greedy matcher is the same as asking whether one of them matches. |
| OracleSqlScript.CreatePattern | flyway-core/src/main/java/com/googlecode/flyway/core/dbsupport/oracle/OracleSqlScript.java:53-55 | `CREATE\W*FUNCTION.*` and `CREATE\W+PROCEDURE/PACKAGE.*` are in the class the greedy matcher decides exactly. |
| OracleSqlScript.CreateOrReplacePattern | flyway-core/src/main/java/com/googlecode/flyway/core/dbsupport/oracle/OracleSqlScript.java:56-58 | `CREATE\W+OR\W+REPLACE\W+<kind>.*` is in the class the greedy matcher decides exactly. |
| OracleSqlScript.ChangeDelimiterIfNecessary | flyway-core/src/main/java/com/googlecode/flyway/core/dbsupport/oracle/OracleSqlScript.java:46-63 | The result is `/` when the upper-cased line matches a DECLARE/BEGIN pattern or the upper-cased statement matches a CREATE pattern. Otherwise it is the current delimiter. |
| OracleSqlScript.ChangeDelimiterIgnoresCase | flyway-core/src/main/java/com/googlecode/flyway/core/dbsupport/oracle/OracleSqlScript.java:47-52 | Upper-casing the statement and the line beforehand changes no decision. |
| OracleSqlScript.BlockLineSwitches | flyway-core/src/main/java/com/googlecode/flyway/core/dbsupport/oracle/OracleSqlScript.java:47-49 | A line that is `DECLARE` or `BEGIN` in any case, alone or followed by whitespace and the rest of one line, yields `/`, whatever the statement. |
| OracleSqlScript.CreateOrReplaceMatches | flyway-core/src/main/java/com/googlecode/flyway/core/dbsupport/oracle/OracleSqlScript.java:56-58 | `CREATE OR REPLACE <kind>` followed by text without a line terminator matches the OR REPLACE pattern. |
| OracleSqlScript.CreateOrReplaceSwitches | flyway-core/src/main/java/com/googlecode/flyway/core/dbsupport/oracle/OracleSqlScript.java:52-60 | A statement that reads, in any case, `CREATE OR REPLACE FUNCTION/PROCEDURE/PACKAGE ...` on one line yields `/`. |
| OracleSqlScript.ComputeQCloseToken | flyway-core/src/main/java/com/googlecode/flyway/core/dbsupport/oracle/OracleSqlScript.java:166-180 | The close token is two characters long and ends in `'`. Its first character is the partner of the opener's third character for `[ ( { <`, and the character itself otherwise. |
| OracleSqlScript.ClassifyToken | flyway-core/src/main/java/com/googlecode/flyway/core/dbsupport/oracle/OracleSqlScript.java:128-147 | The types of one cleaned token, in the order QUOTE_OPEN, QUOTE_CLOSE, Q_OPEN, Q_CLOSE. The Q_CLOSE test uses the close token as just reset by a `q'` opener of length at least 3. |
| OracleSqlScript.ExtractStringLiteralDelimitingTokens | flyway-core/src/main/java/com/googlecode/flyway/core/dbsupport/oracle/OracleSqlScript.java:120-158 | The loop yields the typed tokens of the reference function `DelimitingTokens`, starting from close token `]'`. The close token carries over from token to token, untyped tokens are dropped, and one-character tokens are marked single-type. |
| OracleSqlScript.EndsWithOpenMultilineStringLiteral | flyway-core/src/main/java/com/googlecode/flyway/core/dbsupport/oracle/OracleSqlScript.java:66-111 | The nested loops compute whether either flag is set after the fold of the token types of the filtered, tokenised statement. |
| OracleSqlScript.ExclusiveKept | flyway-core/src/main/java/com/googlecode/flyway/core/dbsupport/oracle/OracleSqlScript.java:80-107 | Applying one token's types never sets both flags. |
| OracleSqlScript.FoldKeepsExclusive | flyway-core/src/main/java/com/googlecode/flyway/core/dbsupport/oracle/OracleSqlScript.java:77-110 | Throughout the fold, "inside quote literal" and "inside q-literal" are never both true. |
| OracleSqlScript.LiteralStateAfterExclusive | flyway-core/src/main/java/com/googlecode/flyway/core/dbsupport/oracle/OracleSqlScript.java:66-111 | After any statement, at most one kind of literal is open. |
| OracleSqlScript.NoQuoteNoTypes | flyway-core/src/main/java/com/googlecode/flyway/core/dbsupport/oracle/OracleSqlScript.java:130-147 | A token without `'` gets no type, whatever close token is active. |
| OracleSqlScript.NoQuoteNoDelimitingTokens | flyway-core/src/main/java/com/googlecode/flyway/core/dbsupport/oracle/OracleSqlScript.java:120-158 | Tokens without `'` yield no delimiting tokens. |
| OracleSqlScript.NoQuoteNotOpen | flyway-core/src/main/java/com/googlecode/flyway/core/dbsupport/oracle/OracleSqlScript.java:66-111 | A statement containing no `'` never ends inside a literal, through the `q'(` and `)'` rewriting and the tokenizer. |
| OracleSqlScript.LoneQuoteToken | flyway-core/src/main/java/com/googlecode/flyway/core/dbsupport/oracle/OracleSqlScript.java:87-98 | A one-character `'` token applies only its first type: from outside it opens a quote literal, inside one it closes it. |
| OracleSqlScript.NoAdjacentQuotes | flyway-core/src/main/java/com/googlecode/flyway/core/dbsupport/oracle/OracleSqlScript.java:126 | Removing escaped quotes leaves a token with no two adjacent `'` unchanged. |
| OracleSqlScript.QuotedTokenEndsOutside | flyway-core/src/main/java/com/googlecode/flyway/core/dbsupport/oracle/OracleSqlScript.java:87-98 | A token such as `'abc'` is one multi-type token. From outside it opens and closes, so the fold ends outside. |
| OracleSqlScript.QLiteralTokenTypes | flyway-core/src/main/java/com/googlecode/flyway/core/dbsupport/oracle/OracleSqlScript.java:126-147 | A one-token q-literal `q'Xw<close>` is left alone by cleaning. Its types are QUOTE_CLOSE, Q_OPEN, Q_CLOSE, and it sets the close token to its own. |
| OracleSqlScript.QLiteralTypesEndOutside | flyway-core/src/main/java/com/googlecode/flyway/core/dbsupport/oracle/OracleSqlScript.java:94-106 | From outside, QUOTE_CLOSE is skipped and Q_OPEN opens; then Q_CLOSE closes. |
| OracleSqlScript.QLiteralTokenEndsOutside | flyway-core/src/main/java/com/googlecode/flyway/core/dbsupport/oracle/OracleSqlScript.java:80-110 | A q-literal written as one token, such as `q'[abc]'`, ends outside any literal. |
| Migrations.CompareVersions | flyway-core/src/main/java/com/googlecode/flyway/core/migration/MigrationProvider.java:173 | The comparison is zero exactly for equal versions, and its sign agrees with the version order in both directions. |
| Migrations.VersionLeTransitive | flyway-core/src/main/java/com/googlecode/flyway/core/migration/MigrationProvider.java:138 | The version order used for sorting is transitive. Totality, reflexivity and antisymmetry are proved beside it. |
| Migrations.Reverse | flyway-core/src/main/java/com/googlecode/flyway/core/migration/MigrationProvider.java:139 | `Collections.reverse`: the same length, and element i is the old element at length-1-i. |
| Migrations.ReverseKeepsElements | flyway-core/src/main/java/com/googlecode/flyway/core/migration/MigrationProvider.java:139 | Reversal is a permutation, and reversing twice gives back the list. |
| Migrations.ReverseAscending | flyway-core/src/main/java/com/googlecode/flyway/core/migration/MigrationProvider.java:138-139 | The reverse of an ascending list is newest first. |
| Migrations.SortByVersion | flyway-core/src/main/java/com/googlecode/flyway/core/migration/MigrationProvider.java:138 | The sort is a permutation of its input. |
| Migrations.SortByVersionAscending | flyway-core/src/main/java/com/googlecode/flyway/core/migration/MigrationProvider.java:138 | The sorted list has non-decreasing versions. |
| MigrationProviders.AddAllProperties | flyway-core/src/main/java/com/googlecode/flyway/core/migration/MigrationProvider.java:156 | `addAll` keeps the set free of equal pairs and keeps what it held. It adds only elements of the argument, and every element of the argument ends up represented. |
| MigrationProviders.CollectedIsUnion | flyway-core/src/main/java/com/googlecode/flyway/core/migration/MigrationProvider.java:153-159 | The collection holds no two equal migrations and only migrations some resolver returned. Every migration any resolver returned is in it, itself or through an equal one. |
| MigrationProviders.CollectMigrations | flyway-core/src/main/java/com/googlecode/flyway/core/migration/MigrationProvider.java:153-159 | The loop over the resolvers builds exactly the union described by `Collected`. |
| MigrationProviders.FirstDuplicateIndex | flyway-core/src/main/java/com/googlecode/flyway/core/migration/MigrationProvider.java:170-175 | The lowest index whose version equals the next one's, or -1 exactly when no adjacent pair shares a version. |
| MigrationProviders.CheckForIncompatibilities | flyway-core/src/main/java/com/googlecode/flyway/core/migration/MigrationProvider.java:168-177 | The check fails, naming the version, at the first adjacent pair that compares equal. It passes otherwise, including for empty and one-element lists. |
| MigrationProviders.DoFindAvailableMigrations | flyway-core/src/main/java/com/googlecode/flyway/core/migration/MigrationProvider.java:130-144 | The result is the catalog: the union, sorted, reversed, then checked. |
| MigrationProviders.SortedNewestFirst | flyway-core/src/main/java/com/googlecode/flyway/core/migration/MigrationProvider.java:137-139 | Sorting and reversing gives a newest-first permutation of the collected migrations. |
| MigrationProviders.DescendingCheck | flyway-core/src/main/java/com/googlecode/flyway/core/migration/MigrationProvider.java:168-177 | On a newest-first list, the adjacent check finds a pair exactly when two entries share a version. |
| MigrationProviders.CatalogFailsIffDuplicate | flyway-core/src/main/java/com/googlecode/flyway/core/migration/MigrationProvider.java:137-141 | The catalog is refused exactly when two collected migrations share a version. |
| MigrationProviders.CatalogSuccess | flyway-core/src/main/java/com/googlecode/flyway/core/migration/MigrationProvider.java:137-143 | A successful catalog is a permutation of the collected migrations, strictly newest first, with every version once. |
| MigrationProviders.MigrationProvider.FindAvailableMigrations | flyway-core/src/main/java/com/googlecode/flyway/core/migration/MigrationProvider.java:114-120 | Every call returns the catalog. The first successful call stores it; a cached list is never replaced; a failed lookup leaves the cache empty. |
| DbValidators.NullSafeEquals | flyway-core/src/main/java/com/googlecode/flyway/core/runtime/DbValidator.java:107-109 | Two absent checksums are equal; absent against present is a mismatch; two present ones compare by value. |
| DbValidators.CheckPair | flyway-core/src/main/java/com/googlecode/flyway/core/runtime/DbValidator.java:97-112 | A pair is fine exactly when version, type and checksum agree. A version mismatch is reported before a type mismatch, which comes before a checksum mismatch. Each report names the applied script and carries the DB value and then the classpath value that differ. |
| DbValidators.FirstMismatchIndex | flyway-core/src/main/java/com/googlecode/flyway/core/runtime/DbValidator.java:93-113 | The lowest differing position, with all earlier positions matching, or -1 exactly when every applied position matches. |
| DbValidators.ValidationResult | flyway-core/src/main/java/com/googlecode/flyway/core/runtime/DbValidator.java:79-91 | With validation not ALL or the table missing, the result is none. With more applied records than classpath migrations, the report carries both counts. |
| DbValidators.LowestMismatchReported | flyway-core/src/main/java/com/googlecode/flyway/core/runtime/DbValidator.java:93-119 | There is no report exactly when every applied position matches. Otherwise the report is the discrepancy at a position before which everything matches. |
| DbValidators.ExtraClasspathMigrationsValid | flyway-core/src/main/java/com/googlecode/flyway/core/runtime/DbValidator.java:93 | Classpath migrations beyond the applied count never change the report. |
| DbValidators.MatchingHistoryValid | flyway-core/src/main/java/com/googlecode/flyway/core/runtime/DbValidator.java:93-119 | A history that equals the oldest classpath migrations validates. |
| DbValidators.TamperedChecksumReported | flyway-core/src/main/java/com/googlecode/flyway/core/runtime/DbValidator.java:107-111 | Changing one recorded checksum of an otherwise matching history is reported as a checksum mismatch. The report names that migration's script and both checksums. |
| DbValidators.MessageNamesScript | flyway-core/src/main/java/com/googlecode/flyway/core/runtime/DbValidator.java:89-111 | Every mismatch message contains the applied script's name. The count message contains both counts. |
| DbValidators.ReverseInPlace | flyway-core/src/main/java/com/googlecode/flyway/core/runtime/DbValidator.java:69 | The in-place swap loop leaves the array reversed. |
| DbValidators.DbValidator.constructor | flyway-core/src/main/java/com/googlecode/flyway/core/runtime/DbValidator.java:64-70 | The validator holds a fresh, reversed (oldest-first) copy, and the caller's array is unchanged. |
| DbValidators.DbValidator.Validate | flyway-core/src/main/java/com/googlecode/flyway/core/runtime/DbValidator.java:78-120 | The loop with early returns gives the message of `ValidationResult`'s discrepancy, or none. |
| BaseMigrations.ExtractSchemaVersion | flyway-core/src/main/java/com/googlecode/flyway/core/migration/BaseMigration.java:44-54 | The version never contains `_`, nor does a description. The description is absent exactly when the name has no `__`. The lengths of the parts add up to the name's. |
| BaseMigrations.SplitsAtFirstSeparator | flyway-core/src/main/java/com/googlecode/flyway/core/migration/BaseMigration.java:47-53 | Splitting occurs at the first `__`. The version is the part before it with `_` turned into `.`; the description is the part after it with `_` turned into a space. |
| BaseMigrations.WithoutSeparator | flyway-core/src/main/java/com/googlecode/flyway/core/migration/BaseMigration.java:46-53 | Without `__`, the description is null and the whole name, with `_` turned into `.`, is the version. |
| BaseMigrations.TrailingSeparatorGivesEmptyDescription | flyway-core/src/main/java/com/googlecode/flyway/core/migration/BaseMigration.java:47-49 | A name ending in its only `__` has an empty description that is present, not null. |
| BaseMigrations.DummyMigrationName | flyway-core/src/test/java/com/googlecode/flyway/core/migration/java/BaseJavaMigrationTest.java:30-32 | `1_2_3__Dummy_migration` gives version `1.2.3` and description `Dummy migration`. |
| BaseMigrations.BaseMigration.InitVersion | flyway-core/src/main/java/com/googlecode/flyway/core/migration/BaseMigration.java:31-33 | Only the schema version changes, and it becomes the extracted one. |
| LegacyMigration.ToInt32 | flyway-core/src/main/java/com/google/code/flyway/core/Migration.java:128 | The `(int)` cast gives a 32-bit value congruent to its argument modulo 2^32, and leaves values already in range alone. |
| LegacyMigration.ToInt32Unique | flyway-core/src/main/java/com/google/code/flyway/core/Migration.java:128 | The cast's result is the only int of its residue, so a wrapped long difference casts to the same int as the exact one. |
| LegacyMigration.Migration.constructor | flyway-core/src/main/java/com/google/code/flyway/core/Migration.java:34-49 | A fresh migration has version EMPTY, state UNKNOWN, execution time -1 and no script name. |
| LegacyMigration.Migration.GetVersion | flyway-core/src/main/java/com/google/code/flyway/core/Migration.java:54-56 | Returns the version field. |
| LegacyMigration.Migration.GetState | flyway-core/src/main/java/com/google/code/flyway/core/Migration.java:61-63 | Returns the state field. |
| LegacyMigration.Migration.GetExecutionTime | flyway-core/src/main/java/com/google/code/flyway/core/Migration.java:68-70 | Returns the execution time, which always fits an int. |
| LegacyMigration.Migration.GetScriptName | flyway-core/src/main/java/com/google/code/flyway/core/Migration.java:75-77 | Returns the script name, null until set. |
| LegacyMigration.Migration.AssertNotFailed | flyway-core/src/main/java/com/google/code/flyway/core/Migration.java:85-90 | Fails exactly when the state is FAILED. The message names the version and demands restoring backups and rolling back. |
| LegacyMigration.Migration.Migrate | flyway-core/src/main/java/com/google/code/flyway/core/Migration.java:101-129 | The state becomes SUCCESS when the body completes and FAILED when it throws an Exception. A java.lang.Error is not caught, so it leaves the state as it was. In all three cases the execution time becomes the elapsed time cast to int. Nothing else changes. |
| SqlMigrations.ToSignedInt | flyway-core/src/main/java/com/googlecode/flyway/core/migration/sql/SqlMigration.java:77 | The 32 CRC bits read as a signed int: in range, equal to the unsigned value or 2^32 below it, and negative exactly when the top bit is set. |
| SqlMigrations.ToSignedIntInjective | flyway-core/src/main/java/com/googlecode/flyway/core/migration/sql/SqlMigration.java:77 | The cast loses no information: different CRC values give different checksums. |
| SqlMigrations.CalculateChecksum | flyway-core/src/main/java/com/googlecode/flyway/core/migration/sql/SqlMigration.java:74-78 | The byte loop with its eight shifts per byte computes the CRC-32 of the bytes, read as a signed int. |
| SqlMigrations.RegisterInjective | flyway-core/src/main/java/com/googlecode/flyway/core/migration/sql/SqlMigration.java:76 | Feeding the same bytes to two different registers never makes them equal. |
| SqlMigrations.SingleByteChangeDetected | flyway-core/src/main/java/com/googlecode/flyway/core/migration/sql/SqlMigration.java:74-78 | Changing any one byte of the script, at any position, changes its CRC-32. |
| SqlMigrations.ChecksumDetectsSingleByteChange | flyway-core/src/main/java/com/googlecode/flyway/core/migration/sql/SqlMigration.java:57 | The recorded int checksum changes as well. |
| SqlMigrations.CheckValue | flyway-core/src/main/java/com/googlecode/flyway/core/migration/sql/SqlMigration.java:74-78 | The CRC-32 of `123456789` is the standard check value 0xCBF43926. |
| SqlMigrations.ChecksumOf | flyway-core/src/main/java/com/googlecode/flyway/core/migration/sql/SqlMigration.java:57 | The checksum of a script text fits a Java int. |
| SqlMigrations.SqlMigration.constructor | flyway-core/src/main/java/com/googlecode/flyway/core/migration/sql/SqlMigration.java:52-61 | Version and description come from the same version string. The checksum is that of the raw source, whatever the placeholders are. The script name is the file name. |
| SqlMigrations.SqlMigration.GetMigrationType | flyway-core/src/main/java/com/googlecode/flyway/core/migration/sql/SqlMigration.java:80-83 | The type is always SQL. |
| SqlMigrations.SqlMigration.AsMigration | flyway-core/src/main/java/com/googlecode/flyway/core/migration/sql/SqlMigration.java:32-83 | What the catalog and the validator read through `Migration`'s getters: the fields the constructor set, and type SQL. The superclass `Migration` of the new package is not part of this model. |
| SqlMigrations.EditedScriptFailsValidation | flyway-core/src/main/java/com/googlecode/flyway/core/migration/sql/SqlMigration.java:57 | A script changed in one byte after it was applied keeps its version and type SQL, but its checksum differs from the recorded one. `DbValidators.CheckPair` therefore reports a checksum mismatch, with the recorded and the new checksum. |
| DbSupportFactory.CreateDbSupport | flyway-core/src/main/java/com/googlecode/flyway/core/dbsupport/DbSupportFactory.java:55-90 | A null name is the "unable to determine" error, and only a null name is. Every other refusal is "Unsupported" with the name. |
| DbSupportFactory.ExactNamesAreNotDb2 | flyway-core/src/main/java/com/googlecode/flyway/core/dbsupport/DbSupportFactory.java:63-87 | No exactly matched name starts with `DB2`, so the order of the tests does not matter. |
| DbSupportFactory.DispatchIsLookup | flyway-core/src/main/java/com/googlecode/flyway/core/dbsupport/DbSupportFactory.java:63-89 | The dispatch is the table of the eight exact names, then the `DB2` prefix rule, then the error. |
| DbSupportFactory.Db2IffPrefix | flyway-core/src/main/java/com/googlecode/flyway/core/dbsupport/DbSupportFactory.java:83-87 | DB2 is chosen exactly for the names starting with `DB2`. |
| DbSupportFactory.SupportedIffKnown | flyway-core/src/main/java/com/googlecode/flyway/core/dbsupport/DbSupportFactory.java:63-89 | A name is supported exactly when it is a listed name or starts with `DB2`. |
| DbSupportFactory.Db2WithPlatform | flyway-core/src/main/java/com/googlecode/flyway/core/dbsupport/DbSupportFactory.java:83-86 | `DB2/NT` is DB2. |
| DbSupportFactory.CaseSensitive | flyway-core/src/main/java/com/googlecode/flyway/core/dbsupport/DbSupportFactory.java:63-89 | `h2` and `oracle` are unsupported: the matching is case-sensitive. |
| DbSupportFactory.AgreesWithLegacyOracleSupport | flyway-core/src/main/java/com/googlecode/flyway/core/dbsupport/DbSupportFactory.java:77-79 | The factory picks Oracle for exactly the names the first package's Oracle support accepts. |
| LegacyOracleDbSupport.CreateSchemaMetaDataTableSql | flyway-core/src/main/java/com/google/code/flyway/core/dbsupport/OracleDbSupport.java:29-43 | There are two statements. The first starts `CREATE TABLE <t> (` and ends `)`; the second starts `ALTER TABLE <t> ADD INDEX <t>`. |
| LegacyOracleDbSupport.CreateTableSql | flyway-core/src/main/java/com/google/code/flyway/core/dbsupport/OracleDbSupport.java:30-38 | The create-table statement opens with the table name and a parenthesis and ends with the closing one. |
| LegacyOracleDbSupport.AddIndexSql | flyway-core/src/main/java/com/google/code/flyway/core/dbsupport/OracleDbSupport.java:39-40 | The index statement starts `ALTER TABLE <t> ADD INDEX <t>`. |
| LegacyOracleDbSupport.CreateTableAroundColumns | flyway-core/src/main/java/com/google/code/flyway/core/dbsupport/OracleDbSupport.java:30-40 | The two statements in full: the table name around the fixed column list, and the index on current_version. |
| LegacyOracleDbSupport.ColumnOrder | flyway-core/src/main/java/com/google/code/flyway/core/dbsupport/OracleDbSupport.java:31-37 | Each column's indented name occurs at its offset in the column list. |
| LegacyOracleDbSupport.ColumnOffsetsIncrease | flyway-core/src/main/java/com/google/code/flyway/core/dbsupport/OracleDbSupport.java:31-37 | Column offsets grow strictly with the index. |
| LegacyOracleDbSupport.MetaDataColumnsInOrder | flyway-core/src/main/java/com/google/code/flyway/core/dbsupport/OracleDbSupport.java:31-37 | The columns version, description, script, installed_on, execution_time, state and current_version appear in that order. |
| LegacyOracleDbSupport.DdlDeterminesTable | flyway-core/src/main/java/com/google/code/flyway/core/dbsupport/OracleDbSupport.java:29-43 | Different table names give different DDL. |
| LegacyOracleDbSupport.SupportsDatabase | flyway-core/src/main/java/com/google/code/flyway/core/dbsupport/OracleDbSupport.java:51-53 | True exactly for the product name `Oracle`; false for null. |
| LegacyOracleDbSupport.SupportsDdlTransactions | flyway-core/src/main/java/com/google/code/flyway/core/dbsupport/OracleDbSupport.java:63-65 | Always true. |
| ClassUtils.GetShortName | flyway-core/src/main/java/com/googlecode/flyway/core/util/ClassUtils.java:73-76 | The short name has no `.`, is a suffix of the name, and is the whole name when there is no dot. Otherwise the name is a prefix, a dot and the short name. |
| ClassUtils.ShortNameOfQualifiedName | flyway-core/src/main/java/com/googlecode/flyway/core/util/ClassUtils.java:75 | For any package, the short name of `package.Simple` is `Simple`. |
| ClassUtils.ShortNameIdempotent | flyway-core/src/main/java/com/googlecode/flyway/core/util/ClassUtils.java:75 | Taking the short name twice changes nothing. |
| FileSystemLocationScanner.ClassPathRoot | flyway-core/src/main/java/com/googlecode/flyway/core/util/scanner/FileSystemLocationScanner.java:34-37 | The call fails exactly when the location is longer than the URL, as the negative substring end makes it. Otherwise the root is the URL minus the location's length, ending in `/`, with a `/` appended only if missing. |
| FileSystemLocationScanner.ClassPathRootKeepsUrlPrefix | flyway-core/src/main/java/com/googlecode/flyway/core/util/scanner/FileSystemLocationScanner.java:34-37 | The root starts with the cut URL and is at most one character longer. |
| FileSystemLocationScanner.ToResourceNameOnClasspath | flyway-core/src/main/java/com/googlecode/flyway/core/util/scanner/FileSystemLocationScanner.java:79-86 | The call fails exactly when the path is shorter than the root. Otherwise the name is the path's tail after the root's length; under the root, root plus name is the path. |
| FileSystemLocationScanner.ResourceNameRoundTrip | flyway-core/src/main/java/com/googlecode/flyway/core/util/scanner/FileSystemLocationScanner.java:85 | The resource name of `root + name` is `name`. |
| FileSystemLocationScanner.ScanEntry | flyway-core/src/main/java/com/googlecode/flyway/core/util/scanner/FileSystemLocationScanner.java:60-65 | An unreadable entry contributes nothing. |
| FileSystemLocationScanner.ScanFolder | flyway-core/src/main/java/com/googlecode/flyway/core/util/scanner/FileSystemLocationScanner.java:58-59 | A folder whose listing is null ends the scan with an error. |
| FileSystemLocationScanner.FindResourceNamesFromFileSystem | flyway-core/src/main/java/com/googlecode/flyway/core/util/scanner/FileSystemLocationScanner.java:53-70 | The loop and its recursion compute the left-to-right scan of the tree: the first exception, or the union of the entries' names. |
| FileSystemLocationScanner.FindResourceNames | flyway-core/src/main/java/com/googlecode/flyway/core/util/scanner/FileSystemLocationScanner.java:33-40 | A location longer than its URL ends in that error; otherwise the result is the scan of the URL's folder from the computed root. |
| FileSystemLocationScanner.ScanFolderFindsFiles | flyway-core/src/main/java/com/googlecode/flyway/core/util/scanner/FileSystemLocationScanner.java:53-70 | The scan succeeds exactly when every listing reached exists and every readable file lies under the root. It then finds the resource names of exactly the readable files reached through readable directories. |
| FileSystemLocationScanner.ScanFromFindsFiles | flyway-core/src/main/java/com/googlecode/flyway/core/util/scanner/FileSystemLocationScanner.java:59-67 | Scanning the entries from one index on succeeds exactly when each of them is scannable, and finds the names of their files. |
| FileSystemLocationScanner.ScanEntryFindsFiles | flyway-core/src/main/java/com/googlecode/flyway/core/util/scanner/FileSystemLocationScanner.java:60-65 | One entry: nothing when unreadable, its tree when a directory, its own name when a file under the root; an error otherwise. |

## Left out

- I/O and the database are not part of this model:
  - resource loading (`ResourceUtils`);
  - the JDBC connection and its metadata query (`getDatabaseProductName`);
  - the metadata-table queries, which are a snapshot value here;
  - `SqlMigration.migrate`, which runs the script through the dialect's splitter;
  - `OracleDbSupport.getCurrentSchema` and `metaDataTableExists`.
- The charset encoding of `String.getBytes()` is a function parameter of the checksum.
- The file system of the scanner is an abstract tree of entries with decoded path strings. `File`, URL construction and `URLDecoder` are not part of this model.
- The migration thread, `join`, its swallowed `InterruptedException` and the transaction template are not modelled. `LegacyMigration.Migration.Migrate` takes the body's outcome (completes, Exception or Error) and the two clock readings as inputs. The uncaught Error's stack trace on the thread is not modelled.
- Logging and the stop watch of `validate` are omitted: they affect no result.
- `toUpperCase` is ASCII upper-casing only. Locale-specific case mappings are not modelled.
- Migrations.SortByVersion: only the order of versions and the permutation are stated. How `Collections.sort` arranges migrations of equal version (stable merge sort) is not modelled; it affects no result, because such a catalog is refused.
- MigrationProviders.Catalog: the `HashSet` iteration order feeding the sort is the resolvers' order here. Only the multiset of the sorted result is claimed about it.
- MigrationProviders.MigrationProvider.constructor: the resolver configuration (base package, directory, encoding, prefixes, placeholders) is not modelled. The constructor takes what the two resolvers return.
- FileSystemLocationScanner.FindResourceNamesFromFileSystem: the result is a set. The `TreeSet`'s sorted iteration order is not modelled.
- `SchemaVersion` of the first package only models its `EMPTY` constant and a version text. How it prints is a parameter of `AssertNotFailed`.
