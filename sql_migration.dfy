/**
 * A migration read from an SQL script: its version and description come from the
 * version string, its script name from the file name, its type is always SQL, and its
 * checksum is the CRC-32 of the script's bytes read as a signed int. The CRC-32 is the
 * one of java.util.zip.CRC32 (IEEE 802.3): reflected polynomial 0xEDB88320, register
 * started at all ones, result XORed with all ones.
 */
module SqlMigrations {
  import opened Wrappers
  import opened Migrations
  import DbValidators

  type byte = bv8

  /** The reflected CRC-32 polynomial. */
  const Polynomial: bv32 := 0xEDB8_8320
  const AllOnes: bv32 := 0xFFFF_FFFF

  /** One shift of the register: shift right, folding the polynomial in when a 1 falls off. */
  function Step(c: bv32): bv32 {
    if c & 1 == 1 then (c >> 1) ^ Polynomial else c >> 1
  }

  /** `n` shifts of the register. */
  function Rounds(c: bv32, n: nat): bv32 {
    if n == 0 then c else Step(Rounds(c, n - 1))
  }

  /** The register after one more byte: the byte enters the low bits, then eight shifts. */
  function ByteUpdate(c: bv32, b: byte): bv32 {
    Rounds(c ^ (b as bv32), 8)
  }

  /** The register after the bytes `s`, from `c`, one byte at a time. */
  function Register(c: bv32, s: seq<byte>): bv32
    decreases |s|
  {
    if s == [] then c else ByteUpdate(Register(c, s[..|s| - 1]), s[|s| - 1])
  }

  /** CRC32.getValue after update(s) on a fresh accumulator. */
  function Crc32(s: seq<byte>): bv32 {
    Register(AllOnes, s) ^ AllOnes
  }

  /** The cast (int) of the long getValue returns: the 32 bits read as a signed number. */
  function ToSignedInt(v: bv32): (r: int)
    ensures -0x8000_0000 <= r < 0x8000_0000
    ensures r == v as int || r == v as int - 0x1_0000_0000
    ensures r < 0 <==> v as int >= 0x8000_0000
  {
    var u := v as int;
    if u >= 0x8000_0000 then u - 0x1_0000_0000 else u
  }

  lemma BitsAsIntRoundTrip(v: bv32)
    ensures (v as int) as bv32 == v
  {
  }

  lemma ToSignedIntInjective(v: bv32, w: bv32)
    requires ToSignedInt(v) == ToSignedInt(w)
    ensures v == w
  {
    assert v as int == w as int;
    BitsAsIntRoundTrip(v);
    BitsAsIntRoundTrip(w);
  }

  /** calculateChecksum: feeds the bytes to the accumulator and casts its value to int. */
  method CalculateChecksum(sql: seq<byte>) returns (r: int)
    ensures r == ToSignedInt(Crc32(sql))
  {
    var crc := AllOnes;
    var i := 0;
    while i < |sql|
      invariant 0 <= i <= |sql|
      invariant crc == Register(AllOnes, sql[..i])
    {
      var start := crc ^ (sql[i] as bv32);
      var c := start;
      var k := 0;
      while k < 8
        invariant 0 <= k <= 8
        invariant c == Rounds(start, k)
      {
        if c & 1 == 1 {
          c := (c >> 1) ^ Polynomial;
        } else {
          c := c >> 1;
        }
        k := k + 1;
      }
      assert sql[..i + 1][..i] == sql[..i];
      crc := c;
      i := i + 1;
    }
    assert sql[..|sql|] == sql;
    r := ToSignedInt(crc ^ AllOnes);
  }

  /** One shift loses nothing: the top bit of the result says whether the polynomial was folded in. */
  lemma StepInjective(a: bv32, b: bv32)
    requires Step(a) == Step(b)
    ensures a == b
  {
  }

  lemma {:induction false} RoundsInjective(a: bv32, b: bv32, n: nat)
    requires Rounds(a, n) == Rounds(b, n)
    ensures a == b
    decreases n
  {
    if n > 0 {
      StepInjective(Rounds(a, n - 1), Rounds(b, n - 1));
      RoundsInjective(a, b, n - 1);
    }
  }

  /** Two registers that differ stay different after the same byte. */
  lemma ByteUpdateInjective(c: bv32, d: bv32, b: byte)
    requires ByteUpdate(c, b) == ByteUpdate(d, b)
    ensures c == d
  {
    RoundsInjective(c ^ (b as bv32), d ^ (b as bv32), 8);
    assert c == (c ^ (b as bv32)) ^ (b as bv32);
  }

  /** Two different bytes take one register to two different registers. */
  lemma ByteUpdateSeparatesBytes(c: bv32, b: byte, b': byte)
    requires b != b'
    ensures ByteUpdate(c, b) != ByteUpdate(c, b')
  {
    if ByteUpdate(c, b) == ByteUpdate(c, b') {
      RoundsInjective(c ^ (b as bv32), c ^ (b' as bv32), 8);
    }
  }

  /** The eight shifts of one byte, written out. */
  lemma ByteUpdateUnfolded(c: bv32, b: byte)
    ensures ByteUpdate(c, b) == Step(Step(Step(Step(Step(Step(Step(Step(c ^ (b as bv32)))))))))
  {
    var x := c ^ (b as bv32);
    assert Rounds(x, 1) == Step(x);
    assert Rounds(x, 2) == Step(Step(x));
    assert Rounds(x, 3) == Step(Step(Step(x)));
    assert Rounds(x, 4) == Step(Step(Step(Step(x))));
    assert Rounds(x, 5) == Step(Step(Step(Step(Step(x)))));
    assert Rounds(x, 6) == Step(Step(Step(Step(Step(Step(x))))));
    assert Rounds(x, 7) == Step(Step(Step(Step(Step(Step(Step(x)))))));
  }

  lemma RegisterSnoc(c: bv32, s: seq<byte>, k: nat)
    requires k < |s|
    ensures Register(c, s[..k + 1]) == ByteUpdate(Register(c, s[..k]), s[k])
  {
    assert s[..k + 1][..k] == s[..k];
  }

  /** Feeding `a` then `b` is feeding `a + b`: the accumulator may be updated in pieces. */
  lemma {:induction false} RegisterAppend(c: bv32, a: seq<byte>, b: seq<byte>)
    ensures Register(c, a + b) == Register(Register(c, a), b)
    decreases |b|
  {
    if b == [] {
      assert a + b == a;
    } else {
      var n := |b| - 1;
      assert (a + b)[..|a + b| - 1] == a + b[..n];
      RegisterAppend(c, a, b[..n]);
    }
  }

  /** Registers that differ before a run of bytes still differ after it. */
  lemma {:induction false} RegisterInjective(c: bv32, d: bv32, s: seq<byte>)
    requires Register(c, s) == Register(d, s)
    ensures c == d
    decreases |s|
  {
    if s != [] {
      var n := |s| - 1;
      ByteUpdateInjective(Register(c, s[..n]), Register(d, s[..n]), s[n]);
      RegisterInjective(c, d, s[..n]);
    }
  }

  /** Changing any one byte of a script always changes its CRC-32. */
  lemma SingleByteChangeDetected(p: seq<byte>, b: byte, b': byte, s: seq<byte>)
    requires b != b'
    ensures Crc32(p + [b] + s) != Crc32(p + [b'] + s)
  {
    var base := Register(AllOnes, p);
    RegisterAppend(AllOnes, p + [b], s);
    RegisterAppend(AllOnes, p + [b'], s);
    RegisterAppend(AllOnes, p, [b]);
    RegisterAppend(AllOnes, p, [b']);
    assert Register(base, [b]) == ByteUpdate(base, b) by { assert [b][..0] == []; }
    assert Register(base, [b']) == ByteUpdate(base, b') by { assert [b'][..0] == []; }
    ByteUpdateSeparatesBytes(base, b, b');
    if Crc32(p + [b] + s) == Crc32(p + [b'] + s) {
      assert Register(AllOnes, p + [b] + s) == Register(AllOnes, p + [b'] + s);
      RegisterInjective(ByteUpdate(base, b), ByteUpdate(base, b'), s);
    }
  }

  /** So does the checksum a migration records. */
  lemma ChecksumDetectsSingleByteChange(p: seq<byte>, b: byte, b': byte, s: seq<byte>)
    requires b != b'
    ensures ToSignedInt(Crc32(p + [b] + s)) != ToSignedInt(Crc32(p + [b'] + s))
  {
    SingleByteChangeDetected(p, b, b', s);
    if ToSignedInt(Crc32(p + [b] + s)) == ToSignedInt(Crc32(p + [b'] + s)) {
      ToSignedIntInjective(Crc32(p + [b] + s), Crc32(p + [b'] + s));
    }
  }

  /** The bytes of "123456789" in ASCII. */
  const CheckInput: seq<byte> := [0x31, 0x32, 0x33, 0x34, 0x35, 0x36, 0x37, 0x38, 0x39]

  lemma CheckInputFirstBytes()
    ensures Register(AllOnes, CheckInput[..3]) == 0x77B7_9C2D
  {
    var s := CheckInput;
    RegisterSnoc(AllOnes, s, 0);
    assert s[..0] == [];
    ByteUpdateUnfolded(AllOnes, 0x31);
    assert ByteUpdate(AllOnes, 0x31) == 0x7C23_1048;
    RegisterSnoc(AllOnes, s, 1);
    ByteUpdateUnfolded(0x7C23_1048, 0x32);
    assert ByteUpdate(0x7C23_1048, 0x32) == 0xB0AC_BB32;
    RegisterSnoc(AllOnes, s, 2);
    ByteUpdateUnfolded(0xB0AC_BB32, 0x33);
    assert ByteUpdate(0xB0AC_BB32, 0x33) == 0x77B7_9C2D;
  }

  lemma CheckInputMiddleBytes()
    ensures Register(AllOnes, CheckInput[..6]) == 0xF68D_2C9E
  {
    var s := CheckInput;
    CheckInputFirstBytes();
    RegisterSnoc(AllOnes, s, 3);
    ByteUpdateUnfolded(0x77B7_9C2D, 0x34);
    assert ByteUpdate(0x77B7_9C2D, 0x34) == 0x641C_1F5C;
    RegisterSnoc(AllOnes, s, 4);
    ByteUpdateUnfolded(0x641C_1F5C, 0x35);
    assert ByteUpdate(0x641C_1F5C, 0x35) == 0x340A_C5E3;
    RegisterSnoc(AllOnes, s, 5);
    ByteUpdateUnfolded(0x340A_C5E3, 0x36);
    assert ByteUpdate(0x340A_C5E3, 0x36) == 0xF68D_2C9E;
  }

  /** The standard check value: the CRC-32 of "123456789" is 0xCBF43926. */
  lemma CheckValue()
    ensures Crc32(CheckInput) == 0xCBF4_3926
  {
    var s := CheckInput;
    CheckInputMiddleBytes();
    RegisterSnoc(AllOnes, s, 6);
    ByteUpdateUnfolded(0xF68D_2C9E, 0x37);
    assert ByteUpdate(0xF68D_2C9E, 0x37) == 0xAFFC_9660;
    RegisterSnoc(AllOnes, s, 7);
    ByteUpdateUnfolded(0xAFFC_9660, 0x38);
    assert ByteUpdate(0xAFFC_9660, 0x38) == 0x651F_2550;
    RegisterSnoc(AllOnes, s, 8);
    ByteUpdateUnfolded(0x651F_2550, 0x39);
    assert ByteUpdate(0x651F_2550, 0x39) == 0x340B_C6D9;
    assert s[..9] == s;
  }

  /** The checksum of a script text, given the charset encoding getBytes applies. */
  function ChecksumOf(getBytes: string -> seq<byte>, sqlScriptSource: string): (r: int)
    ensures -0x8000_0000 <= r < 0x8000_0000
  {
    ToSignedInt(Crc32(getBytes(sqlScriptSource)))
  }

  class SqlMigration {
    /** The placeholders the replacer substitutes when the script runs. */
    const placeholders: map<string, string>
    /** The script text as loaded, placeholders not yet replaced. */
    const sqlScriptSource: string
    var schemaVersion: Version
    var description: Option<string>
    var checksum: Option<int>
    var script: string

    /**
     * Version and description both come from the version string; the checksum from the
     * raw script text, so the placeholders have no part in it; the script name is the
     * file name.
     */
    constructor(filename: string, sqlScriptSource: string, placeholders: map<string, string>,
                versionString: string, versionOf: string -> Version, descriptionOf: string -> Option<string>,
                getBytes: string -> seq<byte>)
      ensures schemaVersion == versionOf(versionString) && description == descriptionOf(versionString)
      ensures checksum == Some(ChecksumOf(getBytes, sqlScriptSource))
      ensures script == filename
      ensures this.sqlScriptSource == sqlScriptSource && this.placeholders == placeholders
    {
      schemaVersion := versionOf(versionString);
      description := descriptionOf(versionString);
      this.sqlScriptSource := sqlScriptSource;
      var crc := CalculateChecksum(getBytes(sqlScriptSource));
      checksum := Some(crc);
      script := filename;
      this.placeholders := placeholders;
    }

    function GetMigrationType(): (r: MigrationType)
      ensures r == SQL
    {
      SQL
    }

    /** The record the catalog and the validator compare. */
    function AsMigration(): (r: Migration)
      reads this
      ensures r.migrationType == SQL
      ensures r.version == schemaVersion && r.description == description
      ensures r.checksum == checksum && r.script == script
    {
      Migration(schemaVersion, description, script, checksum, GetMigrationType())
    }
  }

  /**
   * A script edited in one byte after it was applied: its record, as the catalog hands it
   * to the validator, agrees with the history in version and type, so the validator
   * reports the checksum mismatch with the recorded and the new checksum.
   */
  lemma EditedScriptFailsValidation(m: SqlMigration, applied: Migration, getBytes: string -> seq<byte>,
                                    recordedSource: string, p: seq<byte>, b: byte, b': byte, s: seq<byte>)
    requires b != b'
    requires getBytes(recordedSource) == p + [b] + s && getBytes(m.sqlScriptSource) == p + [b'] + s
    requires m.checksum == Some(ChecksumOf(getBytes, m.sqlScriptSource))
    requires applied.version == m.schemaVersion && applied.migrationType == SQL
    requires applied.checksum == Some(ChecksumOf(getBytes, recordedSource))
    ensures DbValidators.CheckPair(applied, m.AsMigration())
         == Some(DbValidators.ChecksumMismatch(applied.script, applied.checksum, m.checksum))
  {
    ChecksumDetectsSingleByteChange(p, b, b', s);
  }
}
