/**
 The agent's write-ahead log: frames of [length][checksum][data] appended to a file, and read back up to the first
 frame that is not intact. Length and checksum are 32-bit little-endian fields.
 */
module Wal {
  import opened Bytes
  import opened Crc32
  import opened Framing

  /** read_all refuses records longer than this. */
  const MAX_RECORD: nat := 1024 * 1024
  const TWO_TO_32: nat := 0x1_0000_0000

  // ----- Little-endian fields -----

  function LittleEndian(n: nat, width: nat): (field: ByteString)
    ensures |field| == width
    decreases width
  {
    if width == 0 then [] else [n % 256] + LittleEndian(n / 256, width - 1)
  }

  function NumberOf(field: ByteString): nat {
    if field == [] then 0 else field[0] + 256 * NumberOf(field[1..])
  }

  function Values(width: nat): (n: nat)
    ensures n > 0
  {
    if width == 0 then 1 else 256 * Values(width - 1)
  }

  lemma {:induction false} LittleEndianRoundTrip(n: nat, width: nat)
    requires n < Values(width)
    ensures NumberOf(LittleEndian(n, width)) == n
    decreases width
  {
    if width > 0 {
      LittleEndianRoundTrip(n / 256, width - 1);
      assert LittleEndian(n, width)[1..] == LittleEndian(n / 256, width - 1);
    }
  }

  lemma {:induction false} NumberOfRoundTrip(field: ByteString)
    ensures LittleEndian(NumberOf(field), |field|) == field
  {
    if field != [] {
      NumberOfRoundTrip(field[1..]);
      var n, rest := NumberOf(field), NumberOf(field[1..]);
      assert n % 256 == field[0] && n / 256 == rest;
    }
  }

  /** The four bytes of an unsigned 32-bit length; a longer length is cut. */
  function LengthField(n: nat): ByteString {
    LittleEndian(n, 4)
  }

  function ChecksumField(data: ByteString): (field: ByteString)
    ensures |field| == 4
  {
    LittleEndian(CrcNumber(data), 4)
  }

  /** The bytes of the two fields, lowest first. */
  lemma FieldBytes(n: nat, field: ByteString)
    requires n < 0x1_0000_0000 && |field| == 4
    ensures LengthField(n) == [n % 256, n / 256 % 256, n / 65536 % 256, n / 16777216 % 256]
    ensures NumberOf(field)
         == (field[0] as int) + 256 * (field[1] as int) + 65536 * (field[2] as int) + 16777216 * (field[3] as int)
  {
    FourBytes(n);
    NumberOfFour(field);
  }

  lemma FourBytes(n: nat)
    ensures LittleEndian(n, 4) == [n % 256, n / 256 % 256, n / 65536 % 256, n / 16777216 % 256]
  {
    var b, c, d := n / 256, n / 256 / 256, n / 256 / 256 / 256;
    assert c == n / 65536 && d == n / 16777216;
    assert LittleEndian(d, 1) == [d % 256] + LittleEndian(d / 256, 0);
    assert LittleEndian(c, 2) == [c % 256] + LittleEndian(d, 1);
    assert LittleEndian(b, 3) == [b % 256] + LittleEndian(c, 2);
    assert LittleEndian(n, 4) == [n % 256] + LittleEndian(b, 3);
  }

  lemma NumberOfFour(field: ByteString)
    requires |field| == 4
    ensures NumberOf(field)
         == (field[0] as int) + 256 * (field[1] as int) + 65536 * (field[2] as int) + 16777216 * (field[3] as int)
  {
    var b, c, d := field[1..], field[2..], field[3..];
    assert b[1..] == c && c[1..] == d && d[1..] == [];
    assert NumberOf(d) == field[3] && NumberOf(c) == field[2] + 256 * NumberOf(d);
    assert NumberOf(b) == field[1] + 256 * NumberOf(c);
  }

  const FORMAT: Format<Byte> := Format(LengthField, NumberOf, ChecksumField, MAX_RECORD)

  lemma FormatSound()
    ensures FORMAT.Sound()
  {
    assert Values(4) == TWO_TO_32;
    forall n: nat | n <= MAX_RECORD ensures |LengthField(n)| == 4 && NumberOf(LengthField(n)) == n {
      LittleEndianRoundTrip(n, 4);
    }
    forall field: ByteString | |field| == 4 ensures LengthField(NumberOf(field)) == field {
      NumberOfRoundTrip(field);
    }
  }

  /** A format whose fields are the ones above. */
  ghost predicate CodedAsWal(fmt: Format<Byte>) {
    && (forall n: nat {:trigger LengthField(n)} :: fmt.lengthField(n) == LengthField(n))
    && (forall field: ByteString {:trigger NumberOf(field)} :: fmt.lengthOf(field) == NumberOf(field))
    && (forall data: ByteString {:trigger ChecksumField(data)} :: fmt.checksumField(data) == ChecksumField(data))
    && fmt.maxRecord == MAX_RECORD
  }

  /** What append writes: the length is cut to 32 bits, the checksum covers all of the data. */
  function Written(data: ByteString): ByteString {
    LengthField(|data|) + ChecksumField(data) + data[..|data| % TWO_TO_32]
  }

  lemma WrittenIsFrame(fmt: Format<Byte>, data: ByteString)
    requires fmt.Sound() && CodedAsWal(fmt) && |data| <= MAX_RECORD
    ensures Written(data) == fmt.Frame(data)
  {
    assert data[..|data|] == data;
  }

  /** What append writes, byte by byte: the length, the checksum, both lowest byte first, and the data. */
  lemma WrittenBytes(data: ByteString)
    requires |data| <= 1_048_576
    ensures var n, crc := |data|, CrcNumber(data);
            Written(data)
            == [n % 256, n / 256 % 256, n / 65536 % 256, 0]
               + [crc % 256, crc / 256 % 256, crc / 65536 % 256, crc / 16777216 % 256] + data
  {
    LengthBytes(|data|);
    FourBytes(CrcNumber(data));
    assert data[..|data|] == data;
  }

  lemma LengthBytes(n: nat)
    requires n <= 1_048_576
    ensures LengthField(n) == [n % 256, n / 256 % 256, n / 65536 % 256, 0]
  {
    FourBytes(n);
  }

  ghost function ParseLog(file: ByteString): seq<ByteString> {
    FormatSound();
    FORMAT.ParseLog(file)
  }

  ghost predicate Readable(records: seq<ByteString>) {
    FORMAT.Readable(records)
  }

  /** The file after appending the records to an empty log. */
  ghost function Log(records: seq<ByteString>): ByteString
    requires Readable(records)
  {
    FormatSound();
    FORMAT.EncodeAll(records)
  }

  // ----- Damage -----

  /** A burst of up to 32 bits inside the data of one record: reading stops just before it, whatever follows. */
  lemma DamagedData(before: seq<ByteString>, data: ByteString, damaged: ByteString, at: nat, n: nat, after: ByteString)
    requires Readable(before) && |data| <= MAX_RECORD && DifferInBurst(data, damaged, at, n)
    ensures ParseLog(Log(before) + (LengthField(|data|) + ChecksumField(data) + damaged + after)) == before
  {
    FormatSound();
    BurstDetected(data, damaged, at, n);
    assert Values(4) == TWO_TO_32;
    LittleEndianRoundTrip(CrcNumber(data), 4);
    LittleEndianRoundTrip(CrcNumber(damaged), 4);
    FORMAT.DamagedRecord(before, ChecksumField(data), damaged, after);
  }

  /** Any change to the checksum field of one record: reading stops just before it, whatever follows. */
  lemma DamagedChecksum(before: seq<ByteString>, data: ByteString, field: ByteString, after: ByteString)
    requires Readable(before) && |data| <= MAX_RECORD
    requires |field| == 4 && field != ChecksumField(data)
    ensures ParseLog(Log(before) + (LengthField(|data|) + field + data + after)) == before
  {
    FormatSound();
    FORMAT.DamagedRecord(before, field, data, after);
  }

  /** Whole appends cut off anywhere read back as the records wholly before the cut. */
  lemma TornAppends(records: seq<ByteString>, cut: nat)
    requires Readable(records) && cut <= |Log(records)|
    ensures FORMAT.Sound() && ParseLog(Log(records)[..cut]) == records[..FORMAT.WholeBefore(records, cut)]
  {
    FormatSound();
    FORMAT.TornLog(records, cut);
  }

  // ----- Reading one record -----

  lemma FieldsAgree(data: ByteString, actual: nat, field: ByteString)
    requires |field| == 4 && actual == CrcNumber(data)
    ensures actual == NumberOf(field) <==> ChecksumField(data) == field
  {
    assert Values(4) == TWO_TO_32;
    LittleEndianRoundTrip(actual, 4);
    NumberOfRoundTrip(field);
  }

  /** A record is refused exactly as the reader does it: too few bytes, too long a length, or a checksum that differs. */
  lemma RefusedIff(fmt: Format<Byte>, rest: ByteString)
    requires fmt.Sound() && CodedAsWal(fmt)
    ensures !fmt.HeadIntact(rest) <==>
              |rest| < 8 || NumberOf(rest[..4]) > MAX_RECORD || |rest| < 8 + NumberOf(rest[..4])
              || ChecksumField(rest[8..8 + NumberOf(rest[..4])]) != rest[4..8]
    ensures fmt.HeadIntact(rest) ==> fmt.HeadData(rest) == rest[8..8 + NumberOf(rest[..4])]
  {
    if |rest| >= 8 {
      assert fmt.lengthOf(rest[..4]) == NumberOf(rest[..4]);
    }
  }

  /**
   Exactly when reading goes no further than the records before a torn one, for every later append: as long as the torn
   record's data are not complete again, and after that if the checksum, wherever the tear was, does not match them. Only
   the bytes up to there matter, so once reading stops for the checksum it stops for good.
   */
  lemma StopsAtTearIff(before: seq<ByteString>, data: ByteString, k: nat, appended: ByteString)
    requires Readable(before) && |data| <= MAX_RECORD && 4 <= k <= |Written(data)|
    ensures var rest := Written(data)[..k] + appended;
            ParseLog(Log(before) + rest) == before
            <==> |rest| < 8 + |data| || ChecksumField(rest[8..8 + |data|]) != rest[4..8]
  {
    FormatSound();
    WrittenIsFrame(FORMAT, data);
    FORMAT.StopsAtTearIff(before, data, k, appended);
  }

  /** The same wherever the tear was, even within the length field: whatever bytes follow the whole records. */
  lemma StopsBehindIff(before: seq<ByteString>, rest: ByteString)
    requires Readable(before)
    ensures ParseLog(Log(before) + rest) == before
       <==> |rest| < 8 || NumberOf(rest[..4]) > 1_048_576 || |rest| < 8 + NumberOf(rest[..4])
            || ChecksumField(rest[8..8 + NumberOf(rest[..4])]) != rest[4..8]
  {
    FormatSound();
    FORMAT.ReadsOn(before, rest);
    FORMAT.NothingReadIff(rest);
    RefusedIff(FORMAT, rest);
  }

  // ----- Reading on -----

  /** The records read, and then those from the position on, are those of the file. */
  ghost predicate ReadSoFar(fmt: Format<Byte>, file: ByteString, records: seq<ByteString>, pos: nat)
    requires fmt.Sound()
  {
    pos <= |file| && fmt.ParseLog(file) == records + fmt.ParseLog(file[pos..])
  }

  lemma NothingReadYet(fmt: Format<Byte>, file: ByteString)
    requires fmt.Sound()
    ensures ReadSoFar(fmt, file, [], 0)
  {
    assert file[0..] == file;
  }

  lemma OneMoreRead(fmt: Format<Byte>, file: ByteString, records: seq<ByteString>, pos: nat, found: bool, data: ByteString)
    requires fmt.Sound() && ReadSoFar(fmt, file, records, pos)
    requires found <==> fmt.HeadIntact(file[pos..])
    requires found ==> data == fmt.HeadData(file[pos..])
    ensures !found ==> records == fmt.ParseLog(file)
    ensures found ==> ReadSoFar(fmt, file, records + [data], pos + 8 + |data|)
  {
    fmt.ParseStep(file, pos, found, data);
  }

  // ----- The log file -----

  /** The file, and the append handle on it, which is lost when the file cannot be opened. */
  class LogFile {
    var file: ByteString
    var open: bool
    var recordsWritten: nat
    const fmt: Format<Byte>
    const crc: Crc32Table

    ghost predicate Valid()
      reads this, crc, crc.table
    {
      fmt.Sound() && CodedAsWal(fmt) && crc.Valid()
    }

    constructor (contents: ByteString, opens: bool)
      ensures Valid() && fmt == FORMAT && fresh(crc) && fresh(crc.table)
      ensures file == contents && open == opens && recordsWritten == 0
    {
      file := contents;
      open := opens;
      recordsWritten := 0;
      fmt := FORMAT;
      crc := new Crc32Table();
      FormatSound();
    }

    method Append(data: ByteString) returns (ok: bool)
      requires Valid()
      modifies this, crc, crc.table
      ensures Valid() && open == old(open) && ok == open
      ensures file == if ok then old(file) + Written(data) else old(file)
      ensures recordsWritten == if ok then old(recordsWritten) + 1 else old(recordsWritten)
    {
      if !open {
        return false;
      }
      var checksum := crc.Checksum(data);
      file := file + (LengthField(|data|) + LittleEndian(checksum, 4) + data[..|data| % TWO_TO_32]);
      recordsWritten := recordsWritten + 1;
      ok := true;
    }

    /** One turn of the reading loop: the record at `pos`, or none if the loop stops there. */
    method ReadRecord(pos: nat) returns (found: bool, data: ByteString)
      requires Valid() && pos <= |file|
      modifies crc, crc.table
      ensures Valid()
      ensures found <==> fmt.HeadIntact(file[pos..])
      ensures found ==> data == fmt.HeadData(file[pos..])
    {
      var rest := file[pos..];
      RefusedIff(fmt, rest);
      found, data := false, [];
      if |rest| < 4 {
        return;
      }
      var length := rest[..4];
      if |rest| < 8 {
        return;
      }
      var checksum := rest[4..8];
      var len := NumberOf(length);
      if len > MAX_RECORD {
        return;
      }
      if |rest| < 8 + len {
        return;
      }
      data := rest[8..8 + len];
      var actual := crc.Checksum(data);
      FieldsAgree(data, actual, checksum);
      found := actual == NumberOf(checksum);
    }

    method ReadAll() returns (records: seq<ByteString>)
      requires Valid()
      modifies crc, crc.table
      ensures Valid()
      ensures records == fmt.ParseLog(file)
    {
      records := [];
      var pos := 0;
      NothingReadYet(fmt, file);
      while true
        invariant Valid()
        invariant ReadSoFar(fmt, file, records, pos)
        decreases |file| - pos
      {
        var found, data := ReadRecord(pos);
        OneMoreRead(fmt, file, records, pos, found, data);
        if !found {
          break;
        }
        records := records + [data];
        pos := pos + 8 + |data|;
      }
    }

    /** The file is emptied if it can be opened for writing; the append handle may still be lost. */
    method Truncate(truncates: bool, reopens: bool)
      requires Valid()
      modifies this
      ensures Valid()
      ensures file == if truncates then [] else old(file)
      ensures open == (truncates && reopens) && recordsWritten == 0
    {
      if truncates {
        file := [];
      }
      open := truncates && reopens;
      recordsWritten := 0;
    }

    method FileSize() returns (n: nat)
      ensures n == |file|
    {
      n := |file|;
    }
  }
}
