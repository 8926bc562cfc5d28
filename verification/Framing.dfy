/**
 Append-only logs of framed records, [length][checksum][data], for any encoding of the two fields: what is read back
 from a whole, a torn and a damaged log.
 */
module Framing {

  /** The width of either field. */
  const FIELD: nat := 4

  lemma PrefixSplit<B>(a: seq<B>, b: seq<B>, file: seq<B>)
    ensures a + b <= file <==> a <= file && b <= file[|a|..]
    ensures a + b <= file ==> file[|a + b|..] == file[|a|..][|b|..]
  {
    if a + b <= file {
      assert file == a + b + file[|a + b|..];
    }
    if a <= file && b <= file[|a|..] {
      assert file == a + file[|a|..] == a + (b + file[|a|..][|b|..]);
      assert file == a + b + file[|a|..][|b|..];
    }
  }

  lemma Regrouped<B>(a: seq<B>, b: seq<B>, c: seq<B>)
    ensures a + (b + c) == a + b + c
  {}

  lemma CutOf<B>(a: seq<B>, b: seq<B>, cut: nat)
    requires |a| <= cut <= |a + b|
    ensures (a + b)[..cut] == a + b[..cut - |a|]
  {}

  datatype Format<!B(!new)> = Format(lengthField: nat -> seq<B>, lengthOf: seq<B> -> nat,
                               checksumField: seq<B> -> seq<B>, maxRecord: nat)
  {
    /** Fields have their width, and lengths up to the record limit are coded one to one. */
    ghost predicate Sound() {
      && (forall n: nat {:trigger lengthField(n)} ::
            n <= maxRecord ==> |lengthField(n)| == FIELD && lengthOf(lengthField(n)) == n)
      && (forall field: seq<B> {:trigger lengthOf(field)} ::
            |field| == FIELD && lengthOf(field) <= maxRecord ==> lengthField(lengthOf(field)) == field)
      && (forall data: seq<B> {:trigger checksumField(data)} :: |checksumField(data)| == FIELD)
    }

    ghost function Frame(data: seq<B>): (frame: seq<B>)
      requires Sound() && |data| <= maxRecord
      ensures |frame| == 2 * FIELD + |data|
    {
      lengthField(|data|) + checksumField(data) + data
    }

    ghost predicate Readable(records: seq<seq<B>>) {
      forall r :: r in records ==> |r| <= maxRecord
    }

    ghost function EncodeAll(records: seq<seq<B>>): seq<B>
      requires Sound() && Readable(records)
    {
      if records == [] then [] else Frame(records[0]) + EncodeAll(records[1..])
    }

    /** The record at the head of a file, as a reader accepts it. */
    ghost predicate HeadIntact(file: seq<B>) {
      && |file| >= 2 * FIELD
      && lengthOf(file[..FIELD]) <= maxRecord
      && 2 * FIELD + lengthOf(file[..FIELD]) <= |file|
      && checksumField(file[2 * FIELD..2 * FIELD + lengthOf(file[..FIELD])]) == file[FIELD..2 * FIELD]
    }

    ghost function HeadData(file: seq<B>): seq<B>
      requires HeadIntact(file)
    {
      file[2 * FIELD..2 * FIELD + lengthOf(file[..FIELD])]
    }

    /** The records are exactly the intact frames before the first place where no intact frame starts. */
    ghost predicate IntactPrefix(file: seq<B>, records: seq<seq<B>>)
      requires Sound()
    {
      && Readable(records)
      && EncodeAll(records) <= file
      && !HeadIntact(file[|EncodeAll(records)|..])
    }

    lemma FrameFields(data: seq<B>, file: seq<B>)
      requires Sound() && |data| <= maxRecord && Frame(data) <= file
      ensures lengthOf(file[..FIELD]) == |data|
      ensures file[FIELD..2 * FIELD] == checksumField(data)
      ensures file[2 * FIELD..2 * FIELD + |data|] == data
    {
      var frame := Frame(data);
      assert frame == file[..|frame|];
      assert file[..FIELD] == frame[..FIELD] == lengthField(|data|);
      assert file[FIELD..2 * FIELD] == frame[FIELD..2 * FIELD] == checksumField(data);
      assert file[2 * FIELD..2 * FIELD + |data|] == frame[2 * FIELD..] == data;
    }

    lemma FrameIsHead(data: seq<B>, file: seq<B>)
      requires Sound() && |data| <= maxRecord && Frame(data) <= file
      ensures HeadIntact(file) && HeadData(file) == data
    {
      FrameFields(data, file);
    }

    lemma HeadIsFrame(file: seq<B>)
      requires Sound() && HeadIntact(file)
      ensures |HeadData(file)| <= maxRecord && Frame(HeadData(file)) <= file
    {
      var data := HeadData(file);
      assert file[..2 * FIELD + |data|] == file[..FIELD] + file[FIELD..2 * FIELD] + data;
    }

    /** A reader accepts the head of a file exactly when some frame lies there, and then only one does. */
    lemma HeadIntactIffFrame(file: seq<B>)
      requires Sound()
      ensures HeadIntact(file) <==> exists data: seq<B> :: |data| <= maxRecord && Frame(data) <= file
      ensures forall data: seq<B> :: |data| <= maxRecord && Frame(data) <= file ==> data == HeadData(file)
    {
      if HeadIntact(file) {
        HeadIsFrame(file);
      }
      forall data: seq<B> | |data| <= maxRecord && Frame(data) <= file
        ensures HeadIntact(file) && data == HeadData(file)
      {
        FrameIsHead(data, file);
      }
    }

    lemma IntactPrefixTail(file: seq<B>, records: seq<seq<B>>)
      requires Sound() && IntactPrefix(file, records) && records != []
      ensures Frame(records[0]) <= file
      ensures IntactPrefix(file[|Frame(records[0])|..], records[1..])
    {
      PrefixSplit(Frame(records[0]), EncodeAll(records[1..]), file);
    }

    lemma IntactPrefixCons(file: seq<B>, data: seq<B>, records: seq<seq<B>>)
      requires Sound() && |data| <= maxRecord && Frame(data) <= file
      requires IntactPrefix(file[|Frame(data)|..], records)
      ensures IntactPrefix(file, [data] + records)
    {
      assert ([data] + records)[1..] == records;
      PrefixSplit(Frame(data), EncodeAll(records), file);
    }

    lemma EmptyReading(file: seq<B>, records: seq<seq<B>>)
      requires Sound() && IntactPrefix(file, records)
      ensures records == [] <==> !HeadIntact(file)
    {
      if records == [] {
        assert file[0..] == file;
      } else {
        IntactPrefixTail(file, records);
        FrameIsHead(records[0], file);
      }
    }

    /** No file has two readings. */
    lemma {:induction false} IntactPrefixUnique(file: seq<B>, a: seq<seq<B>>, b: seq<seq<B>>)
      requires Sound() && IntactPrefix(file, a) && IntactPrefix(file, b)
      ensures a == b
      decreases |a|
    {
      if a == [] || b == [] {
        EmptyReading(file, a);
        EmptyReading(file, b);
      } else {
        IntactPrefixTail(file, a);
        IntactPrefixTail(file, b);
        FrameIsHead(a[0], file);
        FrameIsHead(b[0], file);
        IntactPrefixUnique(file[|Frame(a[0])|..], a[1..], b[1..]);
      }
    }

    /** What reading a file from its start gives. */
    ghost function ParseLog(file: seq<B>): seq<seq<B>>
      requires Sound()
      decreases |file|
    {
      if HeadIntact(file) then
        [HeadData(file)] + ParseLog(file[2 * FIELD + |HeadData(file)|..])
      else
        []
    }

    lemma ParseStep(file: seq<B>, pos: nat, found: bool, data: seq<B>)
      requires Sound() && pos <= |file|
      requires found <==> HeadIntact(file[pos..])
      requires found ==> data == HeadData(file[pos..])
      ensures !found ==> ParseLog(file[pos..]) == []
      ensures found ==> pos + 2 * FIELD + |data| <= |file|
      ensures found ==> ParseLog(file[pos..]) == [data] + ParseLog(file[pos + 2 * FIELD + |data|..])
    {
      if found {
        var n := 2 * FIELD + |data|;
        assert file[pos..][n..] == file[pos + n..];
      }
    }

    lemma {:induction false} ParseLogIsIntactPrefix(file: seq<B>)
      requires Sound()
      ensures IntactPrefix(file, ParseLog(file))
      decreases |file|
    {
      if HeadIntact(file) {
        HeadIsFrame(file);
        var data := HeadData(file);
        ParseLogIsIntactPrefix(file[2 * FIELD + |data|..]);
        IntactPrefixCons(file, data, ParseLog(file[2 * FIELD + |data|..]));
      } else {
        assert EncodeAll([]) == [] && file[0..] == file;
      }
    }

    lemma {:induction false} EncodeAllConcat(a: seq<seq<B>>, b: seq<seq<B>>)
      requires Sound() && Readable(a) && Readable(b)
      ensures Readable(a + b) && EncodeAll(a + b) == EncodeAll(a) + EncodeAll(b)
      decreases |a|
    {
      if a == [] {
        assert a + b == b;
      } else {
        assert (a + b)[1..] == a[1..] + b;
        EncodeAllConcat(a[1..], b);
        Regrouped(Frame(a[0]), EncodeAll(a[1..]), EncodeAll(b));
      }
    }

    lemma EncodeOne(data: seq<B>)
      requires Sound() && |data| <= maxRecord
      ensures EncodeAll([data]) == Frame(data)
    {
      assert EncodeAll([data]) == Frame(data) + EncodeAll([]);
    }

    lemma ReadsExactly(file: seq<B>, records: seq<seq<B>>, rest: seq<B>)
      requires Sound() && Readable(records) && file == EncodeAll(records) + rest && !HeadIntact(rest)
      ensures ParseLog(file) == records
    {
      assert file[|EncodeAll(records)|..] == rest;
      ParseLogIsIntactPrefix(file);
      IntactPrefixUnique(file, ParseLog(file), records);
    }

    /** With nothing cut off, everything appended is read back, in order. */
    lemma WholeLog(records: seq<seq<B>>)
      requires Sound() && Readable(records)
      ensures ParseLog(EncodeAll(records)) == records
    {
      assert EncodeAll(records) == EncodeAll(records) + [];
      ReadsExactly(EncodeAll(records), records, []);
    }

    /** The number of records that lie wholly before a cut. */
    ghost function WholeBefore(records: seq<seq<B>>, cut: nat): (m: nat)
      requires Sound() && Readable(records)
      ensures m <= |records|
    {
      if records == [] || cut < |Frame(records[0])| then 0
      else WholeBefore(records[1..], cut - |Frame(records[0])|) + 1
    }

    /** Where the first m records end. */
    ghost function End(records: seq<seq<B>>, m: nat): nat
      requires Sound() && Readable(records) && m <= |records|
    {
      if m == 0 then 0 else |Frame(records[0])| + End(records[1..], m - 1)
    }

    lemma {:induction false} EndIsLength(records: seq<seq<B>>, m: nat)
      requires Sound() && Readable(records) && m <= |records|
      ensures |EncodeAll(records[..m])| == End(records, m)
      decreases m
    {
      if m > 0 {
        EndIsLength(records[1..], m - 1);
        assert records[..m][1..] == records[1..][..m - 1];
      }
    }

    lemma {:induction false} WholeBeforeIsMost(records: seq<seq<B>>, cut: nat)
      requires Sound() && Readable(records)
      ensures End(records, WholeBefore(records, cut)) <= cut
      ensures WholeBefore(records, cut) < |records| ==> cut < End(records, WholeBefore(records, cut) + 1)
      decreases |records|
    {
      if records != [] {
        if cut < |Frame(records[0])| {
          assert End(records[1..], 0) == 0;
        } else {
          WholeBeforeIsMost(records[1..], cut - |Frame(records[0])|);
        }
      }
    }

    lemma TornFrame(data: seq<B>, k: nat)
      requires Sound() && |data| <= maxRecord && k < |Frame(data)|
      ensures !HeadIntact(Frame(data)[..k])
    {
      var torn := Frame(data)[..k];
      if HeadIntact(torn) {
        HeadIsFrame(torn);
        FrameIsHead(data, Frame(data));
        FrameIsHead(HeadData(torn), Frame(data));
        assert false;
      }
    }

    lemma TornAfter(whole: seq<seq<B>>, rest: seq<seq<B>>, k: nat)
      requires Sound() && Readable(whole) && Readable(rest) && k <= |EncodeAll(rest)|
      requires rest != [] ==> k < |Frame(rest[0])|
      ensures ParseLog(EncodeAll(whole) + EncodeAll(rest)[..k]) == whole
    {
      if rest != [] {
        assert EncodeAll(rest)[..k] == Frame(rest[0])[..k];
        TornFrame(rest[0], k);
      }
      ReadsExactly(EncodeAll(whole) + EncodeAll(rest)[..k], whole, EncodeAll(rest)[..k]);
    }

    /** A log cut anywhere gives back exactly the records that lie wholly before the cut. */
    lemma TornLog(records: seq<seq<B>>, cut: nat)
      requires Sound() && Readable(records) && cut <= |EncodeAll(records)|
      ensures ParseLog(EncodeAll(records)[..cut]) == records[..WholeBefore(records, cut)]
    {
      var m := WholeBefore(records, cut);
      WholeBeforeIsMost(records, cut);
      EndIsLength(records, m);
      assert records == records[..m] + records[m..];
      if m < |records| {
        EndIsLength(records, m + 1);
        NextFrame(records, m);
      }
      CutBehind(records[..m], records[m..], cut);
    }

    lemma NextFrame(records: seq<seq<B>>, m: nat)
      requires Sound() && Readable(records) && m < |records|
      ensures |EncodeAll(records[..m + 1])| == |EncodeAll(records[..m])| + |Frame(records[m])|
    {
      assert records[..m + 1] == records[..m] + [records[m]];
      AppendToIntact(records[..m], records[m]);
    }

    lemma CutBehind(whole: seq<seq<B>>, rest: seq<seq<B>>, cut: nat)
      requires Sound() && Readable(whole) && Readable(rest) && Readable(whole + rest)
      requires |EncodeAll(whole)| <= cut <= |EncodeAll(whole + rest)|
      requires rest != [] ==> cut < |EncodeAll(whole)| + |Frame(rest[0])|
      ensures ParseLog(EncodeAll(whole + rest)[..cut]) == whole
    {
      EncodeAllConcat(whole, rest);
      CutOf(EncodeAll(whole), EncodeAll(rest), cut);
      TornAfter(whole, rest, cut - |EncodeAll(whole)|);
    }

    /** When the checksum field of a record does not match its data, reading stops just before it, whatever follows. */
    lemma DamagedRecord(before: seq<seq<B>>, checksum: seq<B>, data: seq<B>, after: seq<B>)
      requires Sound() && Readable(before) && |data| <= maxRecord
      requires |checksum| == FIELD && checksum != checksumField(data)
      ensures ParseLog(EncodeAll(before) + (lengthField(|data|) + checksum + data + after)) == before
    {
      var rest := lengthField(|data|) + checksum + data + after;
      assert rest[..FIELD] == lengthField(|data|);
      assert rest[FIELD..2 * FIELD] == checksum;
      assert rest[2 * FIELD..2 * FIELD + |data|] == data;
      ReadsExactly(EncodeAll(before) + rest, before, rest);
    }

    /** Appending to an intact log adds one record to what is read back. */
    lemma AppendToIntact(records: seq<seq<B>>, data: seq<B>)
      requires Sound() && Readable(records) && |data| <= maxRecord
      ensures Readable(records + [data])
      ensures EncodeAll(records) + Frame(data) == EncodeAll(records + [data])
    {
      EncodeAllConcat(records, [data]);
      EncodeOne(data);
    }

    /** Whole records do not influence how what follows them is read. */
    lemma ReadsOn(records: seq<seq<B>>, rest: seq<B>)
      requires Sound() && Readable(records)
      ensures ParseLog(EncodeAll(records) + rest) == records + ParseLog(rest)
    {
      var file, more := EncodeAll(records) + rest, ParseLog(rest);
      ParseLogIsIntactPrefix(rest);
      EncodeAllConcat(records, more);
      assert file[|EncodeAll(records)|..] == rest;
      PrefixSplit(EncodeAll(records), EncodeAll(more), file);
      ParseLogIsIntactPrefix(file);
      IntactPrefixUnique(file, ParseLog(file), records + more);
    }

    lemma NothingReadIff(file: seq<B>)
      requires Sound()
      ensures ParseLog(file) == [] <==> !HeadIntact(file)
    {}

    /**
     Behind a torn record whose length field is whole, reading goes no further exactly as long as the record's data are
     not complete again, and from then on exactly if the checksum does not happen to match what has filled the gap.
     */
    lemma StopsAtTearIff(records: seq<seq<B>>, data: seq<B>, k: nat, appended: seq<B>)
      requires Sound() && Readable(records) && |data| <= maxRecord && FIELD <= k <= |Frame(data)|
      ensures var rest := Frame(data)[..k] + appended;
              ParseLog(EncodeAll(records) + rest) == records
              <==> |rest| < 2 * FIELD + |data|
                   || checksumField(rest[2 * FIELD..2 * FIELD + |data|]) != rest[FIELD..2 * FIELD]
    {
      var rest := Frame(data)[..k] + appended;
      assert rest[..FIELD] == Frame(data)[..FIELD] == lengthField(|data|);
      ReadsOn(records, rest);
      NothingReadIff(rest);
    }
  }
}
