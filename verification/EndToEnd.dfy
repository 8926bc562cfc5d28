/** What the consumer makes of the agent's messages, for every path and hostname. */
module EndToEnd {
  import opened Bytes
  import opened Json
  import opened Messages
  import opened Consumer
  import Agent
  import Debounce
  import Events

  /** An object the agent writes reaches the consumer with its strings sanitized, unless the strict decoder raises. */
  lemma ObjectParses(fields: seq<Field>)
    requires fields != [] && forall i :: 0 <= i < |fields| ==> Plain(fields[i].key) && Ascii(fields[i].key)
    ensures Parse(ObjectText(fields)) == if AllStrict(fields) then ParseFields(Sanitized(fields)) else Raised
  {
    ObjectReadBack(fields);
    ObjectDecodable(fields);
  }

  lemma EventParses(ts: int, eventType: ByteString, path: ByteString, hostname: ByteString)
    requires PlainType(eventType)
    ensures Parse(ObjectText(EventFields(ts, eventType, path, hostname)))
         == if AcceptedAreStrict(path) && AcceptedAreStrict(hostname)
            then ParseFields(EventFields(ts, eventType, Sanitize(path), Sanitize(hostname))) else Raised
  {
    var f := EventFields(ts, eventType, path, hostname);
    EscapeOfPlain(eventType);
    KeysArePlain();
    ObjectParses(f);
    SanitizedEvent(ts, eventType, path, hostname);
    assert f[1].value == Str(eventType) && f[2].value == Str(path) && f[3].value == Str(hostname);
  }

  lemma SanitizedEvent(ts: int, eventType: ByteString, path: ByteString, hostname: ByteString)
    requires Sanitize(eventType) == eventType
    ensures Sanitized(EventFields(ts, eventType, path, hostname))
         == EventFields(ts, eventType, Sanitize(path), Sanitize(hostname))
  {}

  lemma SanitizedRename(ts: int, eventType: ByteString, oldPath: ByteString, newPath: ByteString, hostname: ByteString)
    requires Sanitize(eventType) == eventType
    ensures Sanitized(RenameFields(ts, eventType, oldPath, newPath, hostname))
         == RenameFields(ts, eventType, Sanitize(oldPath), Sanitize(newPath), Sanitize(hostname))
  {}

  lemma {:induction false} LookupAt(fields: seq<Field>, at: nat)
    requires at < |fields| && forall j :: at < j < |fields| ==> fields[j].key != fields[at].key
    ensures Lookup(fields, fields[at].key) == Some(fields[at].value)
    decreases |fields|
  {
    if at < |fields| - 1 {
      var init := fields[..|fields| - 1];
      assert init[at] == fields[at];
      LookupAt(init, at);
    }
  }

  lemma KeysDiffer()
    ensures EVENT != PATH && EVENT != HOSTNAME && PATH != HOSTNAME
    ensures EVENT != OLD_PATH && EVENT != NEW_PATH && OLD_PATH != NEW_PATH
    ensures OLD_PATH != HOSTNAME && NEW_PATH != HOSTNAME
    ensures MTIME_CHANGE != DELETE && MTIME_CHANGE != RENAME && RENAME != DELETE
  {
    assert |EVENT| == 5 && |PATH| == 4 && |HOSTNAME| == 8 && |MTIME_CHANGE| == 12;
    assert OLD_PATH[0] != NEW_PATH[0] && OLD_PATH[0] != HOSTNAME[0] && NEW_PATH[0] != HOSTNAME[0];
    assert RENAME[0] != DELETE[0];
  }

  lemma EventFieldsParse(ts: int, eventType: ByteString, path: ByteString, hostname: ByteString)
    ensures var f := EventFields(ts, eventType, path, hostname);
            && (eventType == MTIME_CHANGE && path != [] ==> ParseFields(f) == Queued(HSet(path)))
            && (eventType == DELETE ==> ParseFields(f) == Ignored)
  {
    KeysDiffer();
    LookupAt(EventFields(ts, eventType, path, hostname), 1);
    LookupAt(EventFields(ts, eventType, path, hostname), 2);
  }

  lemma RenameFieldsParse(ts: int, eventType: ByteString, oldPath: ByteString, newPath: ByteString, hostname: ByteString)
    requires eventType == RENAME && oldPath != [] && newPath != []
    ensures ParseFields(RenameFields(ts, eventType, oldPath, newPath, hostname)) == Queued(Move(oldPath, newPath))
  {
    KeysDiffer();
    LookupAt(RenameFields(ts, eventType, oldPath, newPath, hostname), 1);
    LookupAt(RenameFields(ts, eventType, oldPath, newPath, hostname), 2);
    LookupAt(RenameFields(ts, eventType, oldPath, newPath, hostname), 3);
  }

  /** A write's message marks the path, bytes outside accepted sequences replaced, unless the decoder raises. */
  lemma MtimeMessageQueues(ts: int, path: ByteString, hostname: ByteString)
    requires path != []
    ensures Parse(ObjectText(EventFields(ts, MTIME_CHANGE, path, hostname)))
         == if AcceptedAreStrict(path) && AcceptedAreStrict(hostname) then Queued(HSet(Sanitize(path))) else Raised
  {
    KeysArePlain();
    EventParses(ts, MTIME_CHANGE, path, hostname);
    SanitizeGrows(path);
    EventFieldsParse(ts, MTIME_CHANGE, Sanitize(path), Sanitize(hostname));
  }

  lemma DeleteMessageIgnored(ts: int, path: ByteString, hostname: ByteString)
    ensures Parse(ObjectText(EventFields(ts, DELETE, path, hostname)))
         == if AcceptedAreStrict(path) && AcceptedAreStrict(hostname) then Ignored else Raised
  {
    KeysArePlain();
    EventParses(ts, DELETE, path, hostname);
    EventFieldsParse(ts, DELETE, Sanitize(path), Sanitize(hostname));
  }

  /** A rename's message moves the marking from the old path to the new one, under the same conditions. */
  lemma RenameMessageQueues(ts: int, oldPath: ByteString, newPath: ByteString, hostname: ByteString)
    requires oldPath != [] && newPath != []
    ensures Parse(ObjectText(RenameFields(ts, RENAME, oldPath, newPath, hostname)))
         == if AcceptedAreStrict(oldPath) && AcceptedAreStrict(newPath) && AcceptedAreStrict(hostname)
            then Queued(Move(Sanitize(oldPath), Sanitize(newPath))) else Raised
  {
    KeysArePlain();
    RenameParses(ts, RENAME, oldPath, newPath, hostname);
  }

  lemma RenameParses(ts: int, eventType: ByteString, oldPath: ByteString, newPath: ByteString, hostname: ByteString)
    requires PlainType(eventType) && eventType == RENAME && oldPath != [] && newPath != []
    ensures Parse(ObjectText(RenameFields(ts, eventType, oldPath, newPath, hostname)))
         == if AcceptedAreStrict(oldPath) && AcceptedAreStrict(newPath) && AcceptedAreStrict(hostname)
            then Queued(Move(Sanitize(oldPath), Sanitize(newPath))) else Raised
  {
    KeysArePlain();
    RenameStrict(ts, eventType, oldPath, newPath, hostname);
    ObjectParses(RenameFields(ts, eventType, oldPath, newPath, hostname));
    SanitizeGrows(oldPath);
    SanitizeGrows(newPath);
    RenameFieldsParse(ts, eventType, Sanitize(oldPath), Sanitize(newPath), Sanitize(hostname));
  }

  lemma RenameStrict(ts: int, eventType: ByteString, oldPath: ByteString, newPath: ByteString, hostname: ByteString)
    requires PlainType(eventType)
    ensures var f := RenameFields(ts, eventType, oldPath, newPath, hostname);
            && (AllStrict(f) <==> AcceptedAreStrict(oldPath) && AcceptedAreStrict(newPath) && AcceptedAreStrict(hostname))
            && Sanitized(f) == RenameFields(ts, eventType, Sanitize(oldPath), Sanitize(newPath), Sanitize(hostname))
  {
    var f := RenameFields(ts, eventType, oldPath, newPath, hostname);
    EscapeOfPlain(eventType);
    SanitizedRename(ts, eventType, oldPath, newPath, hostname);
    assert f[1].value == Str(eventType) && f[2].value == Str(oldPath) && f[3].value == Str(newPath);
    assert f[4].value == Str(hostname);
  }

  // ----- From the debouncer to the batch -----

  /** The text the agent makes of a debounced write marks the path. */
  lemma WriteQueues(p: Path, ts: Agent.Timestamp, hostname: ByteString)
    requires p != []
    ensures Parse(Agent.EventText(Debounce.Message(p, Debounce.Mtime), ts, hostname))
         == if AcceptedAreStrict(p) && AcceptedAreStrict(hostname) then Queued(HSet(Sanitize(p))) else Raised
  {
    MtimeMessageQueues(ts, p, hostname);
  }

  /** The text of a delete is passed over. */
  lemma DeletePassedOver(p: Path, ts: Agent.Timestamp, hostname: ByteString)
    ensures Parse(Agent.EventText(Debounce.Message(p, Debounce.Delete), ts, hostname))
         == if AcceptedAreStrict(p) && AcceptedAreStrict(hostname) then Ignored else Raised
  {
    DeleteMessageIgnored(ts, p, hostname);
  }

  /** The text of a rename moves the marking from the path it was renamed from to the one it was renamed to. */
  lemma RenameMoves(a: Path, b: Path, ts: Agent.Timestamp, hostname: ByteString)
    requires a != [] && b != []
    ensures Parse(Agent.RenameText(Events.Rename(a, b), ts, hostname))
         == if AcceptedAreStrict(a) && AcceptedAreStrict(b) && AcceptedAreStrict(hostname)
            then Queued(Move(Sanitize(a), Sanitize(b))) else Raised
  {
    RenameMessageQueues(ts, a, b, hostname);
  }

  lemma EncodedAccepted(codes: seq<Code>)
    requires NoSurrogates(codes)
    ensures Sanitize(Encoded(codes)) == Encoded(codes) && AcceptedAreStrict(Encoded(codes))
  {
    EncodedIsText(codes);
    SanitizedUtf8Iff(Encoded(codes));
    Utf8IsStrict(Encoded(codes));
  }

  /** Names made of characters arrive unchanged: a write to the path is a mark on that very path. */
  lemma TextArrivesUnchanged(path: seq<Code>, host: seq<Code>, ts: Agent.Timestamp)
    requires path != [] && NoSurrogates(path) && NoSurrogates(host)
    ensures Parse(Agent.EventText(Debounce.Message(Encoded(path), Debounce.Mtime), ts, Encoded(host)))
         == Queued(HSet(Encoded(path)))
  {
    EncodedAccepted(path);
    EncodedAccepted(host);
    WriteQueues(Encoded(path), ts, Encoded(host));
  }

  /** A path the escaper accepts but strict UTF-8 does not, here with an overlong slash: the parser raises. */
  lemma OverlongPathRaises(ts: int, path: ByteString, hostname: ByteString)
    requires path == [0x2F, 0xC0, 0xAF]
    ensures Accepted(path)
    ensures Parse(ObjectText(EventFields(ts, MTIME_CHANGE, path, hostname))) == Raised
  {
    var rest := path[1..];
    assert rest == [0xC0, 0xAF] && AcceptedSequence(rest) && rest[2..] == [];
    assert HeadWidth(path) == 1 && HeadWidth(rest) == 2;
    MtimeMessageQueues(ts, path, hostname);
  }

  // ----- What gets through -----

  predicate Applicable(parsed: Parsed) {
    parsed.Queued? && Encodable(parsed.op)
  }

  /** A write's message is queued and can be applied exactly when what the escaper accepts in its path is UTF-8. */
  lemma MtimeMessageApplicableIff(ts: int, path: ByteString, hostname: ByteString)
    requires path != []
    ensures Applicable(Parse(ObjectText(EventFields(ts, MTIME_CHANGE, path, hostname))))
       <==> AcceptedAreUtf8(path) && AcceptedAreStrict(hostname)
  {
    MtimeMessageQueues(ts, path, hostname);
    SanitizedUtf8Iff(path);
    if AcceptedAreUtf8(path) {
      Utf8IsStrict(path);
    }
  }

  lemma RenameMessageApplicableIff(ts: int, oldPath: ByteString, newPath: ByteString, hostname: ByteString)
    requires oldPath != [] && newPath != []
    ensures Applicable(Parse(ObjectText(RenameFields(ts, RENAME, oldPath, newPath, hostname))))
       <==> AcceptedAreUtf8(oldPath) && AcceptedAreUtf8(newPath) && AcceptedAreStrict(hostname)
  {
    RenameMessageQueues(ts, oldPath, newPath, hostname);
    SanitizedUtf8Iff(oldPath);
    SanitizedUtf8Iff(newPath);
    if AcceptedAreUtf8(oldPath) && AcceptedAreUtf8(newPath) {
      Utf8IsStrict(oldPath);
      Utf8IsStrict(newPath);
    }
  }

  /** An encoded surrogate is accepted, and decoded, but is not UTF-8. */
  lemma EncodedSurrogate(s: ByteString)
    requires s == [0xED, 0xA0, 0x80]
    ensures Accepted(s) && AcceptedAreStrict(s) && !AcceptedAreUtf8(s)
  {
    assert AcceptedSequence(s) && HeadWidth(s) == 3 && s[3..] == [];
  }

  lemma AfterAscii(s: ByteString)
    requires s != [] && s[0] < 0x80
    ensures Accepted(s) <==> Accepted(s[1..])
    ensures AcceptedAreStrict(s) <==> AcceptedAreStrict(s[1..])
    ensures AcceptedAreUtf8(s) <==> AcceptedAreUtf8(s[1..])
  {}

  /** A path with an encoded surrogate gets as far as the batch, and makes the flush raise instead. */
  lemma SurrogatePathRaisesInFlush(ts: int, path: ByteString, hostname: ByteString)
    requires path == [0x2F, 0xED, 0xA0, 0x80] && AcceptedAreStrict(hostname)
    ensures Accepted(path)
    ensures Parse(ObjectText(EventFields(ts, MTIME_CHANGE, path, hostname))) == Queued(HSet(path))
    ensures FlushRaises([HSet(path)], Succeeded)
  {
    assert path[1..] == [0xED, 0xA0, 0x80];
    EncodedSurrogate(path[1..]);
    AfterAscii(path);
    SanitizeIdentityIffAccepted(path);
    MtimeMessageQueues(ts, path, hostname);
    SanitizedUtf8Iff(path);
    assert HSet(path) in [HSet(path)];
  }
}
