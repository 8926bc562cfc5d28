/**
 The messages on the wire: how the agent puts them together, and a reader for flat JSON objects of strings and integers,
 from sections 4 to 7 of RFC 8259, without insignificant white space.
 */
module Messages {
  import opened Bytes
  import opened Json

  const OPEN: Byte := 0x7B
  const CLOSE: Byte := 0x7D
  const COMMA: Byte := 0x2C
  const COLON: Byte := 0x3A

  const TS: ByteString := [0x74, 0x73]
  const EVENT: ByteString := [0x65, 0x76, 0x65, 0x6E, 0x74]
  const PATH: ByteString := [0x70, 0x61, 0x74, 0x68]
  const OLD_PATH: ByteString := [0x6F, 0x6C, 0x64, 0x5F, 0x70, 0x61, 0x74, 0x68]
  const NEW_PATH: ByteString := [0x6E, 0x65, 0x77, 0x5F, 0x70, 0x61, 0x74, 0x68]
  const HOSTNAME: ByteString := [0x68, 0x6F, 0x73, 0x74, 0x6E, 0x61, 0x6D, 0x65]
  const DELETE: ByteString := [0x64, 0x65, 0x6C, 0x65, 0x74, 0x65]
  const RENAME: ByteString := [0x72, 0x65, 0x6E, 0x61, 0x6D, 0x65]
  const MTIME_CHANGE: ByteString := [0x6D, 0x74, 0x69, 0x6D, 0x65, 0x5F, 0x63, 0x68, 0x61, 0x6E, 0x67, 0x65]

  datatype Value = Str(s: ByteString) | Num(n: int)

  datatype Field = Field(key: ByteString, value: Value)

  // ----- Writing -----

  function KeyText(key: ByteString): ByteString {
    [QUOTE] + key + [QUOTE, COLON]
  }

  function ValueText(value: Value): ByteString {
    match value
    case Str(s) => [QUOTE] + Escape(s) + [QUOTE]
    case Num(n) => Decimal(n)
  }

  function FieldText(field: Field): ByteString {
    KeyText(field.key) + ValueText(field.value)
  }

  function MembersText(fields: seq<Field>): ByteString {
    if fields == [] then []
    else if |fields| == 1 then FieldText(fields[0])
    else FieldText(fields[0]) + ([COMMA] + MembersText(fields[1..]))
  }

  function ObjectText(fields: seq<Field>): ByteString {
    [OPEN] + MembersText(fields) + [CLOSE]
  }

  // ----- Reading -----

  function ParseValue(t: ByteString): (r: Option<(Value, ByteString)>)
    ensures r.Some? ==> |r.value.1| < |t|
  {
    if t != [] && t[0] == QUOTE then
      match ParseString(t[1..])
      case None => None
      case Some((s, rest)) => Some((Str(s), rest))
    else
      match ParseNumber(t)
      case None => None
      case Some((n, rest)) => Some((Num(n), rest))
  }

  function ParseField(t: ByteString): (r: Option<(Field, ByteString)>)
    ensures r.Some? ==> |r.value.1| < |t|
  {
    if t == [] || t[0] != QUOTE then None
    else
      match ParseString(t[1..])
      case None => None
      case Some((key, rest)) =>
        if rest == [] || rest[0] != COLON then None
        else
          match ParseValue(rest[1..])
          case None => None
          case Some((value, after)) => Some((Field(key, value), after))
  }

  /** Members up to and over the closing brace. */
  function ParseMembers(t: ByteString): Option<(seq<Field>, ByteString)>
    decreases |t|
  {
    match ParseField(t)
    case None => None
    case Some((field, rest)) =>
      if rest == [] then None
      else if rest[0] == CLOSE then Some(([field], rest[1..]))
      else if rest[0] != COMMA then None
      else
        match ParseMembers(rest[1..])
        case None => None
        case Some((fields, after)) => Some(([field] + fields, after))
  }

  function ParseObject(t: ByteString): Option<seq<Field>> {
    if t == [] || t[0] != OPEN then None
    else if t[1..] == [CLOSE] then Some([])
    else
      match ParseMembers(t[1..])
      case None => None
      case Some((fields, rest)) => if rest == [] then Some(fields) else None
  }

  // ----- Reading back what was written -----

  function SanitizedValue(value: Value): Value {
    if value.Str? then Str(Sanitize(value.s)) else value
  }

  function Sanitized(fields: seq<Field>): (r: seq<Field>)
    ensures |r| == |fields|
  {
    seq(|fields|, i requires 0 <= i < |fields| => Field(fields[i].key, SanitizedValue(fields[i].value)))
  }

  ghost predicate EndsValue(rest: ByteString) {
    rest != [] && (rest[0] == COMMA || rest[0] == CLOSE)
  }

  lemma StringReadBack(s: ByteString, rest: ByteString)
    ensures ParseValue(ValueText(Str(s)) + rest) == Some((Str(Sanitize(s)), rest))
  {
    EscapeRoundTrip(s, rest);
    AfterQuote(Escape(s), rest);
    QuotedValue([QUOTE] + Escape(s) + [QUOTE] + rest, Sanitize(s), rest);
  }

  lemma AfterQuote(text: ByteString, rest: ByteString)
    ensures ([QUOTE] + text + [QUOTE] + rest)[1..] == text + [QUOTE] + rest
  {}

  lemma QuotedValue(t: ByteString, s: ByteString, rest: ByteString)
    requires t != [] && t[0] == QUOTE && ParseString(t[1..]) == Some((s, rest))
    ensures ParseValue(t) == Some((Str(s), rest))
  {}

  lemma NumberReadBack(n: int, rest: ByteString)
    requires EndsValue(rest)
    ensures ParseValue(ValueText(Num(n)) + rest) == Some((Num(n), rest))
  {
    NumberRoundTrip(n, rest);
    DecimalStart(n, rest);
  }

  lemma DecimalStart(n: int, rest: ByteString)
    ensures (Decimal(n) + rest)[0] != QUOTE
  {
    var digits := Digits(if n < 0 then -n else n);
    assert Digit(digits[0]);
  }

  lemma ValueReadBack(value: Value, rest: ByteString)
    requires EndsValue(rest)
    ensures ParseValue(ValueText(value) + rest) == Some((SanitizedValue(value), rest))
  {
    match value
    case Str(s) => StringReadBack(s, rest);
    case Num(n) => NumberReadBack(n, rest);
  }

  lemma KeyReadBack(key: ByteString, t: ByteString)
    requires Plain(key)
    ensures (KeyText(key) + t)[0] == QUOTE
    ensures ParseString((KeyText(key) + t)[1..]) == Some((key, [COLON] + t))
  {
    var after := [QUOTE, COLON] + t;
    assert (KeyText(key) + t)[1..] == key + after;
    PlainBytesDecode(key, after);
    assert after[1..] == [COLON] + t;
    assert ParseString(after) == Some(([], [COLON] + t));
    assert key + [] == key;
  }

  lemma FieldReadBack(field: Field, rest: ByteString)
    requires Plain(field.key) && EndsValue(rest)
    ensures ParseField(FieldText(field) + rest) == Some((Field(field.key, SanitizedValue(field.value)), rest))
  {
    var t := ValueText(field.value) + rest;
    assert FieldText(field) + rest == KeyText(field.key) + t;
    KeyReadBack(field.key, t);
    assert ([COLON] + t)[1..] == t;
    ValueReadBack(field.value, rest);
  }

  lemma LastMember(t: ByteString, field: Field, rest: ByteString)
    requires ParseField(t) == Some((field, [CLOSE] + rest))
    ensures ParseMembers(t) == Some(([field], rest))
  {
    assert ([CLOSE] + rest)[1..] == rest;
  }

  lemma OneMoreMember(t: ByteString, field: Field, tail: ByteString, fields: seq<Field>, rest: ByteString)
    requires ParseField(t) == Some((field, [COMMA] + tail))
    requires ParseMembers(tail) == Some((fields, rest))
    ensures ParseMembers(t) == Some(([field] + fields, rest))
  {
    assert ([COMMA] + tail)[1..] == tail;
  }

  ghost predicate PlainKeys(fields: seq<Field>) {
    forall i :: 0 <= i < |fields| ==> Plain(fields[i].key)
  }

  lemma SanitizedSplit(fields: seq<Field>)
    requires fields != []
    ensures Sanitized(fields) == [Field(fields[0].key, SanitizedValue(fields[0].value))] + Sanitized(fields[1..])
  {}

  lemma SanitizedOne(field: Field)
    ensures Sanitized([field]) == [Field(field.key, SanitizedValue(field.value))]
  {}

  lemma {:induction false} MembersReadBack(fields: seq<Field>, rest: ByteString)
    requires fields != [] && PlainKeys(fields)
    ensures ParseMembers(MembersText(fields) + ([CLOSE] + rest)) == Some((Sanitized(fields), rest))
    decreases |fields|
  {
    if |fields| == 1 {
      LastMemberReadBack(fields[0], rest);
      assert fields == [fields[0]];
    } else {
      MembersReadBack(fields[1..], rest);
      MembersSplit(fields, [CLOSE] + rest);
      SanitizedSplit(fields);
      MemberReadBack(fields[0], MembersText(fields[1..]) + ([CLOSE] + rest), Sanitized(fields[1..]), rest);
    }
  }

  lemma LastMemberReadBack(field: Field, rest: ByteString)
    requires Plain(field.key)
    ensures ParseMembers(MembersText([field]) + ([CLOSE] + rest)) == Some((Sanitized([field]), rest))
  {
    FieldReadBack(field, [CLOSE] + rest);
    SanitizedOne(field);
    LastMember(FieldText(field) + ([CLOSE] + rest), Field(field.key, SanitizedValue(field.value)), rest);
  }

  lemma MemberReadBack(field: Field, tail: ByteString, fields: seq<Field>, rest: ByteString)
    requires Plain(field.key) && ParseMembers(tail) == Some((fields, rest))
    ensures ParseMembers(FieldText(field) + ([COMMA] + tail))
         == Some(([Field(field.key, SanitizedValue(field.value))] + fields, rest))
  {
    FieldReadBack(field, [COMMA] + tail);
    OneMoreMember(FieldText(field) + ([COMMA] + tail), Field(field.key, SanitizedValue(field.value)), tail, fields, rest);
  }

  lemma MembersSplit(fields: seq<Field>, rest: ByteString)
    requires |fields| > 1
    ensures MembersText(fields) + rest == FieldText(fields[0]) + ([COMMA] + (MembersText(fields[1..]) + rest))
  {
    Regrouped(FieldText(fields[0]), MembersText(fields[1..]), rest);
  }

  lemma Regrouped(a: ByteString, b: ByteString, c: ByteString)
    ensures a + ([COMMA] + b) + c == a + ([COMMA] + (b + c))
  {}

  /** An object with plain keys reads back as itself, its strings sanitized. */
  lemma ObjectReadBack(fields: seq<Field>)
    requires fields != [] && PlainKeys(fields)
    ensures ParseObject(ObjectText(fields)) == Some(Sanitized(fields))
  {
    MembersReadBack(fields, []);
    AfterOpen(MembersText(fields));
    assert |MembersText(fields)| > 0;
  }

  lemma AfterOpen(text: ByteString)
    ensures ([OPEN] + text + [CLOSE])[1..] == text + ([CLOSE] + [])
  {}

  // ----- Strict decoding of what was written -----

  predicate ValueStrict(value: Value) {
    value.Str? ==> AcceptedAreStrict(value.s)
  }

  lemma DigitsAreAscii(n: int)
    ensures Ascii(Decimal(n))
  {
    var digits := Digits(if n < 0 then -n else n);
    assert forall k :: 0 <= k < |digits| ==> Digit(digits[k]);
  }

  lemma ValueDecodable(value: Value, t: ByteString)
    ensures Decodable(ValueText(value) + t) <==> ValueStrict(value) && Decodable(t)
  {
    match value
    case Str(s) =>
      assert ValueText(value) + t == [QUOTE] + (Escape(s) + ([QUOTE] + t));
      DecodableConcat([QUOTE], Escape(s) + ([QUOTE] + t));
      EscapeDecodable(s, [QUOTE] + t);
      DecodableConcat([QUOTE], t);
    case Num(n) =>
      DigitsAreAscii(n);
      AsciiDecodable(Decimal(n));
      DecodableConcat(Decimal(n), t);
  }

  ghost predicate AllStrict(fields: seq<Field>) {
    forall i :: 0 <= i < |fields| ==> ValueStrict(fields[i].value)
  }

  lemma AllStrictSplit(fields: seq<Field>)
    requires fields != []
    ensures AllStrict(fields) <==> ValueStrict(fields[0].value) && AllStrict(fields[1..])
  {
    assert forall i :: 0 < i < |fields| ==> fields[i] == fields[1..][i - 1];
  }

  lemma FieldDecodable(field: Field, t: ByteString)
    requires Ascii(field.key)
    ensures Decodable(FieldText(field) + t) <==> ValueStrict(field.value) && Decodable(t)
  {
    var key := KeyText(field.key);
    assert FieldText(field) + t == key + (ValueText(field.value) + t);
    AsciiDecodable(key);
    DecodableConcat(key, ValueText(field.value) + t);
    ValueDecodable(field.value, t);
  }

  lemma {:induction false} MembersDecodable(fields: seq<Field>, t: ByteString)
    requires forall i :: 0 <= i < |fields| ==> Ascii(fields[i].key)
    ensures Decodable(MembersText(fields) + t) <==> AllStrict(fields) && Decodable(t)
    decreases |fields|
  {
    if fields == [] {
      assert MembersText(fields) + t == t;
    } else if |fields| == 1 {
      FieldDecodable(fields[0], t);
    } else {
      var tail := MembersText(fields[1..]) + t;
      MembersSplit(fields, t);
      FieldDecodable(fields[0], [COMMA] + tail);
      AsciiDecodable([COMMA]);
      DecodableConcat([COMMA], tail);
      MembersDecodable(fields[1..], t);
      AllStrictSplit(fields);
    }
  }

  /** An object with ASCII keys decodes as UTF-8 exactly when its strings let no malformed sequence through. */
  lemma ObjectDecodable(fields: seq<Field>)
    requires forall i :: 0 <= i < |fields| ==> Ascii(fields[i].key)
    ensures Decodable(ObjectText(fields)) <==> AllStrict(fields)
  {
    assert ObjectText(fields) == [OPEN] + (MembersText(fields) + [CLOSE]);
    DecodableConcat([OPEN], MembersText(fields) + [CLOSE]);
    MembersDecodable(fields, [CLOSE]);
    AsciiDecodable([CLOSE]);
  }

  // ----- The agent's messages -----

  predicate PlainType(eventType: ByteString) {
    Plain(eventType) && Ascii(eventType)
  }

  lemma {:induction false} EscapeOfPlain(s: ByteString)
    requires PlainType(s)
    ensures Escape(s) == s && Sanitize(s) == s && AcceptedAreStrict(s)
  {
    if s != [] {
      EscapeOfPlain(s[1..]);
      assert s == [s[0]] + s[1..] && s[..1] == [s[0]];
    }
  }

  lemma KeysArePlain()
    ensures PlainType(TS) && PlainType(EVENT) && PlainType(PATH) && PlainType(HOSTNAME)
    ensures PlainType(OLD_PATH) && PlainType(NEW_PATH)
    ensures PlainType(DELETE) && PlainType(RENAME) && PlainType(MTIME_CHANGE)
  {}

  function EventFields(ts: int, eventType: ByteString, path: ByteString, hostname: ByteString): seq<Field> {
    [Field(TS, Num(ts)), Field(EVENT, Str(eventType)), Field(PATH, Str(path)), Field(HOSTNAME, Str(hostname))]
  }

  function RenameFields(ts: int, eventType: ByteString, oldPath: ByteString, newPath: ByteString, hostname: ByteString)
    : seq<Field>
  {
    [Field(TS, Num(ts)), Field(EVENT, Str(eventType)), Field(OLD_PATH, Str(oldPath)), Field(NEW_PATH, Str(newPath)),
     Field(HOSTNAME, Str(hostname))]
  }

  // ----- The messages letter by letter -----

  lemma NamesSpelt()
    ensures TS == Spelt("ts") && EVENT == Spelt("event") && PATH == Spelt("path") && HOSTNAME == Spelt("hostname")
    ensures OLD_PATH == Spelt("old_path") && NEW_PATH == Spelt("new_path")
    ensures DELETE == Spelt("delete") && RENAME == Spelt("rename") && MTIME_CHANGE == Spelt("mtime_change")
  {}

  /** A string member after its comma, or the opening brace. */
  lemma StringMember(sign: Byte, key: ByteString, s: ByteString)
    ensures [sign] + FieldText(Field(key, Str(s))) == [sign, QUOTE] + key + [QUOTE, COLON, QUOTE] + Escape(s) + [QUOTE]
  {}

  lemma NumberMember(sign: Byte, key: ByteString, n: int)
    ensures [sign] + FieldText(Field(key, Num(n))) == [sign, QUOTE] + key + [QUOTE, COLON] + Decimal(n)
  {}

  lemma FourMembers(a: Field, b: Field, c: Field, d: Field)
    ensures [OPEN] + MembersText([a, b, c, d])
         == ([OPEN] + FieldText(a)) + ([COMMA] + FieldText(b)) + ([COMMA] + FieldText(c)) + ([COMMA] + FieldText(d))
  {
    MembersSnoc([a], b);
    MembersSnoc([a, b], c);
    MembersSnoc([a, b, c], d);
    assert [a] + [b] == [a, b] && [a, b] + [c] == [a, b, c] && [a, b, c] + [d] == [a, b, c, d];
  }

  lemma FiveMembers(a: Field, b: Field, c: Field, d: Field, e: Field)
    ensures [OPEN] + MembersText([a, b, c, d, e])
         == ([OPEN] + FieldText(a)) + ([COMMA] + FieldText(b)) + ([COMMA] + FieldText(c)) + ([COMMA] + FieldText(d))
            + ([COMMA] + FieldText(e))
  {
    FourMembers(a, b, c, d);
    MembersSnoc([a, b, c, d], e);
    assert [a, b, c, d] + [e] == [a, b, c, d, e];
    Appended([OPEN], MembersText([a, b, c, d]), [COMMA] + FieldText(e));
  }

  lemma TimestampSpelt(ts: int)
    ensures [OPEN] + FieldText(Field(TS, Num(ts))) == Spelt("{\"ts\":") + Decimal(ts)
  {
    NumberMember(OPEN, TS, ts);
    assert Spelt("{\"ts\":") == [OPEN, QUOTE] + TS + [QUOTE, COLON];
  }

  lemma EventTypeSpelt(s: ByteString)
    ensures [COMMA] + FieldText(Field(EVENT, Str(s))) == Spelt(",\"event\":\"") + Escape(s) + Spelt("\"")
  {
    StringMember(COMMA, EVENT, s);
    assert Spelt(",\"event\":\"") == [COMMA, QUOTE] + EVENT + [QUOTE, COLON, QUOTE] && Spelt("\"") == [QUOTE];
  }

  lemma PathSpelt(s: ByteString)
    ensures [COMMA] + FieldText(Field(PATH, Str(s))) == Spelt(",\"path\":\"") + Escape(s) + Spelt("\"")
  {
    StringMember(COMMA, PATH, s);
    assert Spelt(",\"path\":\"") == [COMMA, QUOTE] + PATH + [QUOTE, COLON, QUOTE] && Spelt("\"") == [QUOTE];
  }

  lemma OldPathSpelt(s: ByteString)
    ensures [COMMA] + FieldText(Field(OLD_PATH, Str(s))) == Spelt(",\"old_path\":\"") + Escape(s) + Spelt("\"")
  {
    StringMember(COMMA, OLD_PATH, s);
    assert Spelt(",\"old_path\":\"") == [COMMA, QUOTE] + OLD_PATH + [QUOTE, COLON, QUOTE] && Spelt("\"") == [QUOTE];
  }

  lemma NewPathSpelt(s: ByteString)
    ensures [COMMA] + FieldText(Field(NEW_PATH, Str(s))) == Spelt(",\"new_path\":\"") + Escape(s) + Spelt("\"")
  {
    StringMember(COMMA, NEW_PATH, s);
    assert Spelt(",\"new_path\":\"") == [COMMA, QUOTE] + NEW_PATH + [QUOTE, COLON, QUOTE] && Spelt("\"") == [QUOTE];
  }

  lemma HostnameSpelt(s: ByteString)
    ensures [COMMA] + FieldText(Field(HOSTNAME, Str(s))) == Spelt(",\"hostname\":\"") + Escape(s) + Spelt("\"")
  {
    StringMember(COMMA, HOSTNAME, s);
    assert Spelt(",\"hostname\":\"") == [COMMA, QUOTE] + HOSTNAME + [QUOTE, COLON, QUOTE] && Spelt("\"") == [QUOTE];
  }

  /** The message about one path, as it goes over the wire. */
  lemma EventSpelt(ts: int, eventType: ByteString, path: ByteString, hostname: ByteString)
    ensures ObjectText(EventFields(ts, eventType, path, hostname))
         == (Spelt("{\"ts\":") + Decimal(ts))
            + (Spelt(",\"event\":\"") + Escape(eventType) + Spelt("\""))
            + (Spelt(",\"path\":\"") + Escape(path) + Spelt("\""))
            + (Spelt(",\"hostname\":\"") + Escape(hostname) + Spelt("\"")) + Spelt("}")
  {
    var f := EventFields(ts, eventType, path, hostname);
    FourMembers(f[0], f[1], f[2], f[3]);
    TimestampSpelt(ts);
    EventTypeSpelt(eventType);
    PathSpelt(path);
    HostnameSpelt(hostname);
    assert Spelt("}") == [CLOSE];
  }

  /** The message about a rename: the old path first. */
  lemma RenameSpelt(ts: int, eventType: ByteString, oldPath: ByteString, newPath: ByteString, hostname: ByteString)
    ensures ObjectText(RenameFields(ts, eventType, oldPath, newPath, hostname))
         == (Spelt("{\"ts\":") + Decimal(ts))
            + (Spelt(",\"event\":\"") + Escape(eventType) + Spelt("\""))
            + (Spelt(",\"old_path\":\"") + Escape(oldPath) + Spelt("\""))
            + (Spelt(",\"new_path\":\"") + Escape(newPath) + Spelt("\""))
            + (Spelt(",\"hostname\":\"") + Escape(hostname) + Spelt("\"")) + Spelt("}")
  {
    var f := RenameFields(ts, eventType, oldPath, newPath, hostname);
    FiveMembers(f[0], f[1], f[2], f[3], f[4]);
    TimestampSpelt(ts);
    EventTypeSpelt(eventType);
    OldPathSpelt(oldPath);
    NewPathSpelt(newPath);
    HostnameSpelt(hostname);
    assert Spelt("}") == [CLOSE];
  }

  lemma {:induction false} MembersSnoc(fields: seq<Field>, last: Field)
    requires fields != []
    ensures MembersText(fields + [last]) == MembersText(fields) + ([COMMA] + FieldText(last))
    decreases |fields|
  {
    assert (fields + [last])[1..] == fields[1..] + [last];
    if |fields| > 1 {
      MembersSnoc(fields[1..], last);
    } else {
      assert fields[1..] + [last] == [last];
    }
  }

  method AppendString(json: ByteString, ghost fields: seq<Field>, key: ByteString, s: ByteString)
    returns (r: ByteString)
    requires fields != [] && json == [OPEN] + MembersText(fields)
    ensures r == [OPEN] + MembersText(fields + [Field(key, Str(s))])
  {
    r := json + ([COMMA] + KeyText(key) + [QUOTE]);
    r := JsonEscape(r, s);
    r := r + [QUOTE];
    Quoted(json, KeyText(key), Escape(s));
    MemberAdded(json, fields, Field(key, Str(s)), r);
  }

  lemma Quoted(json: ByteString, keyText: ByteString, text: ByteString)
    ensures json + ([COMMA] + keyText + [QUOTE]) + text + [QUOTE]
         == json + ([COMMA] + (keyText + ([QUOTE] + text + [QUOTE])))
  {}

  lemma MemberAdded(json: ByteString, fields: seq<Field>, field: Field, r: ByteString)
    requires fields != [] && json == [OPEN] + MembersText(fields) && r == json + ([COMMA] + FieldText(field))
    ensures r == [OPEN] + MembersText(fields + [field])
  {
    MembersSnoc(fields, field);
    Appended([OPEN], MembersText(fields), [COMMA] + FieldText(field));
  }

  lemma Appended(a: ByteString, b: ByteString, c: ByteString)
    ensures (a + b) + c == a + (b + c)
  {}

  method AppendTimestamp(ts: int) returns (r: ByteString)
    ensures r == [OPEN] + MembersText([Field(TS, Num(ts))])
  {
    r := [OPEN] + KeyText(TS);
    r := r + Decimal(ts);
  }

  /** `eventType` is not escaped, and needs no escaping. */
  method AppendEventType(json: ByteString, ghost fields: seq<Field>, eventType: ByteString) returns (r: ByteString)
    requires PlainType(eventType) && fields != [] && json == [OPEN] + MembersText(fields)
    ensures r == [OPEN] + MembersText(fields + [Field(EVENT, Str(eventType))])
  {
    r := json + ([COMMA] + KeyText(EVENT) + [QUOTE]);
    r := r + eventType;
    r := r + [QUOTE];
    EscapeOfPlain(eventType);
    Quoted(json, KeyText(EVENT), eventType);
    MemberAdded(json, fields, Field(EVENT, Str(eventType)), r);
  }

  method BuildJson(ts: int, eventType: ByteString, path: ByteString, hostname: ByteString) returns (json: ByteString)
    requires PlainType(eventType)
    ensures json == ObjectText(EventFields(ts, eventType, path, hostname))
  {
    ghost var f := EventFields(ts, eventType, path, hostname);
    json := AppendTimestamp(ts);
    json := AppendEventType(json, [f[0]], eventType);
    json := AppendString(json, [f[0]] + [f[1]], PATH, path);
    json := AppendString(json, [f[0]] + [f[1]] + [f[2]], HOSTNAME, hostname);
    assert f == [f[0]] + [f[1]] + [f[2]] + [f[3]];
    json := json + [CLOSE];
  }

  method BuildRename(ts: int, oldPath: ByteString, newPath: ByteString, hostname: ByteString) returns (json: ByteString)
    ensures json == ObjectText(RenameFields(ts, RENAME, oldPath, newPath, hostname))
  {
    KeysArePlain();
    json := BuildTwoPaths(ts, RENAME, oldPath, newPath, hostname);
  }

  method BuildTwoPaths(ts: int, eventType: ByteString, oldPath: ByteString, newPath: ByteString, hostname: ByteString)
    returns (json: ByteString)
    requires PlainType(eventType)
    ensures json == ObjectText(RenameFields(ts, eventType, oldPath, newPath, hostname))
  {
    ghost var f := RenameFields(ts, eventType, oldPath, newPath, hostname);
    json := AppendTimestamp(ts);
    json := AppendEventType(json, [f[0]], eventType);
    json := AppendString(json, [f[0]] + [f[1]], OLD_PATH, oldPath);
    json := AppendString(json, [f[0]] + [f[1]] + [f[2]], NEW_PATH, newPath);
    json := AppendString(json, [f[0]] + [f[1]] + [f[2]] + [f[3]], HOSTNAME, hostname);
    assert f == [f[0]] + [f[1]] + [f[2]] + [f[3]] + [f[4]];
    json := json + [CLOSE];
  }

  // ----- Sizes -----

  predicate Int64(n: int) { -0x8000_0000_0000_0000 <= n < 0x8000_0000_0000_0000 }

  lemma TimestampLength(ts: int)
    requires Int64(ts)
    ensures |Decimal(ts)| <= 20
  {
    assert Power10(4) == 10_000;
    assert Power10(8) == 100_000_000;
    assert Power10(12) == 1_000_000_000_000;
    assert Power10(16) == 10_000_000_000_000_000;
    DigitsLength(if ts < 0 then -ts else ts, 19);
  }

  /** The room a field takes, its comma included. */
  function FieldRoom(field: Field): nat {
    |field.key| + 6 + (if field.value.Str? then 6 * |field.value.s| else 20)
  }

  function Room(fields: seq<Field>): nat {
    if fields == [] then 0 else FieldRoom(fields[0]) + Room(fields[1..])
  }

  lemma {:induction false} MembersSize(fields: seq<Field>)
    requires forall i :: 0 <= i < |fields| && fields[i].value.Num? ==> Int64(fields[i].value.n)
    ensures |MembersText(fields)| <= Room(fields)
  {
    if fields != [] {
      if fields[0].value.Str? {
        EscapeGrowth(fields[0].value.s);
      } else {
        TimestampLength(fields[0].value.n);
      }
      MembersSize(fields[1..]);
    }
  }

  lemma RoomOfFour(a: Field, b: Field, c: Field, d: Field)
    ensures Room([a, b, c, d]) == FieldRoom(a) + FieldRoom(b) + FieldRoom(c) + FieldRoom(d)
  {
    assert [a, b, c, d][1..] == [b, c, d] && [b, c, d][1..] == [c, d] && [c, d][1..] == [d];
    assert Room([d]) == FieldRoom(d) + Room([]);
    assert Room([c, d]) == FieldRoom(c) + Room([d]);
    assert Room([b, c, d]) == FieldRoom(b) + Room([c, d]);
  }

  lemma EventSize(ts: int, eventType: ByteString, path: ByteString, hostname: ByteString)
    requires Int64(ts)
    ensures |ObjectText(EventFields(ts, eventType, path, hostname))| <= 70 + 6 * (|eventType| + |path| + |hostname|)
  {
    var f := EventFields(ts, eventType, path, hostname);
    ObjectSize(f, ts);
    RoomOfFour(f[0], f[1], f[2], f[3]);
  }

  lemma RenameSize(ts: int, oldPath: ByteString, newPath: ByteString, hostname: ByteString)
    requires Int64(ts)
    ensures |ObjectText(RenameFields(ts, RENAME, oldPath, newPath, hostname))|
         <= 120 + 6 * (|oldPath| + |newPath| + |hostname|)
  {
    RenameRoom(ts, oldPath, newPath, hostname);
    ObjectSize(RenameFields(ts, RENAME, oldPath, newPath, hostname), ts);
  }

  lemma ObjectSize(fields: seq<Field>, ts: int)
    requires Int64(ts) && forall i :: 0 <= i < |fields| && fields[i].value.Num? ==> fields[i].value.n == ts
    ensures |ObjectText(fields)| <= Room(fields) + 2
  {
    MembersSize(fields);
  }

  lemma RenameRoom(ts: int, oldPath: ByteString, newPath: ByteString, hostname: ByteString)
    ensures Room(RenameFields(ts, RENAME, oldPath, newPath, hostname)) == 117 + 6 * (|oldPath| + |newPath| + |hostname|)
  {
    RoomOfFive(Field(TS, Num(ts)), Field(EVENT, Str(RENAME)), Field(OLD_PATH, Str(oldPath)),
               Field(NEW_PATH, Str(newPath)), Field(HOSTNAME, Str(hostname)));
  }

  lemma RoomOfFive(a: Field, b: Field, c: Field, d: Field, e: Field)
    ensures Room([a, b, c, d, e]) == FieldRoom(a) + FieldRoom(b) + FieldRoom(c) + FieldRoom(d) + FieldRoom(e)
  {
    assert [a, b, c, d, e][1..] == [b, c, d, e];
    RoomOfFour(b, c, d, e);
  }
}
