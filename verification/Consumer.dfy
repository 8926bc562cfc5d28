/**
 The consumer: messages are parsed into operations on the `pending` hash, batched, and applied by an atomic pipeline,
 after which the position is committed. A lifetime of the process ends at any step and the next one starts at the
 committed offset.
 */
module Consumer {
  import opened Bytes
  import opened Json
  import opened Messages
  import opened Store

  const BATCH_SIZE: nat := 100

  // ----- Operations on the pending hash -----

  datatype Op = HSet(path: Path) | Move(oldPath: Path, newPath: Path)

  function Apply(m: Hash, op: Op): Hash {
    match op
    case HSet(path) => m[path := MtimeChange]
    case Move(oldPath, newPath) => (m - {oldPath})[newPath := Renamed]
  }

  function ApplyAll(m: Hash, ops: seq<Op>): Hash {
    if ops == [] then m else Apply(ApplyAll(m, ops[..|ops| - 1]), ops[|ops| - 1])
  }

  function Get(m: Hash, k: Path): Option<Marker> {
    if k in m then Some(m[k]) else None
  }

  predicate Touches(op: Op, k: Path) {
    if op.HSet? then op.path == k else op.oldPath == k || op.newPath == k
  }

  predicate Touched(ops: seq<Op>, k: Path) {
    exists i :: 0 <= i < |ops| && Touches(ops[i], k)
  }

  lemma {:induction false} ApplyAllConcat(m: Hash, a: seq<Op>, b: seq<Op>)
    ensures ApplyAll(m, a + b) == ApplyAll(ApplyAll(m, a), b)
    decreases |b|
  {
    if b == [] {
      assert a + b == a;
    } else {
      assert (a + b)[..|a + b| - 1] == a + b[..|b| - 1];
      ApplyAllConcat(m, a, b[..|b| - 1]);
    }
  }

  /** A key is settled by the last operation that touches it, and left alone if none does. */
  lemma {:induction false} SettledByTouch(m: Hash, n: Hash, ops: seq<Op>, k: Path)
    ensures Touched(ops, k) ==> Get(ApplyAll(m, ops), k) == Get(ApplyAll(n, ops), k)
    ensures !Touched(ops, k) ==> Get(ApplyAll(m, ops), k) == Get(m, k)
    decreases |ops|
  {
    if ops != [] {
      var init, last := ops[..|ops| - 1], ops[|ops| - 1];
      SettledByTouch(m, n, init, k);
      if Touches(last, k) {
        assert Touched(ops, k);
      } else {
        assert Touched(init, k) ==> Touched(ops, k);
        assert Touched(ops, k) ==> Touched(init, k);
      }
    }
  }

  /**
   What the last operation that touches a key leaves there: a write marks its path; a rename marks its new path, and removes
   its old path unless that is the new one too.
   */
  lemma {:induction false} LastTouchDecides(m: Hash, ops: seq<Op>, i: nat, k: Path)
    requires i < |ops| && Touches(ops[i], k) && forall j :: i < j < |ops| ==> !Touches(ops[j], k)
    ensures ops[i].HSet? ==> ops[i].path == k && Get(ApplyAll(m, ops), k) == Some(MtimeChange)
    ensures ops[i].Move? && ops[i].newPath == k ==> Get(ApplyAll(m, ops), k) == Some(Renamed)
    ensures ops[i].Move? && ops[i].newPath != k ==> ops[i].oldPath == k && Get(ApplyAll(m, ops), k) == None
    decreases |ops|
  {
    var n := |ops| - 1;
    if i < n {
      LastTouchDecides(m, ops[..n], i, k);
    }
  }

  lemma SameHash(m: Hash, n: Hash)
    requires forall k: Path :: Get(m, k) == Get(n, k)
    ensures m == n
  {
    forall k: Path ensures k in m <==> k in n {
      assert Get(m, k) == Get(n, k);
    }
    forall k | k in m ensures m[k] == n[k] {
      assert Get(m, k) == Get(n, k);
    }
  }

  /** Replaying any suffix of what has been applied changes nothing. */
  lemma ReplayIdempotent(m: Hash, before: seq<Op>, suffix: seq<Op>)
    ensures ApplyAll(ApplyAll(m, before + suffix), suffix) == ApplyAll(m, before + suffix)
  {
    ApplyAllConcat(m, before, suffix);
    var once := ApplyAll(m, before + suffix);
    forall k: Path ensures Get(ApplyAll(once, suffix), k) == Get(once, k) {
      SettledByTouch(once, ApplyAll(m, before), suffix, k);
    }
    SameHash(ApplyAll(once, suffix), once);
  }

  function Concat(batches: seq<seq<Op>>): seq<Op> {
    if batches == [] then [] else Concat(batches[..|batches| - 1]) + batches[|batches| - 1]
  }

  function FlushEach(m: Hash, batches: seq<seq<Op>>): Hash {
    if batches == [] then m else ApplyAll(FlushEach(m, batches[..|batches| - 1]), batches[|batches| - 1])
  }

  /** However operations are split into flushes, the hash is the one of applying them one at a time. */
  lemma {:induction false} SplitIrrelevant(m: Hash, batches: seq<seq<Op>>)
    ensures FlushEach(m, batches) == ApplyAll(m, Concat(batches))
    decreases |batches|
  {
    if batches != [] {
      var init := batches[..|batches| - 1];
      SplitIrrelevant(m, init);
      ApplyAllConcat(m, Concat(init), batches[|batches| - 1]);
    }
  }

  // ----- Messages -----

  /** What one message comes to; `Raised` is an exception the parser does not catch. */
  datatype Parsed = Queued(op: Op) | Ignored | Malformed | Raised

  /** The value of a key, the last one given if there are several. */
  function Lookup(fields: seq<Field>, key: ByteString): Option<Value> {
    if fields == [] then None
    else if fields[|fields| - 1].key == key then Some(fields[|fields| - 1].value)
    else Lookup(fields[..|fields| - 1], key)
  }

  /** A path that is present and not empty. */
  function PathField(fields: seq<Field>, key: ByteString): Option<Path> {
    match Lookup(fields, key)
    case Some(Str(s)) => if s == [] then None else Some(s)
    case _ => None
  }

  /** Of several fields with one key the last one counts. */
  lemma {:induction false} LookupIsLast(fields: seq<Field>, key: ByteString, i: nat)
    requires i < |fields| && fields[i].key == key && forall j :: i < j < |fields| ==> fields[j].key != key
    ensures Lookup(fields, key) == Some(fields[i].value)
    decreases |fields|
  {
    if i < |fields| - 1 {
      LookupIsLast(fields[..|fields| - 1], key, i);
    }
  }

  function ParseFields(fields: seq<Field>): Parsed {
    var event := Lookup(fields, EVENT);
    if event == Some(Str(DELETE)) then Ignored
    else if event == Some(Str(RENAME)) then
      var oldPath, newPath := PathField(fields, OLD_PATH), PathField(fields, NEW_PATH);
      if oldPath.None? || newPath.None? then Malformed else Queued(Move(oldPath.value, newPath.value))
    else if event == Some(Str(MTIME_CHANGE)) then
      var path := PathField(fields, PATH);
      if path.None? then Ignored else Queued(HSet(path.value))
    else Malformed
  }

  /** The value of a key whose name is spelt out is the given text. */
  predicate Says(fields: seq<Field>, key: ByteString, text: ByteString) {
    Lookup(fields, key) == Some(Str(text))
  }

  /** A path is queued to be marked exactly by a write's message that names it. */
  lemma QueuesMarkIff(fields: seq<Field>, path: Path)
    ensures ParseFields(fields) == Queued(HSet(path)) <==>
              path != [] && Says(fields, Spelt("event"), Spelt("mtime_change")) && Says(fields, Spelt("path"), path)
  {
    NamesSpelt();
    TypesDiffer();
  }

  /** A marking is queued to be moved exactly by a rename's message that names both paths. */
  lemma QueuesMoveIff(fields: seq<Field>, oldPath: Path, newPath: Path)
    ensures ParseFields(fields) == Queued(Move(oldPath, newPath)) <==>
              && oldPath != [] && newPath != [] && Says(fields, Spelt("event"), Spelt("rename"))
              && Says(fields, Spelt("old_path"), oldPath) && Says(fields, Spelt("new_path"), newPath)
  {
    NamesSpelt();
    TypesDiffer();
  }

  /** Passed over without an error are deletions, and writes that name no path. */
  lemma IgnoredIff(fields: seq<Field>)
    ensures ParseFields(fields) == Ignored <==>
              || Says(fields, Spelt("event"), Spelt("delete"))
              || (Says(fields, Spelt("event"), Spelt("mtime_change")) &&
                  forall path :: Says(fields, Spelt("path"), path) ==> path == [])
  {
    NamesSpelt();
    TypesDiffer();
    assert forall path :: Lookup(fields, PATH) == Some(Str(path)) ==> Says(fields, PATH, path);
  }

  lemma TypesDiffer()
    ensures MTIME_CHANGE != DELETE && MTIME_CHANGE != RENAME && RENAME != DELETE
  {
    assert |MTIME_CHANGE| == 12 && RENAME[0] != DELETE[0];
  }

  function Parse(msg: ByteString): Parsed {
    if !Decodable(msg) then Raised
    else
      match ParseObject(msg)
      case None => Malformed
      case Some(fields) => ParseFields(fields)
  }

  predicate IsDelete(msg: ByteString) {
    && Decodable(msg)
    && match ParseObject(msg)
       case Some(fields) => Lookup(fields, EVENT) == Some(Str(DELETE))
       case None => false
  }

  function ParseAll(msgs: seq<ByteString>): (log: seq<Parsed>)
    ensures |log| == |msgs| && forall j :: 0 <= j < |log| ==> log[j] == Parse(msgs[j])
  {
    seq(|msgs|, j requires 0 <= j < |msgs| => Parse(msgs[j]))
  }

  /** The operations a stretch of the log queues, in order. */
  function Ops(log: seq<Parsed>): seq<Op> {
    if log == [] then []
    else
      var last := log[|log| - 1];
      Ops(log[..|log| - 1]) + (if last.Queued? then [last.op] else [])
  }

  lemma {:induction false} OpsConcat(a: seq<Parsed>, b: seq<Parsed>)
    ensures Ops(a + b) == Ops(a) + Ops(b)
    decreases |b|
  {
    if b == [] {
      assert a + b == a;
    } else {
      assert (a + b)[..|a + b| - 1] == a + b[..|b| - 1];
      OpsConcat(a, b[..|b| - 1]);
    }
  }

  // ----- The event processor -----

  datatype Command = SetField(path: Path, marker: Marker) | DelField(path: Path)

  function ExecuteOne(m: Hash, command: Command): Hash {
    match command
    case SetField(path, marker) => m[path := marker]
    case DelField(path) => m - {path}
  }

  function Execute(m: Hash, commands: seq<Command>): Hash {
    if commands == [] then m
    else ExecuteOne(Execute(m, commands[..|commands| - 1]), commands[|commands| - 1])
  }

  lemma ExecuteMore(m: Hash, commands: seq<Command>, command: Command)
    ensures Execute(m, commands + [command]) == ExecuteOne(Execute(m, commands), command)
  {
    assert (commands + [command])[..|commands|] == commands;
  }

  /**
   How a pipeline ends once it has a connection and its commands are encoded; it is atomic, but an error may arrive after
   it was applied. Without a connection it fails unapplied.
   */
  datatype Outcome = Succeeded | FailedUnapplied | FailedApplied

  /** Paths are sent as UTF-8, in which surrogates cannot be encoded. */
  predicate Encodable(op: Op) {
    match op
    case HSet(path) => Utf8Text(path)
    case Move(oldPath, newPath) => Utf8Text(oldPath) && Utf8Text(newPath)
  }

  predicate AllEncodable(batch: seq<Op>) {
    forall op :: op in batch ==> Encodable(op)
  }

  /** The exception that is not one of Redis: there is a connection, and a path that cannot be encoded for it. */
  predicate FlushRaises(batch: seq<Op>, outcome: Outcome) {
    !AllEncodable(batch) && outcome != FailedUnapplied
  }

  lemma OneOp(op: Op)
    ensures [] + [op] == [op] && AllEncodable([op]) == Encodable(op)
    ensures forall m: Hash :: ApplyAll(m, [op]) == Apply(m, op)
    ensures Ops([Queued(op)]) == [op]
  {
    assert [op][..0] == [] && [Queued(op)][..0] == [];
  }

  class EventProcessor {
    const redis: Redis
    var batch: seq<Op>
    var processed: nat
    var skippedDelete: nat
    var errors: nat

    constructor (redis: Redis)
      ensures this.redis == redis && batch == [] && processed == skippedDelete == errors == 0
    {
      this.redis := redis;
      batch := [];
      processed, skippedDelete, errors := 0, 0, 0;
    }

    /** Queues the operation of a message, if it has one; never talks to Redis. */
    method ParseEvent(msg: ByteString) returns (raised: bool)
      modifies this
      ensures var parsed := Parse(msg);
              && raised == parsed.Raised?
              && batch == old(batch) + (if parsed.Queued? then [parsed.op] else [])
              && errors == old(errors) + (if parsed.Malformed? then 1 else 0)
              && processed == old(processed) + (if parsed.Queued? || parsed.Ignored? then 1 else 0)
              && skippedDelete == old(skippedDelete) + (if IsDelete(msg) then 1 else 0)
    {
      if !Decodable(msg) {
        return true;
      }
      raised := false;
      var loaded := ParseObject(msg);
      if loaded.None? {
        errors := errors + 1;
        return;
      }
      var fields := loaded.value;
      var event := Lookup(fields, EVENT);
      if event == Some(Str(DELETE)) {
        skippedDelete := skippedDelete + 1;
        processed := processed + 1;
        return;
      }
      if event == Some(Str(RENAME)) {
        var oldPath, newPath := PathField(fields, OLD_PATH), PathField(fields, NEW_PATH);
        if oldPath.None? || newPath.None? {
          errors := errors + 1;
          return;
        }
        batch := batch + [Move(oldPath.value, newPath.value)];
      } else if event == Some(Str(MTIME_CHANGE)) {
        var path := PathField(fields, PATH);
        if path.Some? {
          batch := batch + [HSet(path.value)];
        }
      } else {
        errors := errors + 1;
        return;
      }
      processed := processed + 1;
    }

    /**
     The whole batch in one pipeline. The batch is gone afterwards, even if the pipeline failed, unless an exception that is
     not one of Redis leaves everything as it was.
     */
    method FlushBatch(outcome: Outcome) returns (ok: bool, raised: bool)
      modifies this`batch, redis`pending
      ensures raised == FlushRaises(old(batch), outcome)
      ensures raised ==> !ok && batch == old(batch) && redis.pending == old(redis.pending)
      ensures !raised ==> batch == [] && ok == (old(batch) == [] || outcome == Succeeded)
      ensures !raised ==> redis.pending == if outcome == FailedUnapplied then old(redis.pending)
                                           else ApplyAll(old(redis.pending), old(batch))
    {
      raised := false;
      if batch == [] {
        return true, false;
      }
      var pipe: seq<Command> := [];
      for i := 0 to |batch|
        modifies {}
        invariant Execute(redis.pending, pipe) == ApplyAll(redis.pending, batch[..i])
      {
        assert batch[..i + 1][..i] == batch[..i];
        match batch[i]
        case HSet(path) =>
          ExecuteMore(redis.pending, pipe, SetField(path, MtimeChange));
          pipe := pipe + [SetField(path, MtimeChange)];
        case Move(oldPath, newPath) =>
          ExecuteMore(redis.pending, pipe, DelField(oldPath));
          pipe := pipe + [DelField(oldPath)];
          ExecuteMore(redis.pending, pipe, SetField(newPath, Renamed));
          pipe := pipe + [SetField(newPath, Renamed)];
      }
      assert batch[..|batch|] == batch;
      if outcome != FailedUnapplied {
        if exists op :: op in batch && !Encodable(op) {
          return false, true;
        }
        redis.pending := Execute(redis.pending, pipe);
      }
      batch := [];
      ok := outcome == Succeeded;
    }
  }
}
