/**
 The consumer's main loop as a protocol: a log, a position in it, a batch, a committed offset and the pending hash, over
 any number of process lifetimes.
 */
module Daemon {
  import opened Bytes
  import opened Store
  import opened Consumer

  datatype Poll = Nothing | Errored | Got

  /** What the environment decides in one turn of the loop. */
  datatype Input = Input(poll: Poll, pingOk: bool, timedOut: bool, outcome: Outcome, commitOk: bool)

  /** The log as parsed, Redis, the broker's committed offset and the running process. */
  datatype Core = Core(log: seq<Parsed>, pending: Hash, committed: nat, position: nat, batch: seq<Op>, redisDown: bool)

  function FlushPending(m: Hash, batch: seq<Op>, outcome: Outcome): Hash {
    if outcome == FailedUnapplied then m else ApplyAll(m, batch)
  }

  /** Flush, then commit the position if the flush succeeded; an exception in the flush changes nothing. */
  function Flush(c: Core, outcome: Outcome, commitOk: bool): Core {
    var ok := c.batch == [] || outcome == Succeeded;
    if FlushRaises(c.batch, outcome) then c
    else c.(pending := FlushPending(c.pending, c.batch, outcome),
       batch := [],
       committed := if ok && commitOk then c.position else c.committed,
       redisDown := c.redisDown || !ok)
  }

  /** What is done on the way out. */
  function LastFlush(c: Core, outcome: Outcome, commitOk: bool): Core {
    if c.batch == [] then c else Flush(c, outcome, commitOk)
  }

  function Take(c: Core, parsed: Parsed): Core {
    c.(position := c.position + 1, batch := c.batch + (if parsed.Queued? then [parsed.op] else []))
  }

  /** The message polled is passed over while Redis is down. */
  predicate PassedOver(c: Core, i: Input) {
    c.redisDown && !i.pingOk
  }

  /** The turn up to the point where a flush may be due. */
  function Received(c: Core, i: Input): Core
    requires i.poll == Got ==> c.position < |c.log|
  {
    if PassedOver(c, i) then c.(position := if i.poll == Got then c.position + 1 else c.position)
    else
      var up := c.(redisDown := false);
      if i.poll == Got then Take(up, up.log[up.position]) else up
  }

  predicate FlushDue(c: Core, i: Input)
    requires i.poll == Got ==> c.position < |c.log|
  {
    && !PassedOver(c, i)
    && match i.poll
       case Nothing => c.batch != [] && i.timedOut
       case Errored => false
       case Got =>
         // An exception from the parser leads to the last flush on the way out.
         if c.log[c.position].Raised? then Received(c, i).batch != []
         else |Received(c, i).batch| >= BATCH_SIZE
  }

  function Iterate(c: Core, i: Input): Core
    requires i.poll == Got ==> c.position < |c.log|
  {
    if FlushDue(c, i) then Flush(Received(c, i), i.outcome, i.commitOk) else Received(c, i)
  }

  /** The turn ends the process with an exception, from the parser or from the flush. */
  predicate Raises(c: Core, i: Input)
    requires i.poll == Got ==> c.position < |c.log|
  {
    && !PassedOver(c, i)
    && ((i.poll == Got && c.log[c.position].Raised?)
        || (FlushDue(c, i) && FlushRaises(Received(c, i).batch, i.outcome)))
  }

  /** A batch never outgrows a hundred operations: one that gets there is flushed in the same turn. */
  lemma BatchBelowHundred(c: Core, i: Input)
    requires i.poll == Got ==> c.position < |c.log|
    requires |c.batch| < 100 && !Raises(c, i)
    ensures |Iterate(c, i).batch| < 100
  {}

  /** The turn that polls the hundredth operation flushes, and so does one that polls nothing once the time is over. */
  lemma FullBatchFlushed(c: Core, i: Input, op: Op)
    requires !PassedOver(c, i) && i.outcome == Succeeded && AllEncodable(c.batch + [op])
    ensures i.poll == Got && c.position < |c.log| && c.log[c.position] == Queued(op) && |c.batch| == 99 ==>
              && Iterate(c, i).pending == ApplyAll(c.pending, c.batch + [op])
              && Iterate(c, i).committed == (if i.commitOk then c.position + 1 else c.committed)
    ensures i.poll == Nothing && i.timedOut && c.batch != [] ==>
              && Iterate(c, i).pending == ApplyAll(c.pending, c.batch)
              && Iterate(c, i).committed == (if i.commitOk then c.position else c.committed)
    ensures i.poll == Got && c.position < |c.log| && c.log[c.position] == Queued(op) && |c.batch| < 99 ==>
              Iterate(c, i) == c.(position := c.position + 1, batch := c.batch + [op], redisDown := false)
  {
    forall o | o in c.batch ensures Encodable(o) {
      assert o in c.batch + [op];
    }
  }

  /** A turn that polls a message while Redis stays down passes it over, whatever it is, and does nothing else. */
  lemma DownPassesOver(c: Core, i: Input)
    requires i.poll == Got ==> c.position < |c.log|
    requires c.redisDown && !i.pingOk
    ensures Iterate(c, i) == c.(position := if i.poll == Got then c.position + 1 else c.position) && !Raises(c, i)
  {}

  /** Turns that change nothing but the position: no message and no batch that is due, an error, or nothing to apply. */
  lemma QuietTurn(c: Core, i: Input)
    requires i.poll == Got ==> c.position < |c.log|
    requires !PassedOver(c, i)
    ensures i.poll == Errored || (i.poll == Nothing && (c.batch == [] || !i.timedOut)) ==>
              Iterate(c, i) == c.(redisDown := false)
    ensures i.poll == Got && (c.log[c.position].Ignored? || c.log[c.position].Malformed?) && |c.batch| < 100 ==>
              Iterate(c, i) == c.(position := c.position + 1, redisDown := false)
  {
    assert c.batch + [] == c.batch;
  }

  /** A flush that fails gives up the batch and commits nothing; Redis counts as down from then on. */
  lemma FailedFlush(c: Core, outcome: Outcome, commitOk: bool)
    requires c.batch != [] && AllEncodable(c.batch) && outcome != Succeeded
    ensures var t := Flush(c, outcome, commitOk);
            && t.batch == [] && t.redisDown && t.committed == c.committed && t.position == c.position
            && t.pending == if outcome == FailedApplied then ApplyAll(c.pending, c.batch) else c.pending
    ensures LastFlush(c, outcome, commitOk) == Flush(c, outcome, commitOk)
  {}

  /** The next process resumes at the committed offset with nothing batched. */
  lemma ResumesAtCommitted(c: Core)
    ensures Restart(c) == Core(c.log, c.pending, c.committed, c.committed, [], false)
  {}

  function Restart(c: Core): Core {
    c.(position := c.committed, batch := [], redisDown := false)
  }

  /**
   Exactly when a message the parser raises on is passed, so that the next process resumes behind it: the flush on the way
   out succeeds and commits what was batched before it. With nothing batched there is no flush and no commit.
   */
  lemma PassesRaisingMessageIff(c: Core, i: Input)
    requires c.committed <= c.position < |c.log| && c.log[c.position].Raised?
    requires i.poll == Got && !PassedOver(c, i)
    ensures Restart(Iterate(c, i)).position > c.position
       <==> c.batch != [] && AllEncodable(c.batch) && i.outcome == Succeeded && i.commitOk
  {
    assert c.batch + [] == c.batch;
  }

  class Process {
    const log: seq<ByteString>
    const redis: Redis
    const processor: EventProcessor
    var committed: nat
    var position: nat
    var redisDown: bool

    ghost predicate Valid()
      reads this, processor
    {
      processor.redis == redis && position <= |log|
    }

    ghost function View(): Core
      reads this, processor, redis
    {
      Core(ParseAll(log), redis.pending, committed, position, processor.batch, redisDown)
    }

    /** A new lifetime resumes at the committed offset. */
    constructor (log: seq<ByteString>, redis: Redis, committed: nat)
      requires committed <= |log|
      ensures Valid() && fresh(processor) && this.redis == redis
      ensures View() == Core(ParseAll(log), redis.pending, committed, committed, [], false)
    {
      this.log := log;
      this.redis := redis;
      this.committed := committed;
      position := committed;
      redisDown := false;
      processor := new EventProcessor(redis);
    }

    method FlushAndCommit(outcome: Outcome, commitOk: bool) returns (raised: bool)
      requires Valid()
      modifies this, processor, redis
      ensures Valid() && View() == Flush(old(View()), outcome, commitOk)
      ensures raised == FlushRaises(old(processor.batch), outcome)
    {
      var ok;
      ok, raised := processor.FlushBatch(outcome);
      if raised {
        return;
      }
      if ok {
        if commitOk {
          committed := position;
        }
      } else {
        redisDown := true;
      }
    }

    method ShutDown(outcome: Outcome, commitOk: bool) returns (raised: bool)
      requires Valid()
      modifies this, processor, redis
      ensures Valid() && View() == LastFlush(old(View()), outcome, commitOk)
      ensures raised == FlushRaises(old(processor.batch), outcome)
    {
      raised := false;
      if |processor.batch| > 0 {
        raised := FlushAndCommit(outcome, commitOk);
      }
    }

    /**
     One turn of the loop; `raised` ends it with an exception. If that is the parser's, what is batched is flushed on the
     way out; if it is the flush's, the flush on the way out can only raise again or give up the batch.
     */
    method Turn(i: Input) returns (raised: bool)
      requires Valid() && (i.poll == Got ==> position < |log|)
      modifies this, processor, redis
      ensures Valid() && View() == Iterate(old(View()), i) && raised == Raises(old(View()), i)
    {
      raised := false;
      var message := [];
      if i.poll == Got {
        message := log[position];
        position := position + 1;
      }
      if redisDown {
        if i.pingOk {
          redisDown := false;
        } else {
          return;
        }
      }
      if i.poll == Nothing {
        if |processor.batch| > 0 && i.timedOut {
          raised := FlushAndCommit(i.outcome, i.commitOk);
        }
        return;
      }
      if i.poll == Errored {
        return;
      }
      raised := processor.ParseEvent(message);
      if raised {
        if |processor.batch| > 0 {
          var again := FlushAndCommit(i.outcome, i.commitOk);
        }
        return;
      }
      if |processor.batch| >= BATCH_SIZE {
        raised := FlushAndCommit(i.outcome, i.commitOk);
      }
    }
  }
}
