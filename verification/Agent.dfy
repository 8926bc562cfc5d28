/**
 The agent as a whole: events in, messages out. The handler and the debouncer decide which messages there are, the log
 and the Kafka client's queue hold them until they are delivered.
 */
module Agent {
  import opened Bytes
  import opened Probe
  import opened Debounce
  import opened Events
  import opened Messages
  import opened Wal
  import Delivery

  type Json = Delivery.Json

  /** Milliseconds since the epoch, as the 64-bit clock reports them. */
  type Timestamp = n: int | Int64(n) witness 0

  const PATH_MAX: nat := MAX_DEPTH * MAX_NAME_LEN
  const HOSTNAME_MAX: nat := 255

  /** The longest message two paths and a host name can make. */
  const LARGEST: nat := 120 + 6 * (2 * PATH_MAX + HOSTNAME_MAX)

  // ----- Texts -----

  function TypeText(kind: Kind): ByteString {
    if kind == Delete then DELETE else MTIME_CHANGE
  }

  function EventText(m: Message, ts: Timestamp, hostname: ByteString): Json {
    ObjectText(EventFields(ts, TypeText(m.kind), m.path, hostname))
  }

  function RenameText(r: Rename, ts: Timestamp, hostname: ByteString): Json {
    ObjectText(RenameFields(ts, RENAME, r.oldPath, r.newPath, hostname))
  }

  function EventTexts(messages: seq<Message>, clock: nat -> Timestamp, hostname: ByteString): (texts: seq<Json>)
    ensures |texts| == |messages|
  {
    seq(|messages|, i requires 0 <= i < |messages| => EventText(messages[i], clock(i), hostname))
  }

  function RenameTexts(renames: seq<Rename>, clock: nat -> Timestamp, hostname: ByteString): (texts: seq<Json>)
    ensures |texts| == |renames|
  {
    seq(|renames|, i requires 0 <= i < |renames| => RenameText(renames[i], clock(i), hostname))
  }

  lemma EventTextFits(m: Message, ts: Timestamp, hostname: ByteString)
    requires |m.path| <= PATH_MAX && |hostname| <= HOSTNAME_MAX
    ensures |EventText(m, ts, hostname)| <= LARGEST
  {
    EventSize(ts, TypeText(m.kind), m.path, hostname);
  }

  lemma RenameTextFits(r: Rename, ts: Timestamp, hostname: ByteString)
    requires |r.oldPath| <= PATH_MAX && |r.newPath| <= PATH_MAX && |hostname| <= HOSTNAME_MAX
    ensures |RenameText(r, ts, hostname)| <= LARGEST
  {
    RenameSize(ts, r.oldPath, r.newPath, hostname);
  }

  // ----- Sizes -----

  lemma BufferedPathFits(evt: FileEvent)
    requires InBuffer(evt)
    ensures |RawOf(evt).path| <= PATH_MAX
  {
    PathOfBounded(evt.names[..evt.depth]);
  }

  ghost predicate ShortPaths(events: seq<Raw>) {
    forall i :: 0 <= i < |events| ==> |events[i].path| <= PATH_MAX
  }

  lemma EventTextsFit(messages: seq<Message>, clock: nat -> Timestamp, hostname: ByteString)
    requires |hostname| <= HOSTNAME_MAX && forall i :: 0 <= i < |messages| ==> |messages[i].path| <= PATH_MAX
    ensures forall j :: j in EventTexts(messages, clock, hostname) ==> |j| <= LARGEST < MAX_RECORD
  {
    forall i: nat | i < |messages| ensures |EventText(messages[i], clock(i), hostname)| <= LARGEST {
      EventTextFits(messages[i], clock(i), hostname);
    }
  }

  /** Whatever events arrive, every message made of them is far below the record limit of the log. */
  lemma EventMessagesFit(cfg: Config, calls: seq<Call>, entries: map<Path, Entry>, sent: seq<Message>, prefix: Path,
                         events: seq<Raw>, from: nat, clock: nat -> Timestamp, hostname: ByteString)
    requires Refines(cfg, calls, entries, sent) && EventCalls(calls) == Forwarded(prefix, events)
    requires ShortPaths(events) && |hostname| <= HOSTNAME_MAX && from <= |sent|
    ensures forall j :: j in EventTexts(sent[from..], clock, hostname) ==> |j| <= LARGEST < MAX_RECORD
  {
    forall i: nat | i < |sent| ensures |sent[i].path| <= PATH_MAX {
      MessageHasSource(cfg, calls, entries, sent, prefix, events, i);
    }
    EventTextsFit(sent[from..], clock, hostname);
  }

  lemma RenameMessagesFit(prefix: Path, events: seq<Raw>, from: nat, clock: nat -> Timestamp, hostname: ByteString)
    requires ShortPaths(events) && |hostname| <= HOSTNAME_MAX && from <= |Pairs(prefix, events)|
    ensures forall j :: j in RenameTexts(Pairs(prefix, events)[from..], clock, hostname) ==> |j| <= LARGEST < MAX_RECORD
  {
    var renames := Pairs(prefix, events)[from..];
    forall i: nat | i < |renames| ensures |RenameText(renames[i], clock(i), hostname)| <= LARGEST {
      RenameHasSource(prefix, events, renames[i]);
      RenameTextFits(renames[i], clock(i), hostname);
    }
  }

  lemma OneMoreTaken<T>(list: seq<T>, i: nat, before: seq<T>, next: T)
    requires i < |list| && list[i] == next
    ensures before + list[..i] + [next] == before + list[..i + 1]
  {}

  /**
   What the environment decides in one turn of the main loop: the time and, for each message, its timestamp and whether the
   client accepts it, for each event of the poll by itself, then for the tick, and then for a retry.
   */
  datatype Turn = Turn(events: seq<FileEvent>, times: nat -> Time, clock: nat -> nat -> Timestamp,
                       accepts: nat -> nat -> bool, reports: nat, retryDue: bool, retryReports: nat)

  // ----- The process -----

  class Agent {
    const ctx: EventCtx
    const debouncer: Debouncer
    const log: LogFile
    const limit: nat
    const hostname: ByteString
    /** A bound on all messages, those of earlier processes in the log included. */
    ghost const largest: nat
    /** What the Kafka client has queued and not yet reported on. */
    var inFlight: multiset<Json>
    ghost var submitted: multiset<Json>
    ghost var delivered: multiset<Json>
    ghost var dropped: multiset<Json>
    ghost var retrying: seq<Json>

    ghost function Cfg(): Delivery.Config {
      Delivery.Config(log.fmt, limit, largest)
    }

    ghost function View(): Delivery.State
      reads this, log
    {
      Delivery.State(submitted, delivered, inFlight, log.file, retrying, dropped)
    }

    ghost predicate LogReady()
      reads log, log.crc, log.crc.table
    {
      log.Valid() && log.open && LARGEST <= largest <= MAX_RECORD
    }

    ghost predicate EventsValid()
      reads ctx, ctx.debouncer
    {
      ctx.debouncer == debouncer && ctx.Valid() && ShortPaths(ctx.events) && |hostname| <= HOSTNAME_MAX
    }

    ghost predicate Accounted()
      requires LogReady()
      reads this, log, log.crc, log.crc.table
    {
      Delivery.Conserves(Cfg(), View())
    }

    constructor (contents: ByteString, limit: nat, hostname: ByteString, quiet: Time, maxWait: Time, watchPrefix: Path,
                 ghost largest: nat)
      requires |hostname| <= HOSTNAME_MAX && LARGEST <= largest <= MAX_RECORD
      ensures Ready() && log.fmt == FORMAT && View() == Delivery.Fresh(Cfg(), contents)
      ensures fresh(log) && fresh(log.crc) && fresh(log.crc.table) && fresh(ctx) && fresh(debouncer)
      ensures this.limit == limit && this.hostname == hostname && this.largest == largest
      ensures ctx.events == []
    {
      var d := new Debouncer(quiet, maxWait);
      debouncer := d;
      ctx := new EventCtx(d, watchPrefix);
      log := new LogFile(contents, true);
      this.limit := limit;
      this.hostname := hostname;
      this.largest := largest;
      inFlight, delivered, dropped, retrying := multiset{}, multiset{}, multiset{}, [];
      submitted := multiset(ParseLog(contents));
    }

    /** The failure callback. */
    method OnFail(json: Json)
      requires LogReady() && |json| <= MAX_RECORD
      modifies `dropped, log, log.crc, log.crc.table
      ensures LogReady() && View() == Delivery.OnFail(Cfg(), old(View()), json)
    {
      var size := log.FileSize();
      if size < limit {
        WrittenIsFrame(log.fmt, json);
        var ok := log.Append(json);
      } else {
        dropped := dropped + multiset{json};
      }
    }

    /** The client queues the message or rejects it. */
    method Send(json: Json, accepted: bool) returns (queued: bool)
      requires LogReady() && |json| <= MAX_RECORD
      modifies `inFlight, `dropped, log, log.crc, log.crc.table
      ensures LogReady() && queued == accepted && View() == Delivery.Send(Cfg(), old(View()), json, accepted)
    {
      if !accepted {
        OnFail(json);
        return false;
      }
      inFlight := inFlight + multiset{json};
      queued := true;
    }

    /** A delivery report. */
    method Report(json: Json, ok: bool)
      requires LogReady() && json in inFlight && |json| <= MAX_RECORD
      modifies this, log, log.crc, log.crc.table
      ensures LogReady() && View() == Delivery.Reported(Cfg(), old(View()), json, ok)
    {
      inFlight := inFlight - multiset{json};
      if ok {
        delivered := delivered + multiset{json};
      } else {
        OnFail(json);
      }
    }

    // ----- Events -----

    /** New messages are handed over one after the other. */
    method Submit(json: Json, accepted: bool)
      requires LogReady() && |json| <= MAX_RECORD
      modifies this, log, log.crc, log.crc.table
      ensures LogReady()
      ensures View() == Delivery.Send(Cfg(), Delivery.Submitted(old(View()), json), json, accepted)
    {
      submitted := submitted + multiset{json};
      var queued := Send(json, accepted);
    }

    method BuildEvent(m: Message, ts: Timestamp) returns (json: Json)
      ensures json == EventText(m, ts, hostname)
    {
      KeysArePlain();
      json := BuildJson(ts, TypeText(m.kind), m.path, hostname);
    }

    method SubmitEvents(messages: seq<Message>, clock: nat -> Timestamp, accepts: nat -> bool)
      requires LogReady() && Delivery.AllSmall(Cfg(), EventTexts(messages, clock, hostname))
      modifies this, log, log.crc, log.crc.table
      ensures LogReady()
      ensures View() == Delivery.SubmitAll(Cfg(), old(View()), EventTexts(messages, clock, hostname), accepts)
    {
      ghost var texts := EventTexts(messages, clock, hostname);
      for i := 0 to |messages|
        invariant LogReady()
        invariant View() == Delivery.SubmitAll(Cfg(), old(View()), texts[..i], accepts)
      {
        var json := BuildEvent(messages[i], clock(i));
        Delivery.OneMoreText(Cfg(), old(View()), texts, accepts, i);
        Submit(json, accepts(i));
      }
      assert texts[..|texts|] == texts;
    }

    method SubmitRenames(renames: seq<Rename>, clock: nat -> Timestamp, accepts: nat -> bool)
      requires LogReady() && Delivery.AllSmall(Cfg(), RenameTexts(renames, clock, hostname))
      modifies this, log, log.crc, log.crc.table
      ensures LogReady()
      ensures View() == Delivery.SubmitAll(Cfg(), old(View()), RenameTexts(renames, clock, hostname), accepts)
    {
      ghost var texts := RenameTexts(renames, clock, hostname);
      for i := 0 to |renames|
        invariant LogReady()
        invariant View() == Delivery.SubmitAll(Cfg(), old(View()), texts[..i], accepts)
      {
        var json := BuildRename(clock(i), renames[i].oldPath, renames[i].newPath, hostname);
        assert json == texts[i];
        Delivery.OneMoreText(Cfg(), old(View()), texts, accepts, i);
        Submit(json, accepts(i));
      }
      assert texts[..|texts|] == texts;
    }

    /** One event: what it makes the debouncer send, or the rename it completes, is handed over at once. */
    method Handle(evt: FileEvent, now: Time, clock: nat -> Timestamp, accepts: nat -> bool)
      requires EventsValid() && LogReady() && InBuffer(evt)
      modifies this, ctx, debouncer, log, log.crc, log.crc.table
      ensures EventsValid() && LogReady() && ctx.events == old(ctx.events) + [RawOf(evt)]
      ensures old(debouncer.sent) <= debouncer.sent && old(ctx.renames) <= ctx.renames
      ensures var messages := debouncer.sent[|old(debouncer.sent)|..];
              var renames := ctx.renames[|old(ctx.renames)|..];
              && Delivery.AllSmall(Cfg(), EventTexts(messages, clock, hostname))
              && Delivery.AllSmall(Cfg(), RenameTexts(renames, clock, hostname))
              && View() == Delivery.SubmitAll(Cfg(),
                             Delivery.SubmitAll(Cfg(), old(View()), EventTexts(messages, clock, hostname), accepts),
                             RenameTexts(renames, clock, hostname), accepts)
    {
      var m, r := |debouncer.sent|, |ctx.renames|;
      BufferedPathFits(evt);
      ctx.HandleEvent(evt, now);
      MessagesFit(m, clock);
      RenameMessagesFit(ctx.watchPrefix, ctx.events, r, clock, hostname);
      SubmitEvents(debouncer.sent[m..], clock, accepts);
      SubmitRenames(ctx.renames[r..], clock, accepts);
    }

    lemma MessagesFit(from: nat, clock: nat -> Timestamp)
      requires EventsValid() && from <= |debouncer.sent|
      ensures forall j :: j in EventTexts(debouncer.sent[from..], clock, hostname) ==> |j| <= LARGEST
    {
      EventMessagesFit(debouncer.cfg, debouncer.calls, debouncer.entries, debouncer.sent, ctx.watchPrefix, ctx.events,
                       from, clock, hostname);
    }

    method Tick(now: Time, clock: nat -> Timestamp, accepts: nat -> bool)
      requires EventsValid() && LogReady()
      modifies this, debouncer, log, log.crc, log.crc.table
      ensures EventsValid() && LogReady() && old(debouncer.sent) <= debouncer.sent
      ensures debouncer.calls == old(debouncer.calls) + [TickCall(now)]
      ensures var texts := EventTexts(debouncer.sent[|old(debouncer.sent)|..], clock, hostname);
              Delivery.AllSmall(Cfg(), texts) && View() == Delivery.SubmitAll(Cfg(), old(View()), texts, accepts)
    {
      OneMoreEventCall(debouncer.calls, TickCall(now));
      var m := |debouncer.sent|;
      debouncer.Tick(now);
      MessagesFit(m, clock);
      SubmitEvents(debouncer.sent[m..], clock, accepts);
    }

    // ----- The write-ahead log -----

    /** Empties the log if anything can be read from it and sends that again; at startup, and then periodically. */
    method RetryLog(accepts: nat -> bool)
      requires LogReady() && retrying == []
      modifies this, log, log.crc, log.crc.table
      ensures LogReady() && View() == Delivery.Retry(Cfg(), old(View()), accepts)
    {
      var records := log.ReadAll();
      if records == [] {
        return;
      }
      log.Truncate(true, true);
      retrying := records;
      log.fmt.ParseLogIsIntactPrefix(old(log.file));
      ghost var taken := View();
      for i := 0 to |records|
        invariant LogReady() && retrying == records[i..]
        invariant View() == Delivery.ResendFirst(Cfg(), taken, accepts, i)
      {
        retrying := retrying[1..];
        var queued := Send(records[i], accepts(i));
      }
    }

    // ----- Shutting down -----

    /** Delivery reports as they come in, at most so many, each one way or the other. */
    method ServeReports(most: nat)
      requires LogReady() && Delivery.Fits(Cfg(), View())
      modifies this, log, log.crc, log.crc.table
      ensures LogReady() && Delivery.Fits(Cfg(), View()) && Delivery.Reaches(Cfg(), old(View()), View())
      ensures |old(inFlight)| <= most ==> inFlight == multiset{}
      ensures submitted == old(submitted) && retrying == old(retrying)
    {
      var served := 0;
      Delivery.ReachesItself(Cfg(), View());
      while inFlight != multiset{} && served < most
        invariant LogReady() && Delivery.Fits(Cfg(), View()) && Delivery.Reaches(Cfg(), old(View()), View())
        invariant submitted == old(submitted) && retrying == old(retrying)
        invariant served <= most && |inFlight| == |old(inFlight)| - served
        decreases most - served
      {
        var json :| json in inFlight;
        var ok: bool := *;
        ServeReport(json, ok, old(View()));
        served := served + 1;
      }
    }

    method ServeReport(json: Json, ok: bool, ghost start: Delivery.State)
      requires LogReady() && json in inFlight && Delivery.Fits(Cfg(), View()) && Delivery.Reaches(Cfg(), start, View())
      modifies this, log, log.crc, log.crc.table
      ensures LogReady() && Delivery.Fits(Cfg(), View()) && Delivery.Reaches(Cfg(), start, View())
      ensures submitted == old(submitted) && retrying == old(retrying)
      ensures inFlight == old(inFlight) - multiset{json}
    {
      Report(json, ok);
      Delivery.ReportReaches(Cfg(), start, old(View()), json, ok);
    }

    /** Waits until everything in flight has been reported on. */
    method Settle()
      requires LogReady() && Delivery.Fits(Cfg(), View())
      modifies this, log, log.crc, log.crc.table
      ensures LogReady() && inFlight == multiset{} && Delivery.Reaches(Cfg(), old(View()), View())
      ensures submitted == old(submitted) && retrying == old(retrying)
    {
      ServeReports(|inFlight|);
    }

    /** Everything pending in the debouncer is handed over, and its table is empty. */
    method FlushPending(now: Time, clock: nat -> Timestamp, accepts: nat -> bool)
      requires EventsValid() && LogReady()
      modifies this, debouncer, log, log.crc, log.crc.table
      ensures EventsValid() && LogReady() && old(debouncer.sent) <= debouncer.sent && debouncer.entries == map[]
      ensures var texts := EventTexts(debouncer.sent[|old(debouncer.sent)|..], clock, hostname);
              Delivery.AllSmall(Cfg(), texts) && View() == Delivery.SubmitAll(Cfg(), old(View()), texts, accepts)
    {
      OneMoreEventCall(debouncer.calls, FlushCall(now));
      var m := |debouncer.sent|;
      var flushed := debouncer.FlushAll(now);
      MessagesFit(m, clock);
      SubmitEvents(debouncer.sent[m..], clock, accepts);
    }

    /** Nothing is left pending or in flight: all that was ever submitted is delivered, logged or dropped at the limit. */
    method ShutDown(now: Time, clock: nat -> Timestamp, accepts: nat -> bool)
      requires EventsValid() && LogReady() && retrying == [] && Delivery.Fits(Cfg(), View())
      modifies this, debouncer, log, log.crc, log.crc.table
      ensures LogReady() && debouncer.entries == map[] && old(debouncer.sent) <= debouncer.sent
      ensures submitted == old(submitted)
                + multiset(EventTexts(debouncer.sent[|old(debouncer.sent)|..], clock, hostname))
      ensures inFlight == multiset{} && (old(Accounted()) ==> Delivery.Accounts(Cfg(), View()))
    {
      FlushPending(now, clock, accepts);
      ghost var texts := EventTexts(debouncer.sent[|old(debouncer.sent)|..], clock, hostname);
      Delivery.SubmitAllKeeps(Cfg(), old(View()), texts, accepts);
      ghost var flushed := View();
      Settle();
      if old(Accounted()) {
        Delivery.ReachedConserves(Cfg(), flushed, View());
        Delivery.SettledAccounts(Cfg(), View());
      }
    }

    // ----- The main loop -----

    /** Between two steps of the loop. */
    ghost predicate Ready()
      reads this, ctx, ctx.debouncer, log, log.crc, log.crc.table
    {
      EventsValid() && LogReady() && retrying == [] && Delivery.Fits(Cfg(), View())
    }

    method HandleOne(evt: FileEvent, now: Time, clock: nat -> Timestamp, accepts: nat -> bool)
      requires Ready() && InBuffer(evt)
      modifies this, ctx, debouncer, log, log.crc, log.crc.table
      ensures Ready() && ctx.events == old(ctx.events) + [RawOf(evt)]
      ensures Delivery.Reaches(Cfg(), old(View()), View())
    {
      ghost var before := View();
      Handle(evt, now, clock, accepts);
      ghost var messages := EventTexts(debouncer.sent[|old(debouncer.sent)|..], clock, hostname);
      ghost var renames := RenameTexts(ctx.renames[|old(ctx.renames)|..], clock, hostname);
      Delivery.TwoSubmitAllReach(Cfg(), before, messages, renames, accepts);
    }

    /** The events of one poll of the ring buffer, in order. */
    method HandleAll(events: seq<FileEvent>, times: nat -> Time, clock: nat -> nat -> Timestamp,
                     accepts: nat -> nat -> bool)
      requires Ready() && AllInBuffer(events)
      modifies this, ctx, debouncer, log, log.crc, log.crc.table
      ensures Ready() && ctx.events == old(ctx.events) + RawEvents(events)
      ensures Delivery.Reaches(Cfg(), old(View()), View())
    {
      ghost var start, raws := View(), RawEvents(events);
      Delivery.ReachesItself(Cfg(), start);
      for i := 0 to |events|
        invariant Ready() && ctx.events == old(ctx.events) + raws[..i]
        invariant Delivery.Reaches(Cfg(), start, View())
      {
        RawEventAt(events, i);
        OneMoreTaken(raws, i, old(ctx.events), RawOf(events[i]));
        ghost var before := View();
        HandleOne(events[i], times(i), clock(i), accepts(i));
        Delivery.ReachesOn(Cfg(), start, before, View());
      }
    }

    method TickOnce(now: Time, clock: nat -> Timestamp, accepts: nat -> bool)
      requires Ready()
      modifies this, debouncer, log, log.crc, log.crc.table
      ensures Ready() && Delivery.Reaches(Cfg(), old(View()), View())
    {
      ghost var before := View();
      Tick(now, clock, accepts);
      ghost var texts := EventTexts(debouncer.sent[|old(debouncer.sent)|..], clock, hostname);
      Delivery.TwoSubmitAllReach(Cfg(), before, texts, [], accepts);
    }

    method RetryOnce(accepts: nat -> bool)
      requires Ready()
      modifies this, log, log.crc, log.crc.table
      ensures Ready() && View() == Delivery.Retry(Cfg(), old(View()), accepts)
      ensures Delivery.Reaches(Cfg(), old(View()), View())
    {
      ghost var before := View();
      RetryLog(accepts);
      Delivery.RetryReaches(Cfg(), before, accepts);
    }

    /** Poll, tick, reports, and a retry of the log if one is due. */
    method TakeTurn(turn: Turn)
      requires Ready() && AllInBuffer(turn.events)
      modifies this, ctx, debouncer, log, log.crc, log.crc.table
      ensures Ready() && ctx.events == old(ctx.events) + RawEvents(turn.events)
      ensures Delivery.Reaches(Cfg(), old(View()), View())
    {
      ghost var start := View();
      HandleAll(turn.events, turn.times, turn.clock, turn.accepts);
      ghost var handled := View();
      var n := |turn.events|;
      TickOnce(turn.times(n), turn.clock(n), turn.accepts(n));
      Delivery.ReachesOn(Cfg(), start, handled, View());
      ServeAndRetry(turn, start);
    }

    method ServeAndRetry(turn: Turn, ghost start: Delivery.State)
      requires Ready() && Delivery.Reaches(Cfg(), start, View())
      modifies this, log, log.crc, log.crc.table
      ensures Ready() && Delivery.Reaches(Cfg(), start, View())
    {
      ghost var ticked := View();
      ServeReports(turn.reports);
      Delivery.ReachesOn(Cfg(), start, ticked, View());
      if turn.retryDue {
        ghost var served := View();
        RetryOnce(turn.accepts(|turn.events| + 1));
        Delivery.ReachesOn(Cfg(), start, served, View());
        ghost var retried := View();
        ServeReports(turn.retryReports);
        Delivery.ReachesOn(Cfg(), start, retried, View());
      }
    }

    method Loop(turns: seq<Turn>)
      requires Ready() && forall t :: t in turns ==> AllInBuffer(t.events)
      modifies this, ctx, debouncer, log, log.crc, log.crc.table
      ensures Ready() && Delivery.Reaches(Cfg(), old(View()), View())
    {
      Delivery.ReachesItself(Cfg(), View());
      for i := 0 to |turns|
        invariant Ready() && Delivery.Reaches(Cfg(), old(View()), View())
      {
        ghost var before := View();
        TakeTurn(turns[i]);
        Delivery.ReachesOn(Cfg(), old(View()), before, View());
      }
    }

    /**
     The whole life of the process: replay, any number of turns, graceful shutdown. If the log was empty or readable at
     the start, everything ever submitted is in the end delivered, in the log, or dropped at the limit. With the record
     limit for `largest`, every log is small enough.
     */
    method LiveThrough(ghost contents: ByteString, replayAccepts: nat -> bool, turns: seq<Turn>, end: Time,
                       clock: nat -> Timestamp, accepts: nat -> bool)
      requires Ready() && Delivery.AllSmall(Cfg(), log.fmt.ParseLog(contents))
      requires View() == Delivery.Fresh(Cfg(), contents)
      requires forall t :: t in turns ==> AllInBuffer(t.events)
      modifies this, ctx, debouncer, log, log.crc, log.crc.table
      ensures LogReady() && debouncer.entries == map[] && inFlight == multiset{}
      ensures contents == [] || log.fmt.ParseLog(contents) != [] ==> Delivery.Accounts(Cfg(), View())
    {
      RetryOnce(replayAccepts);
      ghost var replayed := View();
      Loop(turns);
      AccountedAfter(contents, replayAccepts, replayed);
      ShutDown(end, clock, accepts);
    }

    lemma AccountedAfter(contents: ByteString, accepts: nat -> bool, replayed: Delivery.State)
      requires LogReady() && Delivery.AllSmall(Cfg(), log.fmt.ParseLog(contents))
      requires replayed == Delivery.Retry(Cfg(), Delivery.Fresh(Cfg(), contents), accepts)
      requires Delivery.Reaches(Cfg(), replayed, View())
      ensures contents == [] || log.fmt.ParseLog(contents) != [] ==> Accounted()
    {
      if contents == [] || log.fmt.ParseLog(contents) != [] {
        Delivery.StartupConserves(Cfg(), contents, accepts);
        Delivery.ReachedConserves(Cfg(), replayed, View());
      }
    }
  }
}
