/**
 The userspace event path: renames are paired up from the event stream, everything else below the watch prefix goes to
 the debouncer.
 */
module Events {
  import opened Bytes
  import opened Probe
  import opened Debounce

  /** An event once its path is assembled. */
  datatype Raw = Raw(kind: EventType, path: Path)

  datatype Rename = Rename(oldPath: Path, newPath: Path)

  function RawOf(evt: FileEvent): Raw
    requires evt.depth <= |evt.names|
  {
    Raw(evt.kind, if evt.depth == 0 then [SLASH] else PathOf(evt.names[..evt.depth]))
  }

  predicate AllInBuffer(ring: seq<FileEvent>) {
    forall evt :: evt in ring ==> InBuffer(evt)
  }

  function RawEvents(ring: seq<FileEvent>): (raws: seq<Raw>)
    requires AllInBuffer(ring)
    ensures |raws| == |ring|
  {
    seq(|ring|, k requires 0 <= k < |ring| =>
      assert ring[k] in ring;
      RawOf(ring[k]))
  }

  lemma RawEventAt(ring: seq<FileEvent>, i: nat)
    requires AllInBuffer(ring) && i < |ring|
    ensures InBuffer(ring[i]) && RawEvents(ring)[i] == RawOf(ring[i])
  {
    assert ring[i] in ring;
  }

  function DebounceKind(kind: EventType): Kind {
    if kind == DeleteEvent then Delete else Mtime
  }

  /** Both halves next to each other, and one of them below the watch prefix. */
  predicate PairAt(prefix: Path, events: seq<Raw>, i: nat)
    requires 0 < i < |events|
  {
    && events[i - 1].kind == RenameFrom && events[i].kind == RenameTo
    && (prefix <= events[i - 1].path || prefix <= events[i].path)
  }

  /** The adjacent pairs of a stream, in order. */
  function Pairs(prefix: Path, events: seq<Raw>): seq<Rename> {
    if |events| < 2 then []
    else
      var n := |events| - 1;
      Pairs(prefix, events[..n])
      + (if PairAt(prefix, events, n) then [Rename(events[n - 1].path, events[n].path)] else [])
  }

  datatype Forward = Forward(path: Path, kind: Kind)

  /** What of a stream concerns the debouncer, in order. */
  function Forwarded(prefix: Path, events: seq<Raw>): seq<Forward> {
    if events == [] then []
    else
      var n := |events| - 1;
      var last := events[n];
      Forwarded(prefix, events[..n])
      + (if (last.kind == DeleteEvent || last.kind == MtimeEvent) && prefix <= last.path
         then [Forward(last.path, DebounceKind(last.kind))] else [])
  }

  /** The events among the debouncer's calls. */
  function EventCalls(calls: seq<Call>): seq<Forward> {
    if calls == [] then []
    else
      var n := |calls| - 1;
      EventCalls(calls[..n]) + (if calls[n].EventCall? then [Forward(calls[n].path, calls[n].kind)] else [])
  }

  predicate EndsInFrom(events: seq<Raw>) {
    events != [] && events[|events| - 1].kind == RenameFrom
  }

  lemma OneMoreEvent(prefix: Path, events: seq<Raw>, e: Raw)
    ensures Pairs(prefix, events + [e]) == Pairs(prefix, events)
              + (if EndsInFrom(events) && e.kind == RenameTo
                    && (prefix <= events[|events| - 1].path || prefix <= e.path)
                 then [Rename(events[|events| - 1].path, e.path)] else [])
    ensures Forwarded(prefix, events + [e]) == Forwarded(prefix, events)
              + (if (e.kind == DeleteEvent || e.kind == MtimeEvent) && prefix <= e.path
                 then [Forward(e.path, DebounceKind(e.kind))] else [])
  {
    assert (events + [e])[..|events|] == events;
  }

  lemma OneMoreEventCall(calls: seq<Call>, call: Call)
    ensures EventCalls(calls + [call])
         == EventCalls(calls) + if call.EventCall? then [Forward(call.path, call.kind)] else []
  {
    assert (calls + [call])[..|calls|] == calls;
  }

  lemma {:induction false} CallIsEvent(calls: seq<Call>, j: nat)
    requires j < |calls| && calls[j].EventCall?
    ensures Forward(calls[j].path, calls[j].kind) in EventCalls(calls)
    decreases |calls|
  {
    var n := |calls| - 1;
    if j < n {
      CallIsEvent(calls[..n], j);
    }
  }

  lemma {:induction false} ForwardedIsEvent(prefix: Path, events: seq<Raw>, f: Forward)
    requires f in Forwarded(prefix, events)
    ensures prefix <= f.path && exists i :: 0 <= i < |events| && events[i].path == f.path
    decreases |events|
  {
    var n := |events| - 1;
    if f in Forwarded(prefix, events[..n]) {
      ForwardedIsEvent(prefix, events[..n], f);
      var i :| 0 <= i < n && events[..n][i].path == f.path;
      assert events[i].path == f.path;
    } else {
      assert events[n].path == f.path;
    }
  }

  /** Exactly the writes below the prefix reach the debouncer as writes, and exactly the deletes as deletes. */
  lemma {:induction false} ForwardedIff(prefix: Path, events: seq<Raw>, p: Path)
    ensures Forward(p, Mtime) in Forwarded(prefix, events) <==> prefix <= p && Raw(MtimeEvent, p) in events
    ensures Forward(p, Delete) in Forwarded(prefix, events) <==> prefix <= p && Raw(DeleteEvent, p) in events
  {
    if events != [] {
      var n := |events| - 1;
      assert events == events[..n] + [events[n]];
      ForwardedIff(prefix, events[..n], p);
    }
  }

  /** A debounced message is for a path below the watch prefix that occurred in the event stream. */
  lemma MessageHasSource(cfg: Config, calls: seq<Call>, entries: map<Path, Entry>, sent: seq<Message>,
                         prefix: Path, events: seq<Raw>, i: nat)
    requires Refines(cfg, calls, entries, sent) && EventCalls(calls) == Forwarded(prefix, events) && i < |sent|
    ensures prefix <= sent[i].path && exists k :: 0 <= k < |events| && events[k].path == sent[i].path
  {
    MessageHadEvent(cfg, calls, entries, sent, i);
    var j :| 0 <= j < |calls| && calls[j].EventCall? && calls[j].path == sent[i].path;
    CallIsEvent(calls, j);
    ForwardedIsEvent(prefix, events, Forward(calls[j].path, calls[j].kind));
  }

  predicate IsDeleteOf(call: Call, p: Path) {
    call.EventCall? && call.path == p && call.kind == Delete
  }

  lemma OneMoreOutput(cfg: Config, trace: seq<Step>, call: Call, p: Path)
    ensures multiset(Outputs(cfg, trace + StepOf(call, p)))[Delete]
         == multiset(Outputs(cfg, trace))[Delete] + if IsDeleteOf(call, p) then 1 else 0
  {
    if StepOf(call, p) == [] {
      assert trace + [] == trace;
    } else {
      OneMoreStep(cfg, trace, StepOf(call, p)[0]);
    }
  }

  lemma OneMoreForwarded(calls: seq<Call>, call: Call, p: Path)
    ensures multiset(EventCalls(calls + [call]))[Forward(p, Delete)]
         == multiset(EventCalls(calls))[Forward(p, Delete)] + if IsDeleteOf(call, p) then 1 else 0
  {
    OneMoreEventCall(calls, call);
  }

  lemma {:induction false} DeletesOutput(cfg: Config, calls: seq<Call>, p: Path)
    ensures multiset(Outputs(cfg, Project(calls, p)))[Delete] == multiset(EventCalls(calls))[Forward(p, Delete)]
  {
    if calls != [] {
      var n := |calls| - 1;
      DeletesOutput(cfg, calls[..n], p);
      OneMoreOutput(cfg, Project(calls[..n], p), calls[n], p);
      OneMoreForwarded(calls[..n], calls[n], p);
      assert calls == calls[..n] + [calls[n]];
    }
  }

  /** Each write and each delete below the prefix reaches the debouncer once, as what it is. */
  lemma {:induction false} EachForwarded(prefix: Path, events: seq<Raw>, p: Path)
    ensures multiset(Forwarded(prefix, events))[Forward(p, Delete)]
         == if prefix <= p then multiset(events)[Raw(DeleteEvent, p)] else 0
    ensures multiset(Forwarded(prefix, events))[Forward(p, Mtime)]
         == if prefix <= p then multiset(events)[Raw(MtimeEvent, p)] else 0
  {
    if events != [] {
      var n := |events| - 1;
      assert events == events[..n] + [events[n]];
      EachForwarded(prefix, events[..n], p);
    }
  }

  /** For each delete below the watch prefix exactly one message is sent that says so, and for no other path. */
  lemma DeletesReported(cfg: Config, calls: seq<Call>, entries: map<Path, Entry>, sent: seq<Message>,
                        prefix: Path, events: seq<Raw>, p: Path)
    requires Refines(cfg, calls, entries, sent) && EventCalls(calls) == Forwarded(prefix, events)
    ensures multiset(sent)[Message(p, Delete)] == if prefix <= p then multiset(events)[Raw(DeleteEvent, p)] else 0
  {
    assert MessagesFor(sent, p) == Outputs(cfg, Project(calls, p));
    MessagesCounted(sent, p, Delete);
    DeletesOutput(cfg, calls, p);
    EachForwarded(prefix, events, p);
  }

  /** A message that says a path was written to has such an event below the watch prefix behind it. */
  lemma WriteMessageHasSource(cfg: Config, calls: seq<Call>, entries: map<Path, Entry>, sent: seq<Message>,
                              prefix: Path, events: seq<Raw>, p: Path)
    requires Refines(cfg, calls, entries, sent) && EventCalls(calls) == Forwarded(prefix, events)
    requires Message(p, Mtime) in sent
    ensures prefix <= p && Raw(MtimeEvent, p) in events
  {
    WriteMessageHadWrite(cfg, calls, entries, sent, p);
    var j :| 0 <= j < |calls| && calls[j].EventCall? && calls[j].path == p && calls[j].kind == Mtime;
    CallIsEvent(calls, j);
    ForwardedIff(prefix, events, p);
  }

  /** Both paths of a rename occurred in the event stream, and one of them is below the watch prefix. */
  lemma {:induction false} RenameHasSource(prefix: Path, events: seq<Raw>, r: Rename)
    requires r in Pairs(prefix, events)
    ensures prefix <= r.oldPath || prefix <= r.newPath
    ensures exists i :: 0 < i < |events| && events[i - 1] == Raw(RenameFrom, r.oldPath) && events[i] == Raw(RenameTo, r.newPath)
    decreases |events|
  {
    var n := |events| - 1;
    if r in Pairs(prefix, events[..n]) {
      RenameHasSource(prefix, events[..n], r);
      var i :| 0 < i < n && events[..n][i - 1] == Raw(RenameFrom, r.oldPath) && events[..n][i] == Raw(RenameTo, r.newPath);
      assert events[i - 1] == Raw(RenameFrom, r.oldPath) && events[i] == Raw(RenameTo, r.newPath);
    } else {
      assert PairAt(prefix, events, n);
      assert events[n - 1] == Raw(RenameFrom, r.oldPath) && events[n] == Raw(RenameTo, r.newPath);
    }
  }

  /** A rename is reported exactly if its halves are adjacent in the stream and one of its paths is below the prefix. */
  lemma {:induction false} RenameReportedIff(prefix: Path, events: seq<Raw>, r: Rename)
    ensures r in Pairs(prefix, events) <==>
              && (prefix <= r.oldPath || prefix <= r.newPath)
              && exists i :: 0 < i < |events| && HalvesAt(events, r, i)
    decreases |events|
  {
    if |events| >= 2 {
      var n := |events| - 1;
      var init := events[..n];
      RenameReportedIff(prefix, init, r);
      if i :| 0 < i < n && HalvesAt(init, r, i) {
        assert HalvesAt(events, r, i);
      }
      if i :| 0 < i < |events| && HalvesAt(events, r, i) {
        if i < n {
          assert HalvesAt(init, r, i);
        }
      }
      if r in Pairs(prefix, events) && r !in Pairs(prefix, init) {
        assert HalvesAt(events, r, n);
      }
    }
  }

  /** Where in the stream the rename has its two halves next to each other. */
  function PlacesOf(events: seq<Raw>, r: Rename): set<nat> {
    set i: nat | 0 < i < |events| && HalvesAt(events, r, i)
  }

  /** A rename is reported as often as its halves are adjacent. */
  lemma {:induction false} RenamesCounted(prefix: Path, events: seq<Raw>, r: Rename)
    requires prefix <= r.oldPath || prefix <= r.newPath
    ensures multiset(Pairs(prefix, events))[r] == |PlacesOf(events, r)|
    decreases |events|
  {
    if |events| < 2 {
      assert PlacesOf(events, r) == {};
    } else {
      var n := |events| - 1;
      var init := events[..n];
      RenamesCounted(prefix, init, r);
      OneMorePlace(events, r);
      assert PairAt(prefix, events, n) && Rename(events[n - 1].path, events[n].path) == r <==> HalvesAt(events, r, n);
    }
  }

  lemma OneMorePlace(events: seq<Raw>, r: Rename)
    requires |events| >= 2
    ensures var n := |events| - 1;
            |PlacesOf(events, r)| == |PlacesOf(events[..n], r)| + if HalvesAt(events, r, n) then 1 else 0
  {
    var n := |events| - 1;
    var init := events[..n];
    assert forall i :: 0 < i < n ==> HalvesAt(init, r, i) == HalvesAt(events, r, i);
    assert PlacesOf(events, r) == PlacesOf(init, r) + if HalvesAt(events, r, n) then {n} else {};
  }

  predicate HalvesAt(events: seq<Raw>, r: Rename, i: nat)
    requires 0 < i < |events|
  {
    events[i - 1] == Raw(RenameFrom, r.oldPath) && events[i] == Raw(RenameTo, r.newPath)
  }

  /** The handler's context, carried from one event to the next. */
  class EventCtx {
    const debouncer: Debouncer
    const watchPrefix: Path
    var pendingRenameFrom: Path
    var hasPendingRename: bool
    /** The rename callback's invocations, in order. */
    var renames: seq<Rename>
    ghost var events: seq<Raw>

    /**
     Over the whole stream so far: the renames are exactly its adjacent pairs, the debouncer got exactly the deletes and
     writes below the prefix, and a half is pending exactly when it came last.
     */
    ghost predicate Valid()
      reads this, debouncer
    {
      && debouncer.Valid()
      && renames == Pairs(watchPrefix, events)
      && EventCalls(debouncer.calls) == Forwarded(watchPrefix, events)
      && (hasPendingRename <==> EndsInFrom(events))
      && (hasPendingRename ==> pendingRenameFrom == events[|events| - 1].path)
    }

    constructor (debouncer: Debouncer, watchPrefix: Path)
      requires debouncer.Valid() && debouncer.calls == []
      ensures Valid() && events == [] && this.debouncer == debouncer && this.watchPrefix == watchPrefix
    {
      this.debouncer := debouncer;
      this.watchPrefix := watchPrefix;
      pendingRenameFrom := [];
      hasPendingRename := false;
      renames := [];
      events := [];
    }

    method HandleEvent(evt: FileEvent, now: Time)
      requires Valid() && evt.depth <= |evt.names|
      modifies this, debouncer
      ensures Valid() && events == old(events) + [RawOf(evt)]
      ensures old(renames) <= renames && old(debouncer.sent) <= debouncer.sent
    {
      var path := BuildPath(evt);
      OneMoreEvent(watchPrefix, events, RawOf(evt));
      events := events + [RawOf(evt)];

      if evt.kind == RenameFrom {
        pendingRenameFrom := path;
        hasPendingRename := true;
        return;
      }
      if evt.kind == RenameTo {
        if hasPendingRename {
          var oldMatch := watchPrefix <= pendingRenameFrom;
          var newMatch := watchPrefix <= path;
          if oldMatch || newMatch {
            renames := renames + [Rename(pendingRenameFrom, path)];
          }
          hasPendingRename := false;
        }
        return;
      }
      if hasPendingRename {
        hasPendingRename := false;
      }
      if !(watchPrefix <= path) {
        return;
      }
      OneMoreEventCall(debouncer.calls, EventCall(path, DebounceKind(evt.kind), now));
      debouncer.OnEvent(path, DebounceKind(evt.kind), now);
    }
  }
}
