/**
 The agent's debouncer: a table of pending paths updated in place. Paths do not interact, so what the table does to one
 path is a two-state timed automaton, and the promises of the debouncer are facts about every run of that automaton.
 */
module Debounce {
  import opened Bytes

  /** Nanoseconds of the steady clock. */
  type Time = int

  datatype Kind = Delete | Mtime

  datatype Config = Config(quiet: Time, maxWait: Time)

  // ----- One path -----

  datatype Slot = Idle | Pending(firstSeen: Time, lastSeen: Time)

  datatype Input = Event(kind: Kind) | Tick | FlushAll

  datatype Step = Step(input: Input, at: Time)

  /** The next slot, and whether a message for the path is sent. */
  function Next(cfg: Config, slot: Slot, step: Step): (Slot, bool) {
    match step.input
    case Event(Delete) => (Idle, true)
    case Event(Mtime) =>
      if slot.Idle? then (Pending(step.at, step.at), false)
      else if step.at - slot.firstSeen >= cfg.maxWait then (Idle, true)
      else (slot.(lastSeen := step.at), false)
    case Tick =>
      if slot.Pending? && step.at - slot.lastSeen >= cfg.quiet then (Idle, true) else (slot, false)
    case FlushAll => (Idle, slot.Pending?)
  }

  function MessageKind(input: Input): Kind {
    if input.Event? then input.kind else Mtime
  }

  function After(cfg: Config, trace: seq<Step>): Slot {
    if trace == [] then Idle
    else Next(cfg, After(cfg, trace[..|trace| - 1]), trace[|trace| - 1]).0
  }

  predicate SendsAt(cfg: Config, trace: seq<Step>, i: nat)
    requires i < |trace|
  {
    Next(cfg, After(cfg, trace[..i]), trace[i]).1
  }

  /** The messages sent for the path, in order. */
  function Outputs(cfg: Config, trace: seq<Step>): seq<Kind> {
    if trace == [] then []
    else
      var n := |trace| - 1;
      Outputs(cfg, trace[..n]) + (if SendsAt(cfg, trace, n) then [MessageKind(trace[n].input)] else [])
  }

  /** An mtime message that is due: sent by a tick, or by an event once the maximum wait is over. */
  predicate DueAt(cfg: Config, trace: seq<Step>, i: nat)
    requires i < |trace|
  {
    SendsAt(cfg, trace, i) && (trace[i].input == Tick || trace[i].input == Event(Mtime))
  }

  /** Everything known about the path is settled here: a due message, a delete or a flush. */
  predicate SettlesAt(cfg: Config, trace: seq<Step>, i: nat)
    requires i < |trace|
  {
    DueAt(cfg, trace, i) || trace[i].input == Event(Delete) || trace[i].input == FlushAll
  }

  ghost predicate Monotone(trace: seq<Step>) {
    forall i, j :: 0 <= i <= j < |trace| ==> trace[i].at <= trace[j].at
  }

  lemma AfterStep(cfg: Config, trace: seq<Step>, i: nat)
    requires i < |trace|
    ensures After(cfg, trace[..i + 1]) == Next(cfg, After(cfg, trace[..i]), trace[i]).0
  {
    assert trace[..i + 1][..i] == trace[..i];
  }

  lemma SettledIsIdle(cfg: Config, trace: seq<Step>, i: nat)
    requires i < |trace| && SettlesAt(cfg, trace, i)
    ensures After(cfg, trace[..i + 1]) == Idle
  {
    AfterStep(cfg, trace, i);
  }

  /** While a path is pending, the wait measured from its first event never reaches the maximum. */
  lemma {:induction false} WaitBounded(cfg: Config, trace: seq<Step>)
    requires Monotone(trace)
    ensures After(cfg, trace).Pending? ==>
              var slot := After(cfg, trace);
              && trace != []
              && slot.firstSeen <= slot.lastSeen <= trace[|trace| - 1].at
              && (slot.lastSeen == slot.firstSeen || slot.lastSeen - slot.firstSeen < cfg.maxWait)
  {
    if trace != [] {
      var n := |trace| - 1;
      assert trace[..n + 1] == trace;
      AfterStep(cfg, trace, n);
      WaitBounded(cfg, trace[..n]);
    }
  }

  /** A pending path goes back to one mtime event, since when nothing settled it. */
  lemma {:induction false} PendingSince(cfg: Config, trace: seq<Step>) returns (c: nat)
    requires After(cfg, trace).Pending?
    ensures c < |trace| && trace[c] == Step(Event(Mtime), After(cfg, trace).firstSeen)
    ensures After(cfg, trace[..c]) == Idle
    ensures forall k :: c < k <= |trace| ==>
              After(cfg, trace[..k]).Pending? && After(cfg, trace[..k]).firstSeen == After(cfg, trace).firstSeen
  {
    var n := |trace| - 1;
    var before := trace[..n];
    assert trace[..n + 1] == trace;
    AfterStep(cfg, trace, n);
    if After(cfg, before).Idle? {
      c := n;
    } else {
      c := PendingSince(cfg, before);
      assert before[..c] == trace[..c];
      forall k | c < k <= |trace|
        ensures After(cfg, trace[..k]).Pending? && After(cfg, trace[..k]).firstSeen == After(cfg, trace).firstSeen
      {
        assert k <= n ==> before[..k] == trace[..k];
      }
    }
  }

  // ----- What is sent -----

  /** Every delete sends its message at once, as a delete, and nothing else is sent as one. */
  lemma DeleteSent(cfg: Config, trace: seq<Step>, i: nat)
    requires i < |trace|
    ensures trace[i].input == Event(Delete) ==> SendsAt(cfg, trace, i)
    ensures MessageKind(trace[i].input) == Delete <==> trace[i].input == Event(Delete)
  {}

  /** A pending path stays pending or is sent; only a write makes a path pending. */
  lemma PendingLeavesByMessage(cfg: Config, trace: seq<Step>, i: nat)
    requires i < |trace|
    ensures After(cfg, trace[..i]).Pending? ==> After(cfg, trace[..i + 1]).Pending? || SendsAt(cfg, trace, i)
    ensures After(cfg, trace[..i]).Idle? && trace[i].input == Event(Mtime) ==> After(cfg, trace[..i + 1]).Pending?
    ensures After(cfg, trace[..i]).Idle? && trace[i].input != Event(Mtime) ==> After(cfg, trace[..i + 1]).Idle?
    ensures After(cfg, trace[..i]).Idle? && trace[i].input != Event(Delete) ==> !SendsAt(cfg, trace, i)
  {
    AfterStep(cfg, trace, i);
  }

  // ----- Promises over every run -----

  /** A due message answers an mtime event that nothing has settled since: a delete or a flush cancels what precedes it. */
  lemma NoSpuriousMessage(cfg: Config, trace: seq<Step>, k: nat) returns (c: nat)
    requires k < |trace| && DueAt(cfg, trace, k)
    ensures c < k && trace[c].input == Event(Mtime)
    ensures forall j :: c <= j < k ==> !SettlesAt(cfg, trace, j)
    ensures After(cfg, trace[..k]).Pending? && trace[c].at == After(cfg, trace[..k]).firstSeen
  {
    c := PendingSince(cfg, trace[..k]);
    assert trace[..k][..c] == trace[..c];
    forall j | c <= j < k ensures !SettlesAt(cfg, trace, j) {
      assert trace[..k][..j + 1] == trace[..j + 1];
      if SettlesAt(cfg, trace, j) {
        SettledIsIdle(cfg, trace, j);
      }
    }
  }

  function Min(a: int, b: int): int { if a < b then a else b }

  /** Two due messages for one path are at least the shorter of the two periods apart. */
  lemma Spacing(cfg: Config, trace: seq<Step>, i: nat, k: nat)
    requires Monotone(trace) && i < k < |trace|
    requires DueAt(cfg, trace, i) && DueAt(cfg, trace, k)
    ensures trace[k].at - trace[i].at >= Min(cfg.quiet, cfg.maxWait)
  {
    var c := NoSpuriousMessage(cfg, trace, k);
    assert SettlesAt(cfg, trace, i);
    assert i < c;
    WaitBounded(cfg, trace[..k]);
  }

  /** From any step on, every instant that lies `gap` before the end of the run is followed by a tick within `gap`. */
  ghost predicate TicksWithin(trace: seq<Step>, gap: Time) {
    forall i: nat, due: Time :: i < |trace| && trace[i].at <= due && due + gap < trace[|trace| - 1].at ==>
      TickAfter(trace, i, due, gap)
  }

  ghost predicate TickAfter(trace: seq<Step>, i: nat, due: Time, gap: Time) {
    exists j: nat :: i < j < |trace| && trace[j].input == Tick && due <= trace[j].at <= due + gap
  }

  /** If nothing settles the path from step i on, it stays pending with the same first event. */
  lemma {:induction false} UnsettledStaysPending(cfg: Config, trace: seq<Step>, i: nat, n: nat)
    requires Monotone(trace) && i < n <= |trace| && trace[i].input == Event(Mtime)
    requires forall j :: i <= j < n ==> !SettlesAt(cfg, trace, j)
    ensures After(cfg, trace[..n]).Pending?
    ensures After(cfg, trace[..n]).firstSeen <= trace[i].at <= After(cfg, trace[..n]).lastSeen
    decreases n
  {
    if n == i + 1 {
      assert !SettlesAt(cfg, trace, i);
      AfterStep(cfg, trace, i);
      LastSeenIsPast(cfg, trace, i);
    } else {
      UnsettledStaysPending(cfg, trace, i, n - 1);
      UnsettledStep(cfg, trace, n - 1);
    }
  }

  lemma LastSeenIsPast(cfg: Config, trace: seq<Step>, k: nat)
    requires Monotone(trace) && k < |trace|
    ensures After(cfg, trace[..k]).Pending? ==>
              After(cfg, trace[..k]).firstSeen <= After(cfg, trace[..k]).lastSeen <= trace[k].at
  {
    WaitBounded(cfg, trace[..k]);
    assert k > 0 ==> trace[..k][k - 1] == trace[k - 1];
  }

  lemma UnsettledStep(cfg: Config, trace: seq<Step>, k: nat)
    requires Monotone(trace) && k < |trace| && After(cfg, trace[..k]).Pending? && !SettlesAt(cfg, trace, k)
    ensures After(cfg, trace[..k + 1]).Pending?
    ensures After(cfg, trace[..k + 1]).firstSeen == After(cfg, trace[..k]).firstSeen
    ensures After(cfg, trace[..k + 1]).lastSeen >= After(cfg, trace[..k]).lastSeen
  {
    AfterStep(cfg, trace, k);
    LastSeenIsPast(cfg, trace, k);
  }

  lemma {:induction false} LastSeenGrows(cfg: Config, trace: seq<Step>, i: nat, m: nat, n: nat)
    requires Monotone(trace) && i < m <= n <= |trace| && trace[i].input == Event(Mtime)
    requires forall j :: i <= j < n ==> !SettlesAt(cfg, trace, j)
    ensures After(cfg, trace[..m]).Pending? && After(cfg, trace[..n]).Pending?
    ensures After(cfg, trace[..m]).lastSeen <= After(cfg, trace[..n]).lastSeen
    decreases n
  {
    UnsettledStaysPending(cfg, trace, i, m);
    if m < n {
      LastSeenGrows(cfg, trace, i, m, n - 1);
      UnsettledStep(cfg, trace, n - 1);
    }
  }

  /** The steps up to an instant. */
  ghost function CountUpTo(trace: seq<Step>, deadline: Time): (n: nat)
    ensures n <= |trace|
    ensures Monotone(trace) ==> forall j :: 0 <= j < |trace| ==> (j < n <==> trace[j].at <= deadline)
  {
    if trace == [] then 0
    else
      var m := |trace| - 1;
      var n := CountUpTo(trace[..m], deadline);
      if trace[m].at <= deadline then
        assert Monotone(trace) ==> Monotone(trace[..m]);
        assert Monotone(trace) ==> forall j :: 0 <= j < m ==> trace[..m][j].at <= deadline;
        m + 1
      else
        assert Monotone(trace) ==> Monotone(trace[..m]);
        n
  }

  /**
   Latency: every mtime event is settled within the maximum wait, the quiet period and one tick gap. The tick does not
   look at the maximum wait, which is why the quiet period and the gap come on top of it.
   */
  lemma Latency(cfg: Config, trace: seq<Step>, i: nat, gap: Time) returns (k: nat)
    requires Monotone(trace) && TicksWithin(trace, gap)
    requires cfg.quiet >= 0 && cfg.maxWait >= 0 && gap >= 0
    requires i < |trace| && trace[i].input == Event(Mtime)
    requires trace[i].at + cfg.maxWait + cfg.quiet + gap < trace[|trace| - 1].at
    ensures i <= k < |trace| && SettlesAt(cfg, trace, k)
    ensures trace[k].at <= trace[i].at + cfg.maxWait + cfg.quiet + gap
  {
    var deadline := trace[i].at + cfg.maxWait + cfg.quiet + gap;
    var n := CountUpTo(trace, deadline);
    if j :| i <= j < n && SettlesAt(cfg, trace, j) {
      k := j;
    } else {
      UnsettledStaysPending(cfg, trace, i, n);
      var slot := After(cfg, trace[..n]);
      WaitBounded(cfg, trace[..n]);
      var due := slot.lastSeen + cfg.quiet;
      assert TickAfter(trace, i, due, gap);
      k :| i < k < |trace| && trace[k].input == Tick && due <= trace[k].at <= due + gap;
      assert k < n;
      LastSeenGrows(cfg, trace, i, k, n);
      assert SettlesAt(cfg, trace, k);
      assert false;
    }
  }

  // ----- When a wait ends -----

  /** Every write from step i up to step k is at least the quiet period before step k. */
  ghost predicate QuietSince(cfg: Config, trace: seq<Step>, i: nat, k: nat)
    requires k < |trace|
  {
    forall j :: i <= j < k && trace[j].input == Event(Mtime) ==> trace[k].at - trace[j].at >= cfg.quiet
  }

  /** What ends a wait that began with the write at step i, told from the inputs alone. */
  ghost predicate EndsWait(cfg: Config, trace: seq<Step>, i: nat, k: nat)
    requires i < k < |trace|
  {
    match trace[k].input
    case Event(Delete) => true
    case FlushAll => true
    case Event(Mtime) => trace[k].at - trace[i].at >= cfg.maxWait
    case Tick => QuietSince(cfg, trace, i, k)
  }

  /** The slot of a wait that began with step i and is still on before step n. */
  ghost predicate StillWaiting(trace: seq<Step>, i: nat, n: nat, slot: Slot)
    requires i < n <= |trace|
  {
    && slot.Pending? && slot.firstSeen == trace[i].at
    && (forall j :: i <= j < n && trace[j].input == Event(Mtime) ==> trace[j].at <= slot.lastSeen)
    && exists j :: i <= j < n && trace[j].input == Event(Mtime) && trace[j].at == slot.lastSeen
  }

  lemma WaitingStep(cfg: Config, trace: seq<Step>, i: nat, n: nat)
    requires Monotone(trace) && i < n < |trace| && StillWaiting(trace, i, n, After(cfg, trace[..n]))
    ensures SettlesAt(cfg, trace, n) <==> EndsWait(cfg, trace, i, n)
    ensures !EndsWait(cfg, trace, i, n) ==> StillWaiting(trace, i, n + 1, After(cfg, trace[..n + 1]))
  {
    AfterStep(cfg, trace, n);
    var slot := After(cfg, trace[..n]);
    var last :| i <= last < n && trace[last].input == Event(Mtime) && trace[last].at == slot.lastSeen;
    if trace[n].input == Tick {
      assert QuietSince(cfg, trace, i, n) <==> trace[n].at - trace[last].at >= cfg.quiet;
    }
    if !EndsWait(cfg, trace, i, n) {
      var latest := if trace[n].input == Event(Mtime) then n else last;
      assert trace[latest].at == After(cfg, trace[..n + 1]).lastSeen;
    }
  }

  lemma {:induction false} WaitsOn(cfg: Config, trace: seq<Step>, i: nat, n: nat)
    requires Monotone(trace) && i < n <= |trace|
    requires trace[i].input == Event(Mtime) && After(cfg, trace[..i]) == Idle
    requires forall k :: i < k < n ==> !EndsWait(cfg, trace, i, k)
    ensures StillWaiting(trace, i, n, After(cfg, trace[..n]))
    decreases n
  {
    if n == i + 1 {
      AfterStep(cfg, trace, i);
      assert trace[i].at == After(cfg, trace[..n]).lastSeen;
    } else {
      WaitsOn(cfg, trace, i, n - 1);
      WaitingStep(cfg, trace, i, n - 1);
    }
  }

  /** The first step that settles the path is the first that ends the wait. */
  lemma {:induction false} SettledWhenWaitEnds(cfg: Config, trace: seq<Step>, i: nat, n: nat)
    requires Monotone(trace) && i < n <= |trace|
    requires trace[i].input == Event(Mtime) && After(cfg, trace[..i]) == Idle
    ensures (exists k :: i < k < n && SettlesAt(cfg, trace, k)) <==> (exists k :: i < k < n && EndsWait(cfg, trace, i, k))
    decreases n
  {
    if n > i + 1 {
      SettledWhenWaitEnds(cfg, trace, i, n - 1);
      if forall k :: i < k < n - 1 ==> !EndsWait(cfg, trace, i, k) {
        WaitsOn(cfg, trace, i, n - 1);
        WaitingStep(cfg, trace, i, n - 1);
      }
    }
  }

  /**
   Exactly when a path is settled by a deadline after the first write of a wait, such as that write's time and the maximum
   wait: by then there is a delete, a flush, a write once the maximum wait is over, or a tick that finds all writes since
   then quiet. A tick that merely finds the maximum wait over is not among them.
   */
  lemma SettledByDeadlineIff(cfg: Config, trace: seq<Step>, i: nat, deadline: Time)
    requires Monotone(trace) && i < |trace| && trace[i].input == Event(Mtime) && After(cfg, trace[..i]) == Idle
    ensures (exists k :: i < k < |trace| && trace[k].at <= deadline && SettlesAt(cfg, trace, k))
       <==> (exists k :: i < k < |trace| && trace[k].at <= deadline && EndsWait(cfg, trace, i, k))
  {
    var n := CountUpTo(trace, deadline);
    if i < n {
      SettledWhenWaitEnds(cfg, trace, i, n);
    }
  }

  /** Two writes three apart, and a tick at every instant. */
  const STEADY_TICKS: seq<Step> :=
    [Step(Event(Mtime), 0), Step(Tick, 1), Step(Tick, 2), Step(Event(Mtime), 3), Step(Tick, 3), Step(Tick, 4),
     Step(Tick, 5), Step(Tick, 6), Step(Tick, 7)]

  lemma SteadyTicks()
    ensures Monotone(STEADY_TICKS) && TicksWithin(STEADY_TICKS, 1)
  {
    var trace := STEADY_TICKS;
    forall i: nat, due: Time | i < |trace| && trace[i].at <= due && due + 1 < trace[|trace| - 1].at
      ensures TickAfter(trace, i, due, 1)
    {
      var j := if due < 2 then due + 1 else due + 2;
      assert i < j < |trace| && trace[j] == Step(Tick, due + 1);
    }
  }

  /**
   So the maximum wait, even with a tick gap on top, bounds nothing: with ticks one apart, a quiet period of three and a
   maximum wait of four, nothing is sent for the first write until six.
   */
  lemma MaxWaitAloneIsNoBound(cfg: Config)
    requires cfg == Config(3, 4)
    ensures Monotone(STEADY_TICKS) && TicksWithin(STEADY_TICKS, 1)
    ensures forall k :: 0 <= k < 7 ==> !SettlesAt(cfg, STEADY_TICKS, k)
    ensures SettlesAt(cfg, STEADY_TICKS, 7) && STEADY_TICKS[7].at == 6 > STEADY_TICKS[0].at + cfg.maxWait + 1
  {
    SteadyTicks();
    var trace := STEADY_TICKS;
    assert trace[..0] == [];
    assert !SettlesAt(cfg, trace, 0);
    forall k | 0 < k < 7 ensures !EndsWait(cfg, trace, 0, k) {
      assert trace[3].input == Event(Mtime) && trace[0].input == Event(Mtime);
    }
    forall k | 0 < k < 7 ensures !SettlesAt(cfg, trace, k) {
      WaitsOn(cfg, trace, 0, k);
      WaitingStep(cfg, trace, 0, k);
    }
    WaitsOn(cfg, trace, 0, 7);
    WaitingStep(cfg, trace, 0, 7);
  }

  // ----- The table -----

  datatype Entry = Entry(firstSeen: Time, lastSeen: Time)

  datatype Message = Message(path: Path, kind: Kind)

  datatype Call = EventCall(path: Path, kind: Kind, now: Time) | TickCall(now: Time) | FlushCall(now: Time)

  /** The calls that concern one path. */
  function StepOf(call: Call, p: Path): seq<Step> {
    match call
    case EventCall(path, kind, now) => if path == p then [Step(Event(kind), now)] else []
    case TickCall(now) => [Step(Tick, now)]
    case FlushCall(now) => [Step(FlushAll, now)]
  }

  function Project(calls: seq<Call>, p: Path): seq<Step> {
    if calls == [] then [] else Project(calls[..|calls| - 1], p) + StepOf(calls[|calls| - 1], p)
  }

  function MessagesFor(sent: seq<Message>, p: Path): seq<Kind> {
    if sent == [] then []
    else
      var n := |sent| - 1;
      MessagesFor(sent[..n], p) + (if sent[n].path == p then [sent[n].kind] else [])
  }

  lemma {:induction false} MessagesForConcat(a: seq<Message>, b: seq<Message>, p: Path)
    ensures MessagesFor(a + b, p) == MessagesFor(a, p) + MessagesFor(b, p)
    decreases |b|
  {
    if b == [] {
      assert a + b == a;
    } else {
      var n := |b| - 1;
      assert (a + b)[..|a| + n] == a + b[..n];
      MessagesForConcat(a, b[..n], p);
    }
  }

  function SlotIn(entries: map<Path, Entry>, p: Path): Slot {
    if p in entries then Pending(entries[p].firstSeen, entries[p].lastSeen) else Idle
  }

  /** For every path, the table and the messages are those of the automaton after the calls that concern the path. */
  ghost predicate Refines(cfg: Config, calls: seq<Call>, entries: map<Path, Entry>, sent: seq<Message>) {
    forall p: Path {:trigger SlotIn(entries, p)} {:trigger MessagesFor(sent, p)} ::
      && SlotIn(entries, p) == After(cfg, Project(calls, p))
      && MessagesFor(sent, p) == Outputs(cfg, Project(calls, p))
  }

  /** The effect of one call on one path. */
  ghost predicate Effect(cfg: Config, slot: Slot, steps: seq<Step>, next: Slot, out: seq<Kind>) {
    if steps == [] then next == slot && out == []
    else
      && next == Next(cfg, slot, steps[0]).0
      && out == if Next(cfg, slot, steps[0]).1 then [MessageKind(steps[0].input)] else []
  }

  lemma RefinesStep(cfg: Config, calls: seq<Call>, call: Call, entries: map<Path, Entry>, sent: seq<Message>,
                    next: map<Path, Entry>, out: seq<Message>)
    requires Refines(cfg, calls, entries, sent)
    requires forall p: Path :: Effect(cfg, SlotIn(entries, p), StepOf(call, p), SlotIn(next, p), MessagesFor(out, p))
    ensures Refines(cfg, calls + [call], next, sent + out)
  {
    forall p: Path
      ensures SlotIn(next, p) == After(cfg, Project(calls + [call], p))
      ensures MessagesFor(sent + out, p) == Outputs(cfg, Project(calls + [call], p))
    {
      assert SlotIn(entries, p) == After(cfg, Project(calls, p));
      assert Effect(cfg, SlotIn(entries, p), StepOf(call, p), SlotIn(next, p), MessagesFor(out, p));
      MessagesForConcat(sent, out, p);
      OneMoreCall(cfg, calls, call, p, SlotIn(next, p), MessagesFor(out, p));
    }
  }

  lemma OneMoreCall(cfg: Config, calls: seq<Call>, call: Call, p: Path, next: Slot, out: seq<Kind>)
    requires Effect(cfg, After(cfg, Project(calls, p)), StepOf(call, p), next, out)
    ensures After(cfg, Project(calls + [call], p)) == next
    ensures Outputs(cfg, Project(calls + [call], p)) == Outputs(cfg, Project(calls, p)) + out
  {
    ProjectConcat(calls, call, p);
    var steps := StepOf(call, p);
    if steps == [] {
      assert Project(calls, p) + [] == Project(calls, p);
    } else {
      OneMoreStep(cfg, Project(calls, p), steps[0]);
      assert steps == [steps[0]];
    }
  }

  lemma ProjectConcat(calls: seq<Call>, call: Call, p: Path)
    ensures Project(calls + [call], p) == Project(calls, p) + StepOf(call, p)
  {
    assert (calls + [call])[..|calls|] == calls;
  }

  lemma OneMoreStep(cfg: Config, trace: seq<Step>, step: Step)
    ensures var next := Next(cfg, After(cfg, trace), step);
            && After(cfg, trace + [step]) == next.0
            && Outputs(cfg, trace + [step]) == Outputs(cfg, trace) + if next.1 then [MessageKind(step.input)] else []
  {
    assert (trace + [step])[..|trace|] == trace;
  }

  lemma OneMessage(m: Message, p: Path)
    ensures MessagesFor([m], p) == if m.path == p then [m.kind] else []
  {
    assert [m][..0] == [];
  }

  /** The effect of an event on every path, given what it does to its own. */
  lemma EventEffect(cfg: Config, call: Call, entries: map<Path, Entry>, next: map<Path, Entry>, fires: bool)
    requires call.EventCall?
    requires forall p: Path :: p != call.path ==> SlotIn(next, p) == SlotIn(entries, p)
    requires Next(cfg, SlotIn(entries, call.path), Step(Event(call.kind), call.now)) == (SlotIn(next, call.path), fires)
    ensures forall p: Path :: Effect(cfg, SlotIn(entries, p), StepOf(call, p), SlotIn(next, p),
                                     MessagesFor(if fires then [Message(call.path, call.kind)] else [], p))
  {
    forall p: Path
      ensures Effect(cfg, SlotIn(entries, p), StepOf(call, p), SlotIn(next, p),
                     MessagesFor(if fires then [Message(call.path, call.kind)] else [], p))
    {
      OneMessage(Message(call.path, call.kind), p);
    }
  }

  /** A list that names each path of a set once, in some order. */
  ghost predicate NamesOnce(list: seq<Path>, paths: set<Path>) {
    && (forall p :: p in list <==> p in paths)
    && (forall i, j :: 0 <= i < j < |list| ==> list[i] != list[j])
  }

  function MtimeMessages(list: seq<Path>): (messages: seq<Message>)
    ensures |messages| == |list|
  {
    seq(|list|, i requires 0 <= i < |list| => Message(list[i], Mtime))
  }

  lemma {:induction false} OneMessageEach(list: seq<Path>, paths: set<Path>, p: Path)
    requires NamesOnce(list, paths)
    ensures MessagesFor(MtimeMessages(list), p) == if p in paths then [Mtime] else []
    decreases |list|
  {
    if list != [] {
      var n := |list| - 1;
      var q := list[n];
      assert list == list[..n] + [q];
      assert MtimeMessages(list)[..n] == MtimeMessages(list[..n]);
      forall r ensures r in list[..n] <==> r in paths - {q} {
        assert r in list <==> r in list[..n] || r == q;
      }
      OneMessageEach(list[..n], paths - {q}, p);
    }
  }

  lemma TickEffect(cfg: Config, now: Time, entries: map<Path, Entry>, fired: set<Path>, list: seq<Path>)
    requires NamesOnce(list, fired)
    requires forall p: Path :: p in fired <==> p in entries && Expired(cfg, entries[p], now)
    ensures forall p: Path :: Effect(cfg, SlotIn(entries, p), StepOf(TickCall(now), p), SlotIn(entries - fired, p),
                                     MessagesFor(MtimeMessages(list), p))
  {
    forall p: Path
      ensures Effect(cfg, SlotIn(entries, p), StepOf(TickCall(now), p), SlotIn(entries - fired, p),
                     MessagesFor(MtimeMessages(list), p))
    {
      OneMessageEach(list, fired, p);
    }
  }

  lemma FlushEffect(cfg: Config, now: Time, entries: map<Path, Entry>, list: seq<Path>)
    requires NamesOnce(list, entries.Keys)
    ensures forall p: Path :: Effect(cfg, SlotIn(entries, p), StepOf(FlushCall(now), p), SlotIn(map[], p),
                                     MessagesFor(MtimeMessages(list), p))
  {
    forall p: Path
      ensures Effect(cfg, SlotIn(entries, p), StepOf(FlushCall(now), p), SlotIn(map[], p),
                     MessagesFor(MtimeMessages(list), p))
    {
      OneMessageEach(list, entries.Keys, p);
    }
  }

  lemma {:induction false} NoEventNoMessage(cfg: Config, trace: seq<Step>)
    requires forall i :: 0 <= i < |trace| ==> !trace[i].input.Event?
    ensures After(cfg, trace) == Idle && Outputs(cfg, trace) == []
  {
    if trace != [] {
      NoEventNoMessage(cfg, trace[..|trace| - 1]);
    }
  }

  lemma {:induction false} ProjectedEvents(calls: seq<Call>, p: Path)
    requires forall j :: 0 <= j < |calls| && calls[j].EventCall? ==> calls[j].path != p
    ensures forall i :: 0 <= i < |Project(calls, p)| ==> !Project(calls, p)[i].input.Event?
  {
    if calls != [] {
      ProjectedEvents(calls[..|calls| - 1], p);
    }
  }

  lemma {:induction false} SentIsCounted(sent: seq<Message>, i: nat)
    requires i < |sent|
    ensures MessagesFor(sent, sent[i].path) != []
    decreases |sent|
  {
    var n := |sent| - 1;
    if i < n {
      SentIsCounted(sent[..n], i);
    }
  }

  /** Messages are only sent for paths that had an event. */
  lemma MessageHadEvent(cfg: Config, calls: seq<Call>, entries: map<Path, Entry>, sent: seq<Message>, i: nat)
    requires Refines(cfg, calls, entries, sent) && i < |sent|
    ensures exists j :: 0 <= j < |calls| && calls[j].EventCall? && calls[j].path == sent[i].path
  {
    var p := sent[i].path;
    SentIsCounted(sent, i);
    assert MessagesFor(sent, p) == Outputs(cfg, Project(calls, p));
    if forall j :: 0 <= j < |calls| && calls[j].EventCall? ==> calls[j].path != p {
      ProjectedEvents(calls, p);
      NoEventNoMessage(cfg, Project(calls, p));
      assert false;
    }
  }

  lemma {:induction false} MessagesCounted(sent: seq<Message>, p: Path, kind: Kind)
    ensures multiset(MessagesFor(sent, p))[kind] == multiset(sent)[Message(p, kind)]
  {
    if sent != [] {
      var n := |sent| - 1;
      assert sent == sent[..n] + [sent[n]];
      MessagesCounted(sent[..n], p, kind);
    }
  }

  /** Without a write there is nothing to wait for, and nothing is sent as a write. */
  lemma {:induction false} NoWriteNoWriteMessage(cfg: Config, trace: seq<Step>)
    requires forall i :: 0 <= i < |trace| ==> trace[i].input != Event(Mtime)
    ensures After(cfg, trace) == Idle && Mtime !in Outputs(cfg, trace)
  {
    if trace != [] {
      NoWriteNoWriteMessage(cfg, trace[..|trace| - 1]);
    }
  }

  lemma {:induction false} ProjectedWrites(calls: seq<Call>, p: Path)
    requires forall j :: 0 <= j < |calls| && calls[j].EventCall? && calls[j].path == p ==> calls[j].kind != Mtime
    ensures forall i :: 0 <= i < |Project(calls, p)| ==> Project(calls, p)[i].input != Event(Mtime)
  {
    if calls != [] {
      ProjectedWrites(calls[..|calls| - 1], p);
    }
  }

  /** A message that says a path was written to has such an event behind it. */
  lemma WriteMessageHadWrite(cfg: Config, calls: seq<Call>, entries: map<Path, Entry>, sent: seq<Message>, p: Path)
    requires Refines(cfg, calls, entries, sent) && Message(p, Mtime) in sent
    ensures exists j :: 0 <= j < |calls| && calls[j].EventCall? && calls[j].path == p && calls[j].kind == Mtime
  {
    assert MessagesFor(sent, p) == Outputs(cfg, Project(calls, p));
    MessagesCounted(sent, p, Mtime);
    assert Mtime in multiset(MessagesFor(sent, p));
    if forall j :: 0 <= j < |calls| && calls[j].EventCall? && calls[j].path == p ==> calls[j].kind != Mtime {
      ProjectedWrites(calls, p);
      NoWriteNoWriteMessage(cfg, Project(calls, p));
      assert false;
    }
  }

  predicate Expired(cfg: Config, entry: Entry, now: Time) {
    now - entry.lastSeen >= cfg.quiet
  }

  class Debouncer {
    const cfg: Config
    var entries: map<Path, Entry>
    /** The callback's invocations, in order. */
    var sent: seq<Message>
    ghost var calls: seq<Call>

    ghost predicate Valid()
      reads this
    {
      Refines(cfg, calls, entries, sent)
    }

    constructor (quiet: Time, maxWait: Time)
      ensures Valid() && cfg == Config(quiet, maxWait)
      ensures calls == [] && sent == [] && entries == map[]
    {
      cfg := Config(quiet, maxWait);
      entries := map[];
      sent := [];
      calls := [];
    }

    method OnEvent(path: Path, kind: Kind, now: Time)
      requires Valid()
      modifies this
      ensures Valid() && calls == old(calls) + [EventCall(path, kind, now)]
      ensures old(sent) <= sent
    {
      var fires := false;
      if kind == Delete {
        entries := entries - {path};
        fires := true;
      } else {
        if path in entries {
          if now - entries[path].firstSeen >= cfg.maxWait {
            entries := entries - {path};
            fires := true;
          } else {
            entries := entries[path := entries[path].(lastSeen := now)];
          }
        } else {
          entries := entries[path := Entry(now, now)];
        }
      }
      ghost var out := if fires then [Message(path, kind)] else [];
      if fires {
        sent := sent + [Message(path, kind)];
      }
      assert sent == old(sent) + out;
      calls := calls + [EventCall(path, kind, now)];
      EventEffect(cfg, EventCall(path, kind, now), old(entries), entries, fires);
      RefinesStep(cfg, old(calls), EventCall(path, kind, now), old(entries), old(sent), entries, out);
    }

    /** Fires every entry that has been quiet long enough, in whatever order the table is walked. */
    method Tick(now: Time)
      requires Valid()
      modifies this
      ensures Valid() && calls == old(calls) + [TickCall(now)]
      ensures old(sent) <= sent
    {
      var toFire: seq<Path> := [];
      var todo := entries.Keys;
      ghost var fired: set<Path> := {};
      while todo != {}
        invariant todo <= old(entries).Keys
        invariant sent == old(sent) && calls == old(calls)
        invariant fired !! todo
        invariant forall p: Path :: p in old(entries) && p !in todo ==>
                    (p in fired <==> Expired(cfg, old(entries)[p], now))
        invariant fired <= old(entries).Keys
        invariant entries == old(entries) - fired
        invariant NamesOnce(toFire, fired)
        decreases |todo|
      {
        var p :| p in todo;
        if now - entries[p].lastSeen >= cfg.quiet {
          toFire := toFire + [p];
          entries := entries - {p};
          fired := fired + {p};
        }
        todo := todo - {p};
      }
      Send(toFire);
      calls := calls + [TickCall(now)];
      TickEffect(cfg, now, old(entries), fired, toFire);
      RefinesStep(cfg, old(calls), TickCall(now), old(entries), old(sent), entries, MtimeMessages(toFire));
    }

    /** The callback, once for each path of the list. */
    method Send(list: seq<Path>)
      modifies this`sent
      ensures sent == old(sent) + MtimeMessages(list)
    {
      for i := 0 to |list|
        invariant sent == old(sent) + MtimeMessages(list)[..i]
      {
        sent := sent + [Message(list[i], Mtime)];
      }
    }

    /** Fires everything that is pending and empties the table. */
    method FlushAll(ghost now: Time) returns (n: nat)
      requires Valid()
      modifies this
      ensures Valid() && calls == old(calls) + [FlushCall(now)]
      ensures entries == map[] && old(sent) <= sent && n == |sent| - |old(sent)|
    {
      var toFire: seq<Path> := [];
      var todo := entries.Keys;
      while todo != {}
        invariant todo <= entries.Keys
        invariant NamesOnce(toFire, entries.Keys - todo)
        decreases |todo|
      {
        var p :| p in todo;
        assert entries.Keys - todo + {p} == entries.Keys - (todo - {p});
        toFire := toFire + [p];
        todo := todo - {p};
      }
      assert entries.Keys - todo == entries.Keys;
      FlushEffect(cfg, now, entries, toFire);
      entries := map[];
      Send(toFire);
      calls := calls + [FlushCall(now)];
      RefinesStep(cfg, old(calls), FlushCall(now), old(entries), old(sent), entries, MtimeMessages(toFire));
      n := |toFire|;
    }
  }
}
