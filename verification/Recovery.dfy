/**
 What the commit protocol promises over any number of process lifetimes, each ended at any step. Beside the process, the
 state records the history the promises speak of.
 */
module Recovery {
  import opened Bytes
  import opened Store
  import opened Consumer
  import opened Daemon

  /**
   Of the running lifetime: `flushed`, the offset up to which it has flushed; `clean`, no flush of it has failed; `held`,
   the offsets whose operations are in the batch; `lost`, the offsets whose operations it passed over or gave up. Of all
   lifetimes: `high`, the highest offset polled; `applied`, the offsets whose operations were applied.
   */
  datatype State = State(core: Core, flushed: nat, clean: bool, held: set<nat>, lost: set<nat>,
                         high: nat, applied: set<nat>)

  datatype Step =
    | Arrive(msg: Parsed)
    | Turn(input: Input)
    | Stop(outcome: Outcome, commitOk: bool)
    | Crash

  function Max(a: nat, b: nat): nat { if a < b then b else a }

  function FlushState(s: State, outcome: Outcome, commitOk: bool): State {
    var ok := s.core.batch == [] || outcome == Succeeded;
    if FlushRaises(s.core.batch, outcome) then s
    else s.(core := Flush(s.core, outcome, commitOk),
       flushed := if ok && s.clean then s.core.position else s.flushed,
       clean := s.clean && ok,
       held := {},
       lost := if outcome == FailedUnapplied then s.lost + s.held else s.lost,
       applied := if outcome == FailedUnapplied then s.applied else s.applied + s.held)
  }

  function ReceiveState(s: State, i: Input): State
    requires Enabled(s, Turn(i))
  {
    var received := Received(s.core, i);
    var queued := if i.poll == Got && s.core.log[s.core.position].Queued? then {s.core.position} else {};
    s.(core := received,
       high := Max(s.high, received.position),
       held := if PassedOver(s.core, i) then s.held else s.held + queued,
       lost := if PassedOver(s.core, i) then s.lost + queued else s.lost)
  }

  function RestartState(s: State): State {
    s.(core := Restart(s.core), flushed := s.core.committed, clean := true, held := {}, lost := {})
  }

  predicate Enabled(s: State, step: Step) {
    step.Turn? && step.input.poll == Got ==> s.core.position < |s.core.log|
  }

  function Next(s: State, step: Step): State
    requires Enabled(s, step)
  {
    match step
    case Arrive(msg) => s.(core := s.core.(log := s.core.log + [msg]))
    case Turn(i) => if Raises(s.core, i) then RestartState(TurnState(s, i)) else TurnState(s, i)
    case Stop(outcome, commitOk) => RestartState(StopState(s, outcome, commitOk))
    case Crash => RestartState(s)
  }

  /** After a turn, before what an exception in it does. */
  function TurnState(s: State, i: Input): State
    requires Enabled(s, Turn(i))
  {
    var received := ReceiveState(s, i);
    if FlushDue(s.core, i) then FlushState(received, i.outcome, i.commitOk) else received
  }

  function StopState(s: State, outcome: Outcome, commitOk: bool): State {
    if s.core.batch == [] then s else FlushState(s, outcome, commitOk)
  }

  /** The recorded history does not influence the process. */
  lemma HistoryIsPassive(s: State, i: Input, outcome: Outcome, commitOk: bool)
    requires Enabled(s, Turn(i))
    ensures TurnState(s, i).core == Iterate(s.core, i)
    ensures StopState(s, outcome, commitOk).core == LastFlush(s.core, outcome, commitOk)
  {}

  /** No commit takes effect after a failed flush of the same lifetime. */
  predicate Careful(s: State, step: Step) {
    match step
    case Turn(i) => !s.clean ==> !i.commitOk
    case Stop(_, commitOk) => !s.clean ==> !commitOk
    case _ => true
  }

  // ----- The invariant -----

  /** The hash after one pass over the first n messages. */
  function UpTo(base: Hash, log: seq<Parsed>, n: nat): Hash
    requires n <= |log|
  {
    ApplyAll(base, Ops(log[..n]))
  }

  /** Away from the keys that messages n..high touch, the hash is the one after the first n messages. */
  ghost predicate Agrees(base: Hash, log: seq<Parsed>, pending: Hash, n: nat, high: nat)
    requires n <= high <= |log|
  {
    forall k: Path :: !Touched(Ops(log[n..high]), k) ==> Get(pending, k) == Get(UpTo(base, log, n), k)
  }

  /** Every message below n that queues an operation has been applied. */
  ghost predicate AllApplied(log: seq<Parsed>, applied: set<nat>, n: nat)
    requires n <= |log|
  {
    forall j: nat :: j < n && QueuedAt(log, j) ==> j in applied
  }

  ghost predicate Bounds(s: State) {
    s.core.committed <= s.core.position <= s.high <= |s.core.log|
  }

  predicate QueuedAt(log: seq<Parsed>, j: nat) {
    j < |log| && log[j].Queued?
  }

  /** Where the operations polled beyond the committed offset have gone. */
  ghost predicate Ledger(s: State)
    requires Bounds(s)
  {
    var c := s.core;
    && (forall j: nat :: c.committed <= j < c.position && QueuedAt(c.log, j) ==>
          j in s.applied || j in s.held || j in s.lost)
    && (forall j :: j in s.held || j in s.lost ==> j < c.position && QueuedAt(c.log, j))
    && (c.batch == [] ==> s.held == {})
    && (s.clean ==> s.lost == {})
  }

  ghost predicate CleanInv(base: Hash, s: State)
    requires Bounds(s)
  {
    var c := s.core;
    && c.committed <= s.flushed <= c.position
    && c.batch == Ops(c.log[s.flushed..c.position])
    && !c.redisDown
    && Agrees(base, c.log, c.pending, s.flushed, s.high)
  }

  ghost predicate Inv(base: Hash, s: State) {
    var c := s.core;
    && Bounds(s)
    && Agrees(base, c.log, c.pending, c.committed, s.high)
    && (forall k: Path :: Touched(c.batch, k) ==> Touched(Ops(c.log[c.committed..s.high]), k))
    && (s.clean ==> CleanInv(base, s))
  }

  lemma TouchedConcat(a: seq<Op>, b: seq<Op>, k: Path)
    ensures Touched(a + b, k) <==> Touched(a, k) || Touched(b, k)
  {
    if i :| 0 <= i < |a| && Touches(a[i], k) {
      assert Touches((a + b)[i], k);
    }
    if i :| 0 <= i < |b| && Touches(b[i], k) {
      assert Touches((a + b)[|a| + i], k);
    }
  }

  /** What a stretch of messages touches, every longer stretch touches. */
  lemma TouchedWithin(log: seq<Parsed>, lo: nat, lo': nat, hi': nat, hi: nat, k: Path)
    requires lo <= lo' <= hi' <= hi <= |log|
    ensures Touched(Ops(log[lo'..hi']), k) ==> Touched(Ops(log[lo..hi]), k)
  {
    assert log[lo..hi] == log[lo..lo'] + (log[lo'..hi'] + log[hi'..hi]);
    OpsConcat(log[lo..lo'], log[lo'..hi'] + log[hi'..hi]);
    OpsConcat(log[lo'..hi'], log[hi'..hi]);
    TouchedConcat(Ops(log[lo..lo']), Ops(log[lo'..hi'] + log[hi'..hi]), k);
    TouchedConcat(Ops(log[lo'..hi']), Ops(log[hi'..hi]), k);
  }

  lemma AgreesHigher(base: Hash, log: seq<Parsed>, pending: Hash, n: nat, high: nat, higher: nat)
    requires n <= high <= higher <= |log| && Agrees(base, log, pending, n, high)
    ensures Agrees(base, log, pending, n, higher)
  {
    forall k: Path | !Touched(Ops(log[n..higher]), k) ensures Get(pending, k) == Get(UpTo(base, log, n), k) {
      TouchedWithin(log, n, n, high, higher, k);
    }
  }

  lemma OpsSnoc(log: seq<Parsed>, lo: nat, hi: nat)
    requires lo <= hi < |log|
    ensures Ops(log[lo..hi + 1]) == Ops(log[lo..hi]) + Ops([log[hi]])
    ensures Ops([log[hi]]) == if log[hi].Queued? then [log[hi].op] else []
  {
    assert log[lo..hi + 1] == log[lo..hi] + [log[hi]];
    OpsConcat(log[lo..hi], [log[hi]]);
    assert Ops([log[hi]][..0]) == [];
  }

  /** Applying to an agreeing hash what follows it makes the hash agree further on. */
  lemma AgreesFurther(base: Hash, log: seq<Parsed>, pending: Hash, n: nat, m: nat, high: nat)
    requires n <= m <= high <= |log| && Agrees(base, log, pending, n, high)
    ensures Agrees(base, log, ApplyAll(pending, Ops(log[n..m])), m, high)
  {
    var segment := Ops(log[n..m]);
    assert log[..m] == log[..n] + log[n..m];
    OpsConcat(log[..n], log[n..m]);
    ApplyAllConcat(base, Ops(log[..n]), segment);
    forall k: Path | !Touched(Ops(log[m..high]), k)
      ensures Get(ApplyAll(pending, segment), k) == Get(UpTo(base, log, m), k)
    {
      SettledByTouch(pending, UpTo(base, log, n), segment, k);
      SettledByTouch(UpTo(base, log, n), pending, segment, k);
      if !Touched(segment, k) {
        assert log[n..high] == log[n..m] + log[m..high];
        OpsConcat(log[n..m], log[m..high]);
        TouchedConcat(segment, Ops(log[m..high]), k);
      }
    }
  }

  lemma FlushKeepsInv(base: Hash, s: State, outcome: Outcome, commitOk: bool)
    requires Inv(base, s) && (!s.clean ==> !commitOk)
    ensures Inv(base, FlushState(s, outcome, commitOk))
  {
    if FlushRaises(s.core.batch, outcome) {
      return;
    }
    var c, t := s.core, FlushState(s, outcome, commitOk);
    if s.clean {
      AgreesFurther(base, c.log, c.pending, s.flushed, c.position, s.high);
    }
    forall k: Path | !Touched(Ops(c.log[c.committed..s.high]), k)
      ensures Get(t.core.pending, k) == Get(UpTo(base, c.log, c.committed), k)
    {
      SettledByTouch(c.pending, c.pending, c.batch, k);
    }
    assert Agrees(base, c.log, t.core.pending, c.committed, s.high);
    if t.clean && c.batch == [] {
      assert ApplyAll(c.pending, c.batch) == c.pending;
    }
  }

  lemma TakeTouches(c: Core, committed: nat, high: nat, k: Path)
    requires committed <= c.position < high <= |c.log|
    requires Touched(c.batch, k) ==> Touched(Ops(c.log[committed..high]), k)
    ensures Touched(Take(c, c.log[c.position]).batch, k) ==> Touched(Ops(c.log[committed..high]), k)
  {
    OpsSnoc(c.log, c.position, c.position);
    TouchedConcat(c.batch, Ops([c.log[c.position]]), k);
    assert c.log[c.position..c.position + 1] == [c.log[c.position]];
    TouchedWithin(c.log, committed, c.position, c.position + 1, high, k);
  }

  lemma ReceiveKeepsInv(base: Hash, s: State, i: Input)
    requires Inv(base, s) && Enabled(s, Turn(i))
    ensures Inv(base, ReceiveState(s, i))
  {
    var c, t := s.core, ReceiveState(s, i);
    AgreesHigher(base, c.log, c.pending, c.committed, s.high, t.high);
    if s.clean {
      AgreesHigher(base, c.log, c.pending, s.flushed, s.high, t.high);
      if i.poll == Got {
        OpsSnoc(c.log, s.flushed, c.position);
      }
    }
    forall k: Path | Touched(t.core.batch, k) ensures Touched(Ops(c.log[c.committed..t.high]), k) {
      TouchedWithin(c.log, c.committed, c.committed, s.high, t.high, k);
      if i.poll == Got && !PassedOver(c, i) {
        TakeTouches(c.(redisDown := false), c.committed, t.high, k);
      }
    }
  }

  lemma RestartKeepsInv(base: Hash, s: State)
    requires Inv(base, s)
    ensures Inv(base, RestartState(s))
  {
    var c := s.core;
    assert c.log[c.committed..c.committed] == [];
  }

  lemma ArriveKeepsInv(base: Hash, s: State, msg: Parsed)
    requires Inv(base, s)
    ensures Inv(base, s.(core := s.core.(log := s.core.log + [msg])))
  {
    var log, longer := s.core.log, s.core.log + [msg];
    assert longer[..s.core.committed] == log[..s.core.committed];
    assert longer[s.core.committed..s.high] == log[s.core.committed..s.high];
    if s.clean {
      assert longer[..s.flushed] == log[..s.flushed];
      assert longer[s.flushed..s.high] == log[s.flushed..s.high];
      assert longer[s.flushed..s.core.position] == log[s.flushed..s.core.position];
    }
  }

  /** A flush and its commit put everything they cover on the books. */
  lemma FlushKeepsLedger(s: State, outcome: Outcome, commitOk: bool)
    requires Bounds(s) && Ledger(s)
    ensures Bounds(FlushState(s, outcome, commitOk)) && Ledger(FlushState(s, outcome, commitOk))
  {}

  lemma ReceiveKeepsLedger(s: State, i: Input)
    requires Bounds(s) && Ledger(s) && Enabled(s, Turn(i)) && (s.clean ==> !s.core.redisDown)
    ensures Bounds(ReceiveState(s, i)) && Ledger(ReceiveState(s, i))
  {}

  /**
   Exactly when a commit keeps the promise: everything below the committed offset stays applied if and only if what this
   lifetime has lost, by failed flushes and passed-over messages, has been applied after all.
   */
  lemma CommitKeepsPromiseIff(s: State, outcome: Outcome)
    requires Bounds(s) && Ledger(s) && AllApplied(s.core.log, s.applied, s.core.committed)
    requires s.core.batch == [] || (outcome == Succeeded && AllEncodable(s.core.batch))
    ensures var t := FlushState(s, outcome, true);
            && t.core.committed == s.core.position
            && (AllApplied(t.core.log, t.applied, t.core.committed) <==> s.lost <= t.applied)
  {
    var t := FlushState(s, outcome, true);
    if AllApplied(t.core.log, t.applied, t.core.committed) {
      forall j | j in s.lost ensures j in t.applied {
        assert QueuedAt(s.core.log, j);
      }
    }
  }

  // ----- Every run -----

  /** Everything the invariant says of a state. */
  ghost predicate Good(base: Hash, s: State) {
    Inv(base, s) && Ledger(s) && AllApplied(s.core.log, s.applied, s.core.committed)
  }

  lemma FlushKeepsGood(base: Hash, s: State, outcome: Outcome, commitOk: bool)
    requires Good(base, s) && (!s.clean ==> !commitOk)
    ensures Good(base, FlushState(s, outcome, commitOk))
  {
    FlushKeepsInv(base, s, outcome, commitOk);
    FlushKeepsLedger(s, outcome, commitOk);
    if s.clean && commitOk && !FlushRaises(s.core.batch, outcome) && (s.core.batch == [] || outcome == Succeeded) {
      CommitKeepsPromiseIff(s, outcome);
    }
  }

  lemma RestartKeepsGood(base: Hash, s: State)
    requires Good(base, s)
    ensures Good(base, RestartState(s))
  {
    RestartKeepsInv(base, s);
  }

  lemma ReceiveKeepsGood(base: Hash, s: State, i: Input)
    requires Good(base, s) && Enabled(s, Turn(i))
    ensures Good(base, ReceiveState(s, i)) && ReceiveState(s, i).clean == s.clean
  {
    ReceiveKeepsInv(base, s, i);
    ReceiveKeepsLedger(s, i);
  }

  lemma ArriveKeepsGood(base: Hash, s: State, msg: Parsed)
    requires Good(base, s)
    ensures Good(base, Next(s, Arrive(msg)))
  {
    ArriveKeepsInv(base, s, msg);
    assert forall j: nat :: j < |s.core.log| ==> (QueuedAt(s.core.log + [msg], j) <==> QueuedAt(s.core.log, j));
  }

  lemma StepKeepsGood(base: Hash, s: State, step: Step)
    requires Good(base, s) && Enabled(s, step) && Careful(s, step)
    ensures Good(base, Next(s, step))
  {
    match step
    case Arrive(msg) => ArriveKeepsGood(base, s, msg);
    case Turn(i) =>
      ReceiveKeepsGood(base, s, i);
      if FlushDue(s.core, i) {
        FlushKeepsGood(base, ReceiveState(s, i), i.outcome, i.commitOk);
      }
      RestartKeepsGood(base, TurnState(s, i));
    case Stop(outcome, commitOk) =>
      if s.core.batch != [] {
        FlushKeepsGood(base, s, outcome, commitOk);
      }
      RestartKeepsGood(base, StopState(s, outcome, commitOk));
    case Crash => RestartKeepsGood(base, s);
  }

  function Start(base: Hash, log: seq<Parsed>): State {
    State(Core(log, base, 0, 0, [], false), 0, true, {}, {}, 0, {})
  }

  ghost predicate IsRun(states: seq<State>, steps: seq<Step>) {
    && |states| == |steps| + 1
    && forall n :: 0 <= n < |steps| ==> Enabled(states[n], steps[n]) && states[n + 1] == Next(states[n], steps[n])
  }

  ghost predicate CarefulRun(states: seq<State>, steps: seq<Step>) {
    IsRun(states, steps) && forall n :: 0 <= n < |steps| ==> Careful(states[n], steps[n])
  }

  lemma {:induction false} RunKeepsGood(base: Hash, log: seq<Parsed>, states: seq<State>, steps: seq<Step>, n: nat)
    requires CarefulRun(states, steps) && states[0] == Start(base, log) && n < |states|
    ensures Good(base, states[n])
  {
    if n > 0 {
      RunKeepsGood(base, log, states, steps, n - 1);
      StepKeepsGood(base, states[n - 1], steps[n - 1]);
    }
  }

  /** At least once: in every reachable state, each operation below the committed offset was applied. */
  lemma CommittedWereApplied(base: Hash, log: seq<Parsed>, states: seq<State>, steps: seq<Step>, n: nat, j: nat)
    requires CarefulRun(states, steps) && states[0] == Start(base, log) && n < |states|
    requires j < states[n].core.committed
    ensures j < |states[n].core.log| && (states[n].core.log[j].Queued? ==> j in states[n].applied)
  {
    RunKeepsGood(base, log, states, steps, n);
    assert QueuedAt(states[n].core.log, j) ==> j in states[n].applied;
  }

  /**
   Recovery: once a lifetime in which no flush failed has read to the end of the log and has nothing batched, the pending
   hash is the one of a single pass over the whole log, whatever happened before.
   */
  lemma ReplayRecovers(base: Hash, log: seq<Parsed>, states: seq<State>, steps: seq<Step>, n: nat)
    requires CarefulRun(states, steps) && states[0] == Start(base, log) && n < |states|
    requires states[n].clean && states[n].core.position == |states[n].core.log| && states[n].core.batch == []
    ensures states[n].core.pending == ApplyAll(base, Ops(states[n].core.log))
  {
    RunKeepsGood(base, log, states, steps, n);
    var c, flushed := states[n].core, states[n].flushed;
    AgreesToTheEnd(base, c.log, c.pending, flushed);
  }

  lemma AgreesToTheEnd(base: Hash, log: seq<Parsed>, pending: Hash, n: nat)
    requires n <= |log| && Agrees(base, log, pending, n, |log|) && Ops(log[n..|log|]) == []
    ensures pending == ApplyAll(base, Ops(log))
  {
    assert log == log[..n] + log[n..|log|];
    OpsConcat(log[..n], log[n..|log|]);
    assert Ops(log) == Ops(log[..n]);
    SameHash(pending, UpTo(base, log, n));
  }

  // ----- Runs without the side condition -----

  /** What holds of the books whatever is committed when, and the promise itself. */
  ghost predicate Books(s: State) {
    Bounds(s) && Ledger(s) && (s.clean ==> !s.core.redisDown)
  }

  ghost predicate Promise(s: State)
    requires Bounds(s)
  {
    AllApplied(s.core.log, s.applied, s.core.committed)
  }

  /** The state as a step finds it when it comes to its flush, if it has one. */
  function AtFlush(s: State, step: Step): State
    requires Enabled(s, step)
  {
    if step.Turn? then ReceiveState(s, step.input) else s
  }

  /** A commit takes effect. */
  predicate Commits(s: State, step: Step)
    requires Enabled(s, step)
  {
    match step
    case Turn(i) => FlushDue(s.core, i) && Succeeds(ReceiveState(s, i).core.batch, i.outcome) && i.commitOk
    case Stop(outcome, commitOk) => s.core.batch != [] && Succeeds(s.core.batch, outcome) && commitOk
    case _ => false
  }

  predicate Succeeds(batch: seq<Op>, outcome: Outcome) {
    batch == [] || (outcome == Succeeded && AllEncodable(batch))
  }

  /** All that this lifetime has lost has been applied after all, or is in the batch to be applied now. */
  predicate NothingLost(s: State) {
    s.lost <= s.applied + s.held
  }

  lemma RestartKeepsBooks(s: State)
    requires Books(s)
    ensures Books(RestartState(s))
    ensures Promise(RestartState(s)) <==> Promise(s)
  {}

  lemma FlushKeepsBooks(s: State, outcome: Outcome, commitOk: bool)
    requires Books(s)
    ensures Books(FlushState(s, outcome, commitOk))
    ensures Succeeds(s.core.batch, outcome) && commitOk && Promise(s) ==>
              (Promise(FlushState(s, outcome, commitOk)) <==> NothingLost(s))
    ensures !(Succeeds(s.core.batch, outcome) && commitOk) && Promise(s) ==> Promise(FlushState(s, outcome, commitOk))
  {
    FlushKeepsLedger(s, outcome, commitOk);
    if Succeeds(s.core.batch, outcome) && commitOk && Promise(s) {
      CommitKeepsPromiseIff(s, outcome);
    }
  }

  lemma ReceiveKeepsBooks(s: State, i: Input)
    requires Books(s) && Enabled(s, Turn(i))
    ensures Books(ReceiveState(s, i)) && (Promise(s) ==> Promise(ReceiveState(s, i)))
  {
    ReceiveKeepsLedger(s, i);
  }

  lemma ArriveKeepsBooks(s: State, msg: Parsed)
    requires Books(s)
    ensures Books(Next(s, Arrive(msg))) && (Promise(s) ==> Promise(Next(s, Arrive(msg))))
  {
    assert forall j: nat :: j < |s.core.log| ==> (QueuedAt(s.core.log + [msg], j) <==> QueuedAt(s.core.log, j));
  }

  /** A step keeps the promise unless it commits, and then exactly if nothing is lost. */
  lemma StepKeepsPromiseIff(s: State, step: Step)
    requires Books(s) && Enabled(s, step)
    ensures Books(Next(s, step))
    ensures Promise(s) ==> (Promise(Next(s, step)) <==> (Commits(s, step) ==> NothingLost(AtFlush(s, step))))
  {
    match step
    case Arrive(msg) => ArriveKeepsBooks(s, msg);
    case Turn(i) =>
      ReceiveKeepsBooks(s, i);
      if FlushDue(s.core, i) {
        FlushKeepsBooks(ReceiveState(s, i), i.outcome, i.commitOk);
      }
      RestartKeepsBooks(TurnState(s, i));
    case Stop(outcome, commitOk) =>
      if s.core.batch != [] {
        FlushKeepsBooks(s, outcome, commitOk);
      }
      RestartKeepsBooks(StopState(s, outcome, commitOk));
    case Crash => RestartKeepsBooks(s);
  }

  lemma {:induction false} RunKeepsBooks(base: Hash, log: seq<Parsed>, states: seq<State>, steps: seq<Step>, n: nat)
    requires IsRun(states, steps) && states[0] == Start(base, log) && n < |states|
    ensures Books(states[n])
  {
    if n > 0 {
      RunKeepsBooks(base, log, states, steps, n - 1);
      StepKeepsPromiseIff(states[n - 1], steps[n - 1]);
    }
  }

  /** In all states up to n everything below the committed offset has been applied. */
  ghost predicate AtLeastOnce(states: seq<State>, n: nat)
    requires n < |states|
  {
    forall k :: 0 <= k <= n ==> Bounds(states[k]) && Promise(states[k])
  }

  /** No commit before step n takes effect while something its lifetime has lost is still not applied. */
  ghost predicate NoLossCommitted(states: seq<State>, steps: seq<Step>, n: nat)
    requires IsRun(states, steps) && n < |states|
  {
    forall k :: 0 <= k < n && Commits(states[k], steps[k]) ==> NothingLost(AtFlush(states[k], steps[k]))
  }

  /** Exactly when at-least-once holds of a run: as long as no loss is committed. */
  lemma {:induction false} AtLeastOnceIff(base: Hash, log: seq<Parsed>, states: seq<State>, steps: seq<Step>, n: nat)
    requires IsRun(states, steps) && states[0] == Start(base, log) && n < |states|
    ensures AtLeastOnce(states, n) <==> NoLossCommitted(states, steps, n)
  {
    RunKeepsBooks(base, log, states, steps, n);
    if n > 0 {
      RunKeepsBooks(base, log, states, steps, n - 1);
      AtLeastOnceIff(base, log, states, steps, n - 1);
      StepKeepsPromiseIff(states[n - 1], steps[n - 1]);
      assert AtLeastOnce(states, n) <==> AtLeastOnce(states, n - 1) && Promise(states[n]);
      var kept := Commits(states[n - 1], steps[n - 1]) ==> NothingLost(AtFlush(states[n - 1], steps[n - 1]));
      assert NoLossCommitted(states, steps, n) <==> NoLossCommitted(states, steps, n - 1) && kept;
    }
  }

  // ----- What the history says of the hash -----

  /** The operations of the given offsets below n, in the order of the log. */
  function OpsAt(log: seq<Parsed>, offsets: set<nat>, n: nat): seq<Op>
    requires n <= |log|
  {
    if n == 0 then []
    else OpsAt(log, offsets, n - 1) + (if n - 1 in offsets && log[n - 1].Queued? then [log[n - 1].op] else [])
  }

  /** The batch is exactly the operations held. */
  ghost predicate HoldsBatch(s: State) {
    && s.core.position <= |s.core.log| && s.core.committed <= |s.core.log|
    && s.core.batch == OpsAt(s.core.log, s.held, s.core.position)
    && forall j :: j in s.held ==> j < s.core.position
  }

  lemma {:induction false} OpsAtSame(log: seq<Parsed>, longer: seq<Parsed>, a: set<nat>, b: set<nat>, n: nat)
    requires n <= |log| && log <= longer && forall j: nat :: j < n ==> (j in a <==> j in b)
    ensures OpsAt(log, a, n) == OpsAt(longer, b, n)
  {
    if n > 0 {
      OpsAtSame(log, longer, a, b, n - 1);
    }
  }

  lemma {:induction false} OpsAtNone(log: seq<Parsed>, n: nat)
    requires n <= |log|
    ensures OpsAt(log, {}, n) == []
  {
    if n > 0 {
      OpsAtNone(log, n - 1);
    }
  }

  lemma ReceiveHoldsBatch(s: State, i: Input)
    requires HoldsBatch(s) && Enabled(s, Turn(i))
    ensures HoldsBatch(ReceiveState(s, i))
  {
    var c := s.core;
    if i.poll == Got {
      OneMoreHeld(c.log, s.held, c.position, c.batch);
    }
    assert s.held + {} == s.held && c.batch + [] == c.batch;
  }

  lemma OneMoreHeld(log: seq<Parsed>, held: set<nat>, n: nat, batch: seq<Op>)
    requires n < |log| && batch == OpsAt(log, held, n) && forall j :: j in held ==> j < n
    ensures OpsAt(log, held, n + 1) == batch
    ensures log[n].Queued? ==> OpsAt(log, held + {n}, n + 1) == batch + [log[n].op]
  {
    OpsAtSame(log, log, held, held + {n}, n);
    assert n !in held && batch + [] == batch;
  }

  lemma FlushHoldsBatch(s: State, outcome: Outcome, commitOk: bool)
    requires HoldsBatch(s)
    ensures HoldsBatch(FlushState(s, outcome, commitOk))
  {
    OpsAtNone(s.core.log, s.core.position);
  }

  lemma StepHoldsBatch(s: State, step: Step)
    requires HoldsBatch(s) && Enabled(s, step)
    ensures HoldsBatch(Next(s, step))
  {
    match step
    case Arrive(msg) =>
      OpsAtSame(s.core.log, s.core.log + [msg], s.held, s.held, s.core.position);
    case Turn(i) =>
      ReceiveHoldsBatch(s, i);
      FlushHoldsBatch(ReceiveState(s, i), i.outcome, i.commitOk);
      RestartHoldsBatch(TurnState(s, i));
    case Stop(outcome, commitOk) =>
      FlushHoldsBatch(s, outcome, commitOk);
      RestartHoldsBatch(StopState(s, outcome, commitOk));
    case Crash => RestartHoldsBatch(s);
  }

  lemma RestartHoldsBatch(s: State)
    requires HoldsBatch(s)
    ensures HoldsBatch(RestartState(s))
  {
    OpsAtNone(s.core.log, s.core.committed);
  }

  /** In every run the batch is what the offsets held queue. */
  lemma {:induction false} RunHoldsBatch(base: Hash, log: seq<Parsed>, states: seq<State>, steps: seq<Step>, n: nat)
    requires IsRun(states, steps) && states[0] == Start(base, log) && n < |states|
    ensures HoldsBatch(states[n])
  {
    if n > 0 {
      RunHoldsBatch(base, log, states, steps, n - 1);
      StepHoldsBatch(states[n - 1], steps[n - 1]);
    }
  }

  /** Between the two states nothing was applied, or exactly what is held, in the order of the log, and recorded so. */
  ghost predicate Executes(f: State, t: State)
    requires f.core.position <= |f.core.log|
  {
    || (t.applied == f.applied && t.core.pending == f.core.pending)
    || (t.applied == f.applied + f.held
        && t.core.pending == ApplyAll(f.core.pending, OpsAt(f.core.log, f.held, f.core.position)))
  }

  /** A turn applies all that is held when it comes to its flush, or nothing, and records it so. */
  lemma TurnExecutes(s: State, i: Input)
    requires HoldsBatch(s) && Enabled(s, Turn(i))
    ensures HoldsBatch(ReceiveState(s, i)) && Executes(ReceiveState(s, i), Next(s, Turn(i)))
  {
    var f := ReceiveState(s, i);
    ReceiveHoldsBatch(s, i);
    FlushExecutes(f, i.outcome, i.commitOk);
    RestartExecutes(f, TurnState(s, i));
  }

  lemma RestartExecutes(f: State, t: State)
    requires f.core.position <= |f.core.log| && Executes(f, t)
    ensures Executes(f, RestartState(t))
  {}

  /** Receiving a message by itself applies nothing. */
  lemma ReceiveExecutesNothing(s: State, i: Input)
    requires Enabled(s, Turn(i))
    ensures ReceiveState(s, i).core.pending == s.core.pending && ReceiveState(s, i).applied == s.applied
  {}

  /** Every other step does so with what is held already. */
  lemma OtherStepExecutes(s: State, step: Step)
    requires HoldsBatch(s) && !step.Turn?
    ensures Executes(s, Next(s, step))
  {
    if step.Stop? {
      FlushExecutes(s, step.outcome, step.commitOk);
    }
  }

  lemma FlushExecutes(f: State, outcome: Outcome, commitOk: bool)
    requires HoldsBatch(f)
    ensures Executes(f, FlushState(f, outcome, commitOk))
  {}

  /** What a lifetime held and holds no more was executed or counts as lost, unless the lifetime is over. */
  lemma HeldIsAccountedFor(s: State, i: Input, j: nat)
    requires HoldsBatch(s) && Enabled(s, Turn(i)) && j in s.held && !Raises(s.core, i)
    ensures var t := Next(s, Turn(i)); j in t.held || j in t.applied || j in t.lost
  {}

  /** What is polled while Redis stays down counts as lost, and what is lost was passed over so or given up by a flush. */
  lemma LostIff(s: State, i: Input, j: nat)
    requires HoldsBatch(s) && Enabled(s, Turn(i)) && !Raises(s.core, i) && j !in s.lost
    ensures j in Next(s, Turn(i)).lost <==>
              || (i.poll == Got && j == s.core.position && QueuedAt(s.core.log, j) && s.core.redisDown && !i.pingOk)
              || (FlushDue(s.core, i) && i.outcome == FailedUnapplied && j in ReceiveState(s, i).held)
  {}

  // ----- Messages that end the process -----

  /** A process that starts at a message the parser raises on. */
  predicate StuckAt(c: Core, j: nat) {
    && c.committed == c.position == j < |c.log| && c.log[j].Raised?
    && c.batch == [] && !c.redisDown
  }

  /** Whatever happens, every later process starts there again: nothing behind the message is ever read. */
  lemma {:induction false} StuckForever(states: seq<State>, steps: seq<Step>, j: nat, n: nat)
    requires IsRun(states, steps) && n < |states| && StuckAt(states[0].core, j)
    ensures StuckAt(states[n].core, j) && states[n].core.pending == states[0].core.pending
  {
    if n > 0 {
      StuckForever(states, steps, j, n - 1);
    }
  }

  /** What is held is in the batch, and what was applied could be encoded. */
  ghost predicate OnlyEncodable(s: State) {
    && (forall j :: j in s.held ==> QueuedAt(s.core.log, j) && s.core.log[j].op in s.core.batch)
    && (forall j :: j in s.applied ==> QueuedAt(s.core.log, j) && Encodable(s.core.log[j].op))
  }

  lemma FlushOnlyEncodable(s: State, outcome: Outcome, commitOk: bool)
    requires OnlyEncodable(s)
    ensures OnlyEncodable(FlushState(s, outcome, commitOk))
  {}

  lemma StepOnlyEncodable(s: State, step: Step)
    requires OnlyEncodable(s) && Enabled(s, step)
    ensures OnlyEncodable(Next(s, step))
  {
    match step
    case Turn(i) =>
      if FlushDue(s.core, i) {
        FlushOnlyEncodable(ReceiveState(s, i), i.outcome, i.commitOk);
      }
    case Stop(outcome, commitOk) => FlushOnlyEncodable(s, outcome, commitOk);
    case _ =>
  }

  lemma {:induction false} RunOnlyEncodable(base: Hash, log: seq<Parsed>, states: seq<State>, steps: seq<Step>, n: nat)
    requires IsRun(states, steps) && states[0] == Start(base, log) && n < |states|
    ensures OnlyEncodable(states[n])
  {
    if n > 0 {
      RunOnlyEncodable(base, log, states, steps, n - 1);
      StepOnlyEncodable(states[n - 1], steps[n - 1]);
    }
  }

  /** The flush on the way out of an exception of the parser, with what was batched before the message. */
  predicate PassesAt(s: State, step: Step, j: nat) {
    && step.Turn? && step.input.poll == Got && s.core.position == j
    && s.core.batch != [] && AllEncodable(s.core.batch) && step.input.outcome == Succeeded && step.input.commitOk
  }

  /** A lifetime without a failed flush does not get behind a message the parser raises on. */
  ghost predicate StaysBehind(s: State, j: nat) {
    s.clean && s.core.committed <= j ==> s.core.position <= j
  }

  lemma StepStaysBehind(s: State, step: Step, j: nat)
    requires Books(s) && Enabled(s, step) && StaysBehind(s, j)
    requires j < |s.core.log| && s.core.log[j].Raised?
    ensures StaysBehind(Next(s, step), j)
    ensures s.core.committed <= j && (s.clean || Careful(s, step)) ==>
              (Next(s, step).core.committed > j <==> PassesAt(s, step, j))
  {
    match step
    case Turn(i) =>
      if FlushDue(s.core, i) && i.poll == Got {
        assert s.core.batch + [] == s.core.batch;
      }
    case _ =>
  }

  lemma {:induction false} RunStaysBehind(base: Hash, log: seq<Parsed>, states: seq<State>, steps: seq<Step>, n: nat, j: nat)
    requires IsRun(states, steps) && states[0] == Start(base, log) && n < |states|
    requires j < |states[n].core.log| && states[n].core.log[j].Raised?
    ensures StaysBehind(states[n], j)
  {
    if n > 0 {
      var before, step := states[n - 1], steps[n - 1];
      RunKeepsBooks(base, log, states, steps, n - 1);
      if j < |before.core.log| {
        assert before.core.log[j] == states[n].core.log[j];
        RunStaysBehind(base, log, states, steps, n - 1, j);
        StepStaysBehind(before, step, j);
      } else {
        assert step.Arrive?;
      }
    }
  }

  /**
   In every run, exactly when a lifetime without a failed flush commits over a message the parser raises on: something is
   batched when it is polled, and the flush on the way out succeeds and commits. After a failed flush the message may also
   be passed over while Redis is down, so then this holds of steps that do not commit all the same.
   */
  lemma RaisingMessagePassedIff(base: Hash, log: seq<Parsed>, states: seq<State>, steps: seq<Step>, n: nat, j: nat)
    requires IsRun(states, steps) && states[0] == Start(base, log) && n < |steps|
    requires j < |states[n].core.log| && states[n].core.log[j].Raised? && states[n].core.committed <= j
    ensures states[n].clean || Careful(states[n], steps[n]) ==>
              (states[n + 1].core.committed > j <==> PassesAt(states[n], steps[n], j))
  {
    RunStaysBehind(base, log, states, steps, n, j);
    RunKeepsBooks(base, log, states, steps, n);
    StepStaysBehind(states[n], steps[n], j);
  }

  /**
   An operation on a path that cannot be encoded is never applied, and as long as at-least-once is kept no commit ever
   passes it: the consumer comes back to it for good.
   */
  lemma UnencodableNeverPassed(base: Hash, log: seq<Parsed>, states: seq<State>, steps: seq<Step>, n: nat, j: nat)
    requires IsRun(states, steps) && states[0] == Start(base, log) && n < |states|
    requires QueuedAt(states[n].core.log, j) && !Encodable(states[n].core.log[j].op)
    ensures j !in states[n].applied
    ensures NoLossCommitted(states, steps, n) ==> states[n].core.committed <= j
  {
    RunOnlyEncodable(base, log, states, steps, n);
    AtLeastOnceIff(base, log, states, steps, n);
  }

  /** Runs without a commit after a failed flush are among those. */
  lemma CarefulCommitsNoLoss(base: Hash, log: seq<Parsed>, states: seq<State>, steps: seq<Step>, n: nat)
    requires CarefulRun(states, steps) && states[0] == Start(base, log) && n < |states|
    ensures NoLossCommitted(states, steps, n)
  {
    forall k: nat | k <= n ensures Bounds(states[k]) && Promise(states[k]) {
      RunKeepsGood(base, log, states, steps, k);
    }
    AtLeastOnceIff(base, log, states, steps, n);
  }

  // ----- Without the side condition -----

  const GET: Input := Input(Got, true, false, Succeeded, true)
  const IDLE: Input := Input(Nothing, true, true, Succeeded, true)

  lemma BothApplied(base: Hash, a: Op, b: Op)
    ensures ApplyAll(base, Ops([Queued(a), Queued(b)])) == Apply(Apply(base, a), b)
  {
    assert [Queued(a), Queued(b)] == [Queued(a)] + [Queued(b)];
    OpsConcat([Queued(a)], [Queued(b)]);
    OneOp(a);
    OneOp(b);
    ApplyAllConcat(base, [a], [b]);
  }

  lemma GotOne(s: State, op: Op)
    requires s.core.batch == [] && s.core.position < |s.core.log| && s.core.log[s.core.position] == Queued(op)
    ensures Enabled(s, Turn(GET)) && Next(s, Turn(GET)).core
         == s.core.(position := s.core.position + 1, batch := [op], redisDown := false)
  {
    OneOp(op);
  }

  lemma FlushedOne(s: State, op: Op, outcome: Outcome)
    requires s.core.batch == [op] && !s.core.redisDown && outcome != FailedApplied
    requires outcome == Succeeded ==> Encodable(op)
    ensures Next(s, Turn(IDLE.(outcome := outcome))).core
         == if outcome == Succeeded
            then s.core.(pending := Apply(s.core.pending, op), batch := [], committed := s.core.position)
            else s.core.(batch := [], redisDown := true)
  {
    OneOp(op);
  }

  /**
   Two messages for two paths; the flush of the first fails, the flush of the second succeeds and commits. The first is
   below the committed offset, is missing from the hash, and will not be read again.
   */
  lemma CommitAfterFailedFlushLoses(base: Hash, p: Path, q: Path)
    requires p != q && p !in base && Encodable(HSet(q))
    ensures var log := [Queued(HSet(p)), Queued(HSet(q))];
            var s1 := Next(Start(base, log), Turn(GET));
            var s2 := Next(s1, Turn(IDLE.(outcome := FailedUnapplied)));
            && Enabled(s2, Turn(GET))
            && var s5 := Next(Next(Next(s2, Turn(GET)), Turn(IDLE)), Crash);
               && s5.core.position == s5.core.committed == |log|
               && p !in s5.core.pending
               && p in ApplyAll(base, Ops(log))
  {
    var log := [Queued(HSet(p)), Queued(HSet(q))];
    BothApplied(base, HSet(p), HSet(q));
    var s0 := Start(base, log);
    GotOne(s0, HSet(p));
    var s1 := Next(s0, Turn(GET));
    FlushedOne(s1, HSet(p), FailedUnapplied);
    var s2 := Next(s1, Turn(IDLE.(outcome := FailedUnapplied)));
    GotOne(s2, HSet(q));
    FlushedOne(Next(s2, Turn(GET)), HSet(q), Succeeded);
  }

  /**
   A message the parser would raise on, polled while Redis is down after a failed flush: it is passed over, and the next
   flush commits over it with no exception.
   */
  lemma RaisingMessagePassedOver(base: Hash, p: Path, q: Path)
    requires Encodable(HSet(q))
    ensures var log := [Queued(HSet(p)), Raised, Queued(HSet(q))];
            var down := Next(Next(Start(base, log), Turn(GET)), Turn(IDLE.(outcome := FailedUnapplied)));
            && Enabled(down, Turn(GET.(pingOk := false)))
            && var over := Next(down, Turn(GET.(pingOk := false)));
               && Enabled(over, Turn(GET))
               && Next(Next(over, Turn(GET)), Turn(IDLE)).core.committed == |log|
  {
    var log := [Queued(HSet(p)), Raised, Queued(HSet(q))];
    var s0 := Start(base, log);
    GotOne(s0, HSet(p));
    var s1 := Next(s0, Turn(GET));
    FlushedOne(s1, HSet(p), FailedUnapplied);
    var down := Next(s1, Turn(IDLE.(outcome := FailedUnapplied)));
    PassedOverOne(down);
    var over := Next(down, Turn(GET.(pingOk := false)));
    GotOne(over, HSet(q));
    FlushedOne(Next(over, Turn(GET)), HSet(q), Succeeded);
  }

  lemma PassedOverOne(s: State)
    requires s.core.redisDown && s.core.position < |s.core.log|
    ensures Enabled(s, Turn(GET.(pingOk := false)))
    ensures Next(s, Turn(GET.(pingOk := false))).core == s.core.(position := s.core.position + 1)
  {}
}
