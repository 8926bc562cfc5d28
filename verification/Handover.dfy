/**
 The handover from the consumer to the backup as a protocol: consumer flushes, the steps of any number of backup runs on
 different nodes, and crashes interleave freely. What matters is the fate of one marking of one path. That only one run is
 active at a time is not built in; it is what the lock is for.
 */
module Handover {
  import opened Bytes
  import opened Store
  import opened Repos
  import opened Consumer
  import opened Backup

  type Node = nat

  /**
   Where a run is. `epoch`: how often the work set aside had been replaced or deleted when the run began its scan;
   `stable`: the fields that have been there since then.
   */
  datatype Phase =
    | Begun
    | Renaming
    | Scanning(epoch: nat, stable: set<Path>, seen: seq<Path>)
    | Working(epoch: nat, scanned: seq<Path>, tasks: Tasks, results: map<RepoId, Result>)
    | Restored(epoch: nat)

  datatype State = State(pending: Hash, processing: Hash, epoch: nat, runs: map<Node, Phase>)

  datatype Step =
    | Flush(ops: seq<Op>)
    | Begin(node: Node)
    | CheckProcessing(node: Node)
    | RenamePending(node: Node)
    | Page(node: Node, items: seq<Path>)
    | ScanDone(node: Node, tasks: Tasks)
    | WorkerDone(node: Node, repo: RepoId, env: RepoEnv)
    | Restore(node: Node)
    | Delete(node: Node)
    | Crash(node: Node)

  function Failed(results: map<RepoId, Result>): set<RepoId> {
    set repo | repo in results && Fails(results[repo])
  }

  /** HSCAN may end once it has returned every field that was there throughout. */
  ghost predicate Enabled(cfg: Config, s: State, step: Step) {
    match step
    case Flush(_) => true
    case Begin(node) => node !in s.runs
    case CheckProcessing(node) => node in s.runs && s.runs[node].Begun?
    case RenamePending(node) => node in s.runs && s.runs[node].Renaming?
    case Page(node, items) => node in s.runs && s.runs[node].Scanning? && forall p :: p in items ==> p in s.processing
    case ScanDone(node, tasks) =>
      && node in s.runs && s.runs[node].Scanning?
      && Grouped(cfg, s.runs[node].seen, tasks) && forall p :: p in s.runs[node].stable ==> p in s.runs[node].seen
    case WorkerDone(node, repo, _) =>
      node in s.runs && s.runs[node].Working? && repo in s.runs[node].tasks && repo !in s.runs[node].results
    case Restore(node) =>
      node in s.runs && s.runs[node].Working? && forall repo :: repo in s.runs[node].tasks ==> repo in s.runs[node].results
    case Delete(node) => node in s.runs && s.runs[node].Restored?
    case Crash(node) => node in s.runs
  }

  /** What a change of the work does to a scan under way. */
  function Narrowed(phase: Phase, processing: Hash): Phase {
    if phase.Scanning? then phase.(stable := phase.stable * processing.Keys) else phase
  }

  function Replaced(s: State, pending: Hash, processing: Hash): State {
    State(pending, processing, s.epoch + 1, map node | node in s.runs :: Narrowed(s.runs[node], processing))
  }

  function Moved(s: State, node: Node, phase: Phase): State {
    s.(runs := s.runs[node := phase])
  }

  function Ended(s: State, node: Node): State {
    s.(runs := s.runs - {node})
  }

  ghost function Next(cfg: Config, s: State, step: Step): State
    requires Enabled(cfg, s, step)
  {
    match step
    case Flush(ops) => s.(pending := ApplyAll(s.pending, ops))
    case Begin(node) => Moved(s, node, Begun)
    case CheckProcessing(node) =>
      Moved(s, node, if s.processing != map[] then Scanning(s.epoch, s.processing.Keys, []) else Renaming)
    case RenamePending(node) =>
      // RENAME replaces whatever is there.
      if s.pending == map[] then Ended(s, node)
      else Moved(Replaced(s, map[], s.pending), node, Scanning(s.epoch + 1, s.pending.Keys, []))
    case Page(node, items) => Moved(s, node, s.runs[node].(seen := s.runs[node].seen + items))
    case ScanDone(node, tasks) => Moved(s, node, Working(s.runs[node].epoch, s.runs[node].seen, tasks, map[]))
    case WorkerDone(node, repo, env) =>
      Moved(s, node, s.runs[node].(results := s.runs[node].results[repo := RepoResult(s.runs[node].tasks[repo], env)]))
    case Restore(node) =>
      Moved(s.(pending := Marked(s.pending, PathsIn(s.runs[node].tasks, Failed(s.runs[node].results)))), node,
            Restored(s.runs[node].epoch))
    case Delete(node) => Ended(Replaced(s, s.pending, map[]), node)
    case Crash(node) => Ended(s, node)
  }

  /** What is known of a run; more if the work has not been replaced or deleted since it began to scan. */
  ghost predicate RunInv(cfg: Config, s: State, phase: Phase) {
    match phase
    case Begun => true
    case Renaming => true
    case Scanning(epoch, stable, seen) =>
      epoch <= s.epoch
      && (epoch == s.epoch ==> stable == s.processing.Keys && forall p :: p in seen ==> p in s.processing)
    case Working(epoch, scanned, tasks, results) =>
      epoch <= s.epoch && Grouped(cfg, scanned, tasks) && results.Keys <= tasks.Keys
      && (epoch == s.epoch ==> Scans(scanned, s.processing))
    case Restored(epoch) => epoch <= s.epoch
  }

  ghost predicate Inv(cfg: Config, s: State) {
    forall node :: node in s.runs ==> RunInv(cfg, s, s.runs[node])
  }

  lemma StepKeepsInv(cfg: Config, s: State, step: Step)
    requires Inv(cfg, s) && Enabled(cfg, s, step)
    ensures Inv(cfg, Next(cfg, s, step))
  {
    forall node | node in Next(cfg, s, step).runs
      ensures RunInv(cfg, Next(cfg, s, step), Next(cfg, s, step).runs[node])
    {
      assert node in s.runs ==> RunInv(cfg, s, s.runs[node]);
    }
  }

  /** Without a flush in between, the two first steps are what Backup.SetAside does. */
  lemma FirstStepsSetAside(cfg: Config, s: State, node: Node)
    requires node in s.runs && s.runs[node] == Begun
    ensures var checked := Next(cfg, s, CheckProcessing(node));
            var t := if checked.runs[node].Renaming? then Next(cfg, checked, RenamePending(node)) else checked;
            && t.pending == Rest(s.pending, s.processing)
            && t.processing == Work(s.pending, s.processing)
            && (node in t.runs <==> t.processing != map[])
            && (node in t.runs ==> t.runs[node] == Scanning(t.epoch, t.processing.Keys, []))
  {}

  /** Without a flush in between, the two last steps leave what Backup.Run leaves. */
  lemma LastStepsFinish(cfg: Config, s: State, node: Node, env: RepoId -> RepoEnv)
    requires Enabled(cfg, s, Restore(node)) && s.runs[node].results.Keys <= s.runs[node].tasks.Keys
    requires forall repo :: repo in s.runs[node].results ==>
               && repo in s.runs[node].tasks
               && s.runs[node].results[repo] == RepoResult(s.runs[node].tasks[repo], env(repo))
    ensures var t := Next(cfg, Next(cfg, s, Restore(node)), Delete(node));
            && t.pending == Marked(s.pending, PathsIn(s.runs[node].tasks, FailedRepos(s.runs[node].tasks, env)))
            && t.processing == map[] && node !in t.runs
  {
    assert Failed(s.runs[node].results) == FailedRepos(s.runs[node].tasks, env);
  }

  // ----- The fate of a marking -----

  datatype Fate = InPending | InProcessing | Settled | Lost

  ghost predicate MovesAway(ops: seq<Op>, p: Path) {
    exists i :: 0 <= i < |ops| && ops[i].Move? && ops[i].oldPath == p
  }

  /** A step that settles what is set aside: a scan without a repository for it, or a good worker. */
  ghost predicate SettlesWork(cfg: Config, s: State, step: Step, p: Path)
    requires Enabled(cfg, s, step)
  {
    match step
    case ScanDone(node, _) => p in s.runs[node].seen && RepoOf(cfg, p).None?
    case WorkerDone(node, repo, env) =>
      !Fails(RepoResult(s.runs[node].tasks[repo], env)) && SettledBy(s.runs[node].tasks[repo], env, p)
    case _ => false
  }

  /**
   What the steps do to one marking. It goes to the work set aside when that is renamed, and comes back with a failed
   repository. It is settled by a consumer's rename, by a scan that finds no repository for it, or by a worker that ran
   after it was set aside. Deleting or replacing the work while it is still there loses it, unless its path has been
   marked again.
   */
  ghost function FateNext(cfg: Config, s: State, step: Step, p: Path, fate: Fate): Fate
    requires Enabled(cfg, s, step)
  {
    match fate
    case InPending =>
      if step.RenamePending? && s.pending != map[] then InProcessing
      else if step.Flush? && MovesAway(step.ops, p) && p !in ApplyAll(s.pending, step.ops) then Settled
      else InPending
    case InProcessing =>
      if SettlesWork(cfg, s, step, p) then Settled
      else if step.Restore? && p in PathsIn(s.runs[step.node].tasks, Failed(s.runs[step.node].results)) then InPending
      else if step.Delete? then (if p in s.pending then InPending else Lost)
      else if step.RenamePending? && s.pending != map[] then (if p in s.pending then InProcessing else Lost)
      else InProcessing
    case Settled => Settled
    case Lost => Lost
  }

  /** No run that still reads the present work is about to give the marking up. */
  ghost predicate NotGivenUp(cfg: Config, s: State, phase: Phase, p: Path) {
    match phase
    case Working(epoch, _, _, results) =>
      epoch == s.epoch ==>
        && RepoOf(cfg, p).Some?
        && (RepoOf(cfg, p).value in results ==> Fails(results[RepoOf(cfg, p).value]) || NEWLINE in p)
    case Restored(epoch) => epoch == s.epoch ==> NEWLINE in p
    case _ => true
  }

  /** Where a marking is, it can be found. */
  ghost predicate Accounted(cfg: Config, s: State, p: Path, fate: Fate) {
    match fate
    case InPending => p in s.pending
    case InProcessing =>
      p in s.processing && forall node :: node in s.runs ==> NotGivenUp(cfg, s, s.runs[node], p)
    case Settled => true
    case Lost => false
  }

  lemma {:induction false} RemovedByMove(m: Hash, ops: seq<Op>, p: Path)
    requires p in m && p !in ApplyAll(m, ops)
    ensures MovesAway(ops, p)
    decreases |ops|
  {
    var n := |ops| - 1;
    if p in ApplyAll(m, ops[..n]) {
      assert ops[n].Move? && ops[n].oldPath == p;
    } else {
      RemovedByMove(m, ops[..n], p);
      var i :| 0 <= i < n && ops[..n][i].Move? && ops[..n][i].oldPath == p;
      assert ops[i].Move? && ops[i].oldPath == p;
    }
  }

  lemma WorkerSettles(cfg: Config, s: State, node: Node, repo: RepoId, env: RepoEnv, p: Path)
    requires Inv(cfg, s) && Enabled(cfg, s, WorkerDone(node, repo, env)) && s.runs[node].epoch == s.epoch
    requires p in s.processing && RepoOf(cfg, p) == Some(repo) && NEWLINE !in p
    requires !Fails(RepoResult(s.runs[node].tasks[repo], env))
    ensures SettledBy(s.runs[node].tasks[repo], env, p)
  {
    assert RunInv(cfg, s, s.runs[node]);
    OneTaskEach(cfg, s.runs[node].scanned, s.runs[node].tasks, p, repo);
    GoodWorkerSettles(s.runs[node].tasks[repo], env, p);
  }

  lemma RestoreReturns(cfg: Config, s: State, node: Node, p: Path)
    requires Inv(cfg, s) && Enabled(cfg, s, Restore(node)) && Accounted(cfg, s, p, InProcessing)
    requires s.runs[node].epoch == s.epoch && NEWLINE !in p
    ensures p in PathsIn(s.runs[node].tasks, Failed(s.runs[node].results))
  {
    var run := s.runs[node];
    assert RunInv(cfg, s, run) && NotGivenUp(cfg, s, run, p);
    var repo := RepoOf(cfg, p).value;
    OneTaskEach(cfg, run.scanned, run.tasks, p, repo);
    assert repo in Failed(run.results);
  }

  /** A run deletes the work although it has been replaced or deleted since its scan, or replaces the work of another. */
  ghost predicate Disturbs(cfg: Config, s: State, step: Step)
    requires Enabled(cfg, s, step)
  {
    match step
    case Delete(node) => s.runs[node].epoch != s.epoch
    case RenamePending(_) => s.processing != map[] && s.pending != map[]
    case _ => false
  }

  /**
   Exactly when a step loses a marking that is accounted for: it is set aside, unsettled and not marked again, and the step
   deletes or replaces the work. A run that still reads the present work only does so to a path with a line break.
   */
  lemma LostIff(cfg: Config, s: State, step: Step, p: Path, fate: Fate)
    requires Inv(cfg, s) && Enabled(cfg, s, step) && Accounted(cfg, s, p, fate)
    ensures FateNext(cfg, s, step, p, fate) == Lost <==>
              && fate == InProcessing && p !in s.pending
              && (Disturbs(cfg, s, step) || (step.Delete? && NEWLINE in p))
  {
    if step.Delete? && fate == InProcessing {
      assert NotGivenUp(cfg, s, s.runs[step.node], p);
    }
  }

  lemma StepKeepsAccount(cfg: Config, s: State, step: Step, p: Path, fate: Fate)
    requires Inv(cfg, s) && Enabled(cfg, s, step) && Accounted(cfg, s, p, fate)
    requires FateNext(cfg, s, step, p, fate) != Lost
    ensures Accounted(cfg, Next(cfg, s, step), p, FateNext(cfg, s, step, p, fate))
  {
    if fate == InPending && step.Flush? && p !in ApplyAll(s.pending, step.ops) {
      RemovedByMove(s.pending, step.ops, p);
    }
    if FateNext(cfg, s, step, p, fate) == InProcessing {
      forall node | node in Next(cfg, s, step).runs
        ensures NotGivenUp(cfg, Next(cfg, s, step), Next(cfg, s, step).runs[node], p)
      {
        RunKeepsMarking(cfg, s, step, p, fate, node);
      }
    }
  }

  lemma RunKeepsMarking(cfg: Config, s: State, step: Step, p: Path, fate: Fate, node: Node)
    requires Inv(cfg, s) && Enabled(cfg, s, step) && Accounted(cfg, s, p, fate)
    requires FateNext(cfg, s, step, p, fate) == InProcessing && node in Next(cfg, s, step).runs
    ensures NotGivenUp(cfg, Next(cfg, s, step), Next(cfg, s, step).runs[node], p)
  {
    if node in s.runs {
      assert RunInv(cfg, s, s.runs[node]);
      if fate == InProcessing {
        assert NotGivenUp(cfg, s, s.runs[node], p);
        if step.WorkerDone? && step.node == node && s.runs[node].epoch == s.epoch && RepoOf(cfg, p) == Some(step.repo)
           && NEWLINE !in p && !Fails(RepoResult(s.runs[node].tasks[step.repo], step.env)) {
          WorkerSettles(cfg, s, node, step.repo, step.env, p);
        }
        if step.Restore? && step.node == node && s.runs[node].epoch == s.epoch && NEWLINE !in p {
          RestoreReturns(cfg, s, node, p);
        }
      }
    }
  }

  // ----- Every run -----

  ghost predicate IsRun(cfg: Config, states: seq<State>, steps: seq<Step>) {
    && |states| == |steps| + 1
    && states[0].runs == map[]
    && forall n :: 0 <= n < |steps| ==> Enabled(cfg, states[n], steps[n]) && states[n + 1] == Next(cfg, states[n], steps[n])
  }

  lemma {:induction false} RunKeepsInv(cfg: Config, states: seq<State>, steps: seq<Step>, n: nat)
    requires IsRun(cfg, states, steps) && n < |states|
    ensures Inv(cfg, states[n])
  {
    if n > 0 {
      RunKeepsInv(cfg, states, steps, n - 1);
      StepKeepsInv(cfg, states[n - 1], steps[n - 1]);
    }
  }

  /** The fate at n of the marking that p has in `pending` at i. */
  ghost function FateAt(cfg: Config, states: seq<State>, steps: seq<Step>, p: Path, i: nat, n: nat): Fate
    requires IsRun(cfg, states, steps) && i <= n < |states|
    decreases n
  {
    if n == i then InPending
    else FateNext(cfg, states[n - 1], steps[n - 1], p, FateAt(cfg, states, steps, p, i, n - 1))
  }

  /** In every interleaving a marking that is not lost is where its fate says: an unsettled one is pending or set aside. */
  lemma {:induction false} AccountedUnlessLost(cfg: Config, states: seq<State>, steps: seq<Step>, p: Path, i: nat, n: nat)
    requires IsRun(cfg, states, steps) && i <= n < |states| && p in states[i].pending
    requires FateAt(cfg, states, steps, p, i, n) != Lost
    ensures Accounted(cfg, states[n], p, FateAt(cfg, states, steps, p, i, n))
  {
    if n > i {
      AccountedUnlessLost(cfg, states, steps, p, i, n - 1);
      RunKeepsInv(cfg, states, steps, n - 1);
      StepKeepsAccount(cfg, states[n - 1], steps[n - 1], p, FateAt(cfg, states, steps, p, i, n - 1));
    }
  }

  /** Step k takes away the work with an unsettled marking in it, whose path has not been marked again. */
  ghost predicate LosesAt(cfg: Config, states: seq<State>, steps: seq<Step>, p: Path, i: nat, k: nat)
    requires IsRun(cfg, states, steps) && i <= k < |steps|
  {
    && FateAt(cfg, states, steps, p, i, k) == InProcessing && p !in states[k].pending
    && (Disturbs(cfg, states[k], steps[k]) || (steps[k].Delete? && NEWLINE in p))
  }

  /** Exactly when a marking is lost, in every interleaving of any number of runs. */
  lemma {:induction false} LostInRunIff(cfg: Config, states: seq<State>, steps: seq<Step>, p: Path, i: nat, n: nat)
    requires IsRun(cfg, states, steps) && i <= n < |states| && p in states[i].pending
    ensures FateAt(cfg, states, steps, p, i, n) == Lost <==> exists k :: i <= k < n && LosesAt(cfg, states, steps, p, i, k)
  {
    if n > i {
      LostInRunIff(cfg, states, steps, p, i, n - 1);
      if FateAt(cfg, states, steps, p, i, n - 1) != Lost {
        AccountedUnlessLost(cfg, states, steps, p, i, n - 1);
        RunKeepsInv(cfg, states, steps, n - 1);
        LostIff(cfg, states[n - 1], steps[n - 1], p, FateAt(cfg, states, steps, p, i, n - 1));
        assert FateAt(cfg, states, steps, p, i, n) == Lost <==> LosesAt(cfg, states, steps, p, i, n - 1);
      }
    }
  }

  // ----- One run at a time -----

  ghost predicate Exclusive(s: State) {
    forall a, b :: a in s.runs && b in s.runs ==> a == b
  }

  /** The only run there is reads the present work, and finds none when it goes to rename. */
  ghost predicate Alone(s: State) {
    forall node :: node in s.runs ==>
      match s.runs[node]
      case Begun => true
      case Renaming => s.processing == map[]
      case Scanning(epoch, _, _) => epoch == s.epoch
      case Working(epoch, _, _, _) => epoch == s.epoch
      case Restored(epoch) => epoch == s.epoch
  }

  lemma AloneUndisturbed(cfg: Config, s: State, step: Step)
    requires Exclusive(s) && Alone(s) && Enabled(cfg, s, step) && Exclusive(Next(cfg, s, step))
    ensures Alone(Next(cfg, s, step)) && !Disturbs(cfg, s, step)
  {}

  ghost predicate ExclusiveUpTo(states: seq<State>, n: nat)
    requires n < |states|
  {
    forall k :: 0 <= k <= n ==> Exclusive(states[k])
  }

  lemma {:induction false} ExclusiveUndisturbed(cfg: Config, states: seq<State>, steps: seq<Step>, n: nat)
    requires IsRun(cfg, states, steps) && n < |states| && ExclusiveUpTo(states, n)
    ensures Alone(states[n]) && forall k :: 0 <= k < n ==> !Disturbs(cfg, states[k], steps[k])
  {
    if n > 0 {
      ExclusiveUndisturbed(cfg, states, steps, n - 1);
      assert Exclusive(states[n - 1]) && Exclusive(states[n]);
      AloneUndisturbed(cfg, states[n - 1], steps[n - 1]);
    }
  }

  /** With one run at a time, no marking of a path without a line break is ever lost, whatever flushes and crashes there are. */
  lemma NeverLost(cfg: Config, states: seq<State>, steps: seq<Step>, p: Path, i: nat, n: nat)
    requires IsRun(cfg, states, steps) && i <= n < |states| && p in states[i].pending
    requires ExclusiveUpTo(states, n) && NEWLINE !in p
    ensures FateAt(cfg, states, steps, p, i, n) != Lost
    ensures Accounted(cfg, states[n], p, FateAt(cfg, states, steps, p, i, n))
  {
    ExclusiveUndisturbed(cfg, states, steps, n);
    LostInRunIff(cfg, states, steps, p, i, n);
    AccountedUnlessLost(cfg, states, steps, p, i, n);
  }

  /** A step that settles p: a consumer's rename, a good worker with p missing or on its list, or no repository. */
  ghost predicate Settles(cfg: Config, s: State, step: Step, p: Path)
    requires Enabled(cfg, s, step)
  {
    if step.Flush? then MovesAway(step.ops, p) else p in s.processing && SettlesWork(cfg, s, step, p)
  }

  ghost predicate SettledWithin(cfg: Config, states: seq<State>, steps: seq<Step>, p: Path, i: nat, n: nat)
    requires IsRun(cfg, states, steps) && i <= n < |states|
  {
    exists j :: i <= j < n && Settles(cfg, states[j], steps[j], p)
  }

  lemma {:induction false} SettledMeansSettled(cfg: Config, states: seq<State>, steps: seq<Step>, p: Path, i: nat, n: nat)
    requires IsRun(cfg, states, steps) && i <= n < |states| && p in states[i].pending
    requires FateAt(cfg, states, steps, p, i, n) == Settled
    ensures SettledWithin(cfg, states, steps, p, i, n)
  {
    if FateAt(cfg, states, steps, p, i, n - 1) == Settled {
      SettledMeansSettled(cfg, states, steps, p, i, n - 1);
    } else {
      AccountedUnlessLost(cfg, states, steps, p, i, n - 1);
      assert Settles(cfg, states[n - 1], steps[n - 1], p);
    }
  }

  /** Each marking is still pending or set aside, or has been settled since, or was lost by a step that takes the work away. */
  lemma MarkingsAccountedFor(cfg: Config, states: seq<State>, steps: seq<Step>, p: Path, i: nat, n: nat)
    requires IsRun(cfg, states, steps) && i <= n < |states| && p in states[i].pending
    ensures p in states[n].pending || p in states[n].processing || SettledWithin(cfg, states, steps, p, i, n)
         || exists k :: i <= k < n && LosesAt(cfg, states, steps, p, i, k)
    ensures ExclusiveUpTo(states, n) && NEWLINE !in p ==>
              p in states[n].pending || p in states[n].processing || SettledWithin(cfg, states, steps, p, i, n)
  {
    LostInRunIff(cfg, states, steps, p, i, n);
    if FateAt(cfg, states, steps, p, i, n) != Lost {
      AccountedUnlessLost(cfg, states, steps, p, i, n);
    }
    if FateAt(cfg, states, steps, p, i, n) == Settled {
      SettledMeansSettled(cfg, states, steps, p, i, n);
    }
    if ExclusiveUpTo(states, n) && NEWLINE !in p {
      NeverLost(cfg, states, steps, p, i, n);
    }
  }

  /** A marking made after the rename stays pending however the runs end, unless the consumer itself moves it away. */
  lemma {:induction false} LaterMarkingsUntouched(cfg: Config, states: seq<State>, steps: seq<Step>, p: Path, i: nat, n: nat)
    requires IsRun(cfg, states, steps) && i <= n < |states| && p in states[i].pending
    requires forall j :: i <= j < n ==> !steps[j].RenamePending?
    ensures p in states[n].pending
         || exists j :: i <= j < n && steps[j].Flush? && MovesAway(steps[j].ops, p)
  {
    if n > i {
      LaterMarkingsUntouched(cfg, states, steps, p, i, n - 1);
      if p in states[n - 1].pending && p !in states[n].pending {
        RemovedByMove(states[n - 1].pending, steps[n - 1].ops, p);
      }
    }
  }

  // ----- Two runs at a time -----

  lemma NoTasks(cfg: Config, q: Path)
    requires RepoOf(cfg, q).None?
    ensures Grouped(cfg, [q], map[])
  {
    forall repo: RepoId ensures PathsOf(cfg, [q], repo) == [] {
    }
  }

  lemma TakesOver(cfg: Config, s: State, node: Node)
    requires node !in s.runs && s.processing != map[]
    ensures var begun := Next(cfg, s, Begin(node));
            && Enabled(cfg, begun, CheckProcessing(node))
            && Next(cfg, begun, CheckProcessing(node)) == Moved(s, node, Scanning(s.epoch, s.processing.Keys, []))
  {}

  lemma ScansOne(cfg: Config, s: State, node: Node, q: Path)
    requires node in s.runs && s.runs[node] == Scanning(s.epoch, {q}, []) && q in s.processing && RepoOf(cfg, q).None?
    ensures Enabled(cfg, s, Page(node, [q]))
    ensures var paged := Next(cfg, s, Page(node, [q]));
            && Enabled(cfg, paged, ScanDone(node, map[]))
            && Next(cfg, paged, ScanDone(node, map[])) == Moved(s, node, Working(s.epoch, [q], map[], map[]))
  {
    NoTasks(cfg, q);
    assert [] + [q] == [q];
  }

  lemma RestoresNothing(cfg: Config, s: State, node: Node, q: Path)
    requires node in s.runs && s.runs[node] == Working(s.epoch, [q], map[], map[])
    ensures Enabled(cfg, s, Restore(node)) && Next(cfg, s, Restore(node)) == Moved(s, node, Restored(s.epoch))
  {
    assert PathsIn(map[], Failed(map[])) == {};
    assert Marked(s.pending, {}) == s.pending;
  }

  /**
   Two runs at a time, which have both taken over the same work and are about to delete it. b does, and starts again; p is
   marked, and b sets it aside. Now a deletes what b has set aside, and p is nowhere.
   */
  lemma StaleDeleteLoses(cfg: Config, s: State, a: Node, b: Node, p: Path)
    requires a != b && s.runs == map[a := Restored(s.epoch), b := Restored(s.epoch)]
    ensures Enabled(cfg, s, Delete(b))
    ensures var marked := Next(cfg, Next(cfg, s, Delete(b)), Flush([HSet(p)]));
            && p in marked.pending && Enabled(cfg, marked, Begin(b))
            && var aside := SetsAside(cfg, marked, b);
               && p in aside.processing
               && Enabled(cfg, aside, Delete(a)) && Disturbs(cfg, aside, Delete(a))
               && p !in Next(cfg, aside, Delete(a)).pending && p !in Next(cfg, aside, Delete(a)).processing
  {
    var deleted := Next(cfg, s, Delete(b));
    assert deleted.runs == map[a := Restored(s.epoch)];
    OneOp(HSet(p));
    var marked := Next(cfg, deleted, Flush([HSet(p)]));
    assert marked.pending == s.pending[p := MtimeChange] && p in marked.pending;
  }

  /** A run that finds no work begins, checks and renames. */
  ghost function SetsAside(cfg: Config, s: State, node: Node): (t: State)
    requires node !in s.runs && s.processing == map[] && s.pending != map[]
    ensures t == Moved(Replaced(s, map[], s.pending), node, Scanning(s.epoch + 1, s.pending.Keys, []))
  {
    var checked := Next(cfg, Next(cfg, s, Begin(node)), CheckProcessing(node));
    assert checked == Moved(s, node, Renaming);
    var t := Next(cfg, checked, RenamePending(node));
    assert t.runs.Keys == s.runs.Keys + {node};
    t
  }
}
