/**
 One backup run: what was pending is set aside, scanned, grouped by repository, backed up by parallel workers whose
 results arrive in any order, and put back where a repository failed.
 */
module Backup {
  import opened Bytes
  import opened Store
  import opened Repos

  datatype Config = Config(base: Path, depth: nat)

  type Tasks = map<RepoId, seq<Path>>

  function RepoOf(cfg: Config, path: Path): Option<RepoId> {
    GetRepoId(path, cfg.base, cfg.depth)
  }

  // ----- Grouping -----

  /** The paths of one repository, in scan order and as often as they were scanned. */
  function PathsOf(cfg: Config, scanned: seq<Path>, repo: RepoId): (paths: seq<Path>)
    ensures forall p :: p in paths <==> p in scanned && RepoOf(cfg, p) == Some(repo)
  {
    if scanned == [] then []
    else
      var n := |scanned| - 1;
      assert scanned == scanned[..n] + [scanned[n]];
      PathsOf(cfg, scanned[..n], repo) + (if RepoOf(cfg, scanned[n]) == Some(repo) then [scanned[n]] else [])
  }

  function Unmapped(cfg: Config, scanned: seq<Path>): nat {
    if scanned == [] then 0
    else
      var n := |scanned| - 1;
      Unmapped(cfg, scanned[..n]) + (if RepoOf(cfg, scanned[n]).None? then 1 else 0)
  }

  /** There is a task for each repository with a scanned path, and it holds exactly that repository's paths. */
  ghost predicate Grouped(cfg: Config, scanned: seq<Path>, tasks: Tasks) {
    forall repo: RepoId {:trigger PathsOf(cfg, scanned, repo)} ::
      && (repo in tasks <==> PathsOf(cfg, scanned, repo) != [])
      && (repo in tasks ==> tasks[repo] == PathsOf(cfg, scanned, repo))
  }

  function Flatten(pages: seq<seq<Path>>): seq<Path> {
    if pages == [] then [] else Flatten(pages[..|pages| - 1]) + pages[|pages| - 1]
  }

  function AddPath(tasks: Tasks, repo: RepoId, path: Path): Tasks {
    tasks[repo := (if repo in tasks then tasks[repo] else []) + [path]]
  }

  lemma OneMorePath(cfg: Config, scanned: seq<Path>, path: Path, tasks: Tasks)
    requires Grouped(cfg, scanned, tasks)
    ensures Unmapped(cfg, scanned + [path]) == Unmapped(cfg, scanned) + (if RepoOf(cfg, path).None? then 1 else 0)
    ensures RepoOf(cfg, path).None? ==> Grouped(cfg, scanned + [path], tasks)
    ensures RepoOf(cfg, path).Some? ==>
              Grouped(cfg, scanned + [path], AddPath(tasks, RepoOf(cfg, path).value, path))
  {
    var longer := scanned + [path];
    assert longer[..|scanned|] == scanned;
    forall repo: RepoId
      ensures PathsOf(cfg, longer, repo)
           == PathsOf(cfg, scanned, repo) + (if RepoOf(cfg, path) == Some(repo) then [path] else [])
    {
    }
  }

  /** The scan: pages of the hash, the paths of each put into their tasks. */
  method Scan(cfg: Config, pages: seq<seq<Path>>) returns (tasks: Tasks, skipped: nat, total: nat)
    ensures Grouped(cfg, Flatten(pages), tasks)
    ensures skipped == Unmapped(cfg, Flatten(pages)) && total == |Flatten(pages)|
  {
    tasks, skipped, total := map[], 0, 0;
    ghost var seen: seq<Path> := [];
    for i := 0 to |pages|
      invariant seen == Flatten(pages[..i])
      invariant Grouped(cfg, seen, tasks) && skipped == Unmapped(cfg, seen) && total == |seen|
    {
      var items := pages[i];
      for j := 0 to |items|
        invariant seen == Flatten(pages[..i]) + items[..j]
        invariant Grouped(cfg, seen, tasks) && skipped == Unmapped(cfg, seen) && total == |seen|
      {
        var path := items[j];
        OneMorePath(cfg, seen, path, tasks);
        total := total + 1;
        seen := seen + [path];
        var repo := RepoOf(cfg, path);
        if repo.None? {
          skipped := skipped + 1;
        } else {
          tasks := AddPath(tasks, repo.value, path);
        }
      }
      assert items[..|items|] == items;
      assert pages[..i + 1][..i] == pages[..i];
    }
    assert pages[..|pages|] == pages;
  }

  /** Each scanned path that has a repository is in that repository's task and in no other. */
  lemma OneTaskEach(cfg: Config, scanned: seq<Path>, tasks: Tasks, p: Path, repo: RepoId)
    requires Grouped(cfg, scanned, tasks)
    ensures repo in tasks && p in tasks[repo] <==> p in scanned && RepoOf(cfg, p) == Some(repo)
  {
    assert p in PathsOf(cfg, scanned, repo) <==> p in scanned && RepoOf(cfg, p) == Some(repo);
  }

  // ----- One repository -----

  datatype Ensured = Ready | NotReady | EnsureRaises

  datatype Attempt = Exit(code: int) | Raises

  /** What the environment does to one worker: the repository, the files that exist, and restic's attempts. */
  datatype RepoEnv = RepoEnv(ensured: Ensured, present: Path -> bool, attempts: nat -> Attempt)

  datatype Result = Done(backedUp: nat, skipped: nat, errors: nat) | Raised

  const MAX_RETRIES: nat := 3

  predicate Good(a: Attempt) { a == Exit(0) || a == Exit(3) }

  /** Attempt k is made and is the last one, because it succeeds or raises. */
  predicate EndsAt(attempts: nat -> Attempt, k: nat) {
    && 1 <= k <= MAX_RETRIES
    && (Good(attempts(k)) || attempts(k).Raises?)
    && forall j: nat :: 1 <= j < k ==> attempts(j).Exit? && !Good(attempts(j))
  }

  predicate Succeeds(attempts: nat -> Attempt) {
    exists k: nat :: 1 <= k <= MAX_RETRIES && EndsAt(attempts, k) && Good(attempts(k))
  }

  predicate Breaks(attempts: nat -> Attempt) {
    exists k: nat :: 1 <= k <= MAX_RETRIES && EndsAt(attempts, k) && attempts(k).Raises?
  }

  function Existing(paths: seq<Path>, present: Path -> bool): (existing: seq<Path>)
    ensures |existing| <= |paths|
    ensures forall p :: p in existing <==> p in paths && present(p)
  {
    if paths == [] then []
    else
      assert paths == [paths[0]] + paths[1..];
      (if present(paths[0]) then [paths[0]] else []) + Existing(paths[1..], present)
  }

  function RepoResult(paths: seq<Path>, env: RepoEnv): Result {
    var existing := Existing(paths, env.present);
    var skipped := |paths| - |existing|;
    if env.ensured == EnsureRaises then Raised
    else if env.ensured == NotReady then Done(0, 0, |paths|)
    else if existing == [] then Done(0, skipped, 0)
    else if Succeeds(env.attempts) then Done(|existing|, skipped, 0)
    else if Breaks(env.attempts) then Raised
    else Done(0, skipped, |existing|)
  }

  /** The lines of the file that lists the paths for restic. */
  function Lines(paths: seq<Path>): seq<Path> {
    Split(Join(paths, NEWLINE), NEWLINE)
  }

  /** The worker found the file missing, or ran restic with success and with the path on a line of its list. */
  ghost predicate SettledBy(paths: seq<Path>, env: RepoEnv, p: Path) {
    && p in paths && env.ensured == Ready
    && (!env.present(p) || (p in Lines(Existing(paths, env.present)) && Succeeds(env.attempts)))
  }

  predicate Fails(result: Result) {
    result.Done? ==> result.errors > 0
  }

  method BackupRepo(paths: seq<Path>, env: RepoEnv) returns (result: Result)
    ensures result == RepoResult(paths, env)
  {
    if env.ensured == EnsureRaises {
      return Raised;
    }
    if env.ensured == NotReady {
      return Done(0, 0, |paths|);
    }
    var existing := Existing(paths, env.present);
    result := Done(0, |paths| - |existing|, 0);
    if existing == [] {
      return;
    }
    var attempt := 1;
    while attempt <= MAX_RETRIES
      invariant 1 <= attempt <= MAX_RETRIES + 1
      invariant forall j: nat :: 1 <= j < attempt ==> env.attempts(j).Exit? && !Good(env.attempts(j))
      invariant result == Done(0, |paths| - |existing|, if attempt > MAX_RETRIES then |existing| else 0)
    {
      var status := env.attempts(attempt);
      if status.Raises? {
        assert EndsAt(env.attempts, attempt);
        return Raised;
      }
      if status.code == 0 || status.code == 3 {
        assert EndsAt(env.attempts, attempt);
        return result.(backedUp := |existing|);
      }
      if attempt == MAX_RETRIES {
        result := result.(errors := |existing|);
      }
      attempt := attempt + 1;
    }
  }

  predicate Well(a: Attempt) { a in {Exit(0), Exit(3)} }

  predicate Poor(a: Attempt) { a.Exit? && a.code !in {0, 3} }

  /** Success is an exit code of 0 or 3 in one of three attempts, the earlier ones having ended with other codes. */
  lemma SucceedsIff(attempts: nat -> Attempt)
    ensures Succeeds(attempts) <==> (
              || Well(attempts(1))
              || (Poor(attempts(1)) && Well(attempts(2)))
              || (Poor(attempts(1)) && Poor(attempts(2)) && Well(attempts(3))))
    ensures Breaks(attempts) <==> (
              || attempts(1).Raises?
              || (Poor(attempts(1)) && attempts(2).Raises?)
              || (Poor(attempts(1)) && Poor(attempts(2)) && attempts(3).Raises?))
  {
    EndsAtFirst(attempts);
    EndsAtSecond(attempts);
    EndsAtThird(attempts);
    forall k: nat | 1 <= k <= MAX_RETRIES && EndsAt(attempts, k) ensures k == 1 || k == 2 || k == 3 {}
  }

  lemma EndsAtFirst(attempts: nat -> Attempt)
    ensures EndsAt(attempts, 1) <==> Well(attempts(1)) || attempts(1).Raises?
  {}

  lemma EndsAtSecond(attempts: nat -> Attempt)
    ensures EndsAt(attempts, 2) <==> Poor(attempts(1)) && (Well(attempts(2)) || attempts(2).Raises?)
  {}

  lemma EndsAtThird(attempts: nat -> Attempt)
    ensures EndsAt(attempts, 3) <==>
              Poor(attempts(1)) && Poor(attempts(2)) && (Well(attempts(3)) || attempts(3).Raises?)
  {}

  /** The worker hands restic each path that exists as often as it was scanned. */
  lemma {:induction false} ExistingCounted(paths: seq<Path>, present: Path -> bool, p: Path)
    ensures multiset(Existing(paths, present))[p] == if present(p) then multiset(paths)[p] else 0
  {
    if paths != [] {
      assert paths == [paths[0]] + paths[1..];
      ExistingCounted(paths[1..], present, p);
    }
  }

  /** A worker that returns accounts for every path; unless it fails, each path is gone or was handed to a good restic run. */
  lemma RepoAccounts(paths: seq<Path>, env: RepoEnv)
    requires paths != []
    ensures var result := RepoResult(paths, env);
            && (result.Done? ==> result.backedUp + result.skipped + result.errors == |paths|)
            && (Fails(result) <==>
                  env.ensured != Ready || ((exists p :: p in paths && env.present(p)) && !Succeeds(env.attempts)))
            && (!Fails(result) ==> forall p :: p in paths ==> !env.present(p) || Succeeds(env.attempts))
  {
    var existing := Existing(paths, env.present);
    if existing != [] {
      assert existing[0] in paths && env.present(existing[0]);
    }
  }

  /** A worker that does not fail settles its paths, except those with a line break that it finds present. */
  lemma GoodWorkerSettles(paths: seq<Path>, env: RepoEnv, p: Path)
    requires p in paths && !Fails(RepoResult(paths, env))
    ensures env.ensured == Ready
    ensures SettledBy(paths, env, p) <==> NEWLINE !in p || !env.present(p)
  {
    RepoAccounts(paths, env);
    if env.present(p) {
      ListedIff(Existing(paths, env.present), p);
    }
  }

  // ----- Totals -----

  datatype Totals = Totals(backedUp: nat, skipped: nat, errors: nat)

  function Plus(a: Totals, b: Totals): Totals {
    Totals(a.backedUp + b.backedUp, a.skipped + b.skipped, a.errors + b.errors)
  }

  /** What one repository adds; an exception counts all of its paths as errors. */
  function Share(result: Result, n: nat): Totals {
    match result
    case Done(backedUp, skipped, errors) => Totals(backedUp, skipped, errors)
    case Raised => Totals(0, 0, n)
  }

  function Shares(tasks: Tasks, env: RepoId -> RepoEnv): RepoId -> Totals {
    repo => if repo in tasks then Share(RepoResult(tasks[repo], env(repo)), |tasks[repo]|) else Totals(0, 0, 0)
  }

  function Sum(order: seq<RepoId>, share: RepoId -> Totals): Totals {
    if order == [] then Totals(0, 0, 0) else Plus(Sum(order[..|order| - 1], share), share(order[|order| - 1]))
  }

  /** How many of the paths exist. */
  function Found(paths: seq<Path>, env: RepoEnv): nat {
    |Existing(paths, env.present)|
  }

  /** Backed up are the existing paths of a repository that is ready and for which restic succeeds. */
  function BackedUpOf(paths: seq<Path>, env: RepoEnv): nat {
    if env.ensured == Ready && Succeeds(env.attempts) then Found(paths, env) else 0
  }

  /** In error are all paths if something raises or the repository is not ready, and the existing ones if restic fails. */
  function ErrorsOf(paths: seq<Path>, env: RepoEnv): nat {
    if env.ensured != Ready then |paths|
    else if Found(paths, env) == 0 || Succeeds(env.attempts) then 0
    else if Breaks(env.attempts) then |paths|
    else Found(paths, env)
  }

  /** What a repository adds to the totals; skipped are the paths that are neither. */
  lemma ShareIs(paths: seq<Path>, env: RepoEnv)
    ensures var share := Share(RepoResult(paths, env), |paths|);
            && share.backedUp == BackedUpOf(paths, env) && share.errors == ErrorsOf(paths, env)
            && share.skipped == |paths| - BackedUpOf(paths, env) - ErrorsOf(paths, env)
  {}

  function SumOf(order: seq<RepoId>, amount: RepoId -> nat): nat {
    if order == [] then 0 else SumOf(order[..|order| - 1], amount) + amount(order[|order| - 1])
  }

  function BackedUpIn(tasks: Tasks, env: RepoId -> RepoEnv): RepoId -> nat {
    repo => if repo in tasks then BackedUpOf(tasks[repo], env(repo)) else 0
  }

  function ErrorsIn(tasks: Tasks, env: RepoId -> RepoEnv): RepoId -> nat {
    repo => if repo in tasks then ErrorsOf(tasks[repo], env(repo)) else 0
  }

  /** The totals are what is backed up and what is in error in each repository, added up. */
  lemma {:induction false} TotalsByRepo(tasks: Tasks, env: RepoId -> RepoEnv, order: seq<RepoId>)
    ensures var sum := Sum(order, Shares(tasks, env));
            sum.backedUp == SumOf(order, BackedUpIn(tasks, env)) && sum.errors == SumOf(order, ErrorsIn(tasks, env))
  {
    if order != [] {
      var n := |order| - 1;
      TotalsByRepo(tasks, env, order[..n]);
      if order[n] in tasks {
        ShareIs(tasks[order[n]], env(order[n]));
      }
    }
  }

  ghost predicate Distinct<T>(list: seq<T>) {
    forall i, j :: 0 <= i < j < |list| ==> list[i] != list[j]
  }

  /** The order names each repository with a scanned path once. */
  ghost predicate Completes(cfg: Config, scanned: seq<Path>, order: seq<RepoId>) {
    Distinct(order) && forall repo :: repo in order <==> PathsOf(cfg, scanned, repo) != []
  }

  function Without<T>(list: seq<T>, k: nat): seq<T>
    requires k < |list|
  {
    list[..k] + list[k + 1..]
  }

  lemma {:induction false} SumWithout(order: seq<RepoId>, k: nat, share: RepoId -> Totals)
    requires k < |order|
    ensures Sum(order, share) == Plus(Sum(Without(order, k), share), share(order[k]))
    decreases |order|
  {
    var n := |order| - 1;
    if k == n {
      assert Without(order, k) == order[..n];
    } else {
      SumWithout(order[..n], k, share);
      WithoutKeepsLast(order, k);
      PlusExchanged(Sum(Without(order[..n], k), share), share(order[k]), share(order[n]));
    }
  }

  lemma WithoutKeepsLast<T>(list: seq<T>, k: nat)
    requires k < |list| - 1
    ensures var n := |list| - 1; Without(list, k)[..n - 1] == Without(list[..n], k) && Without(list, k)[n - 1] == list[n]
  {}

  lemma PlusExchanged(a: Totals, b: Totals, c: Totals)
    ensures Plus(Plus(a, b), c) == Plus(Plus(a, c), b)
  {}

  lemma WithoutIsRest<T>(list: seq<T>, k: nat)
    requires Distinct(list) && k < |list|
    ensures Distinct(Without(list, k))
    ensures forall x :: x in Without(list, k) <==> x in list && x != list[k]
  {
    var rest := Without(list, k);
    forall x | x in list && x != list[k] ensures x in rest {
      var i :| 0 <= i < |list| && list[i] == x;
      assert rest[if i < k then i else i - 1] == x;
    }
  }

  lemma HasElement<T>(list: seq<T>)
    requires list != []
    ensures exists x :: x in list
  {
    assert list[0] in list;
  }

  /** Workers may finish in any order: the totals are the same. */
  lemma {:induction false} SumAnyOrder(a: seq<RepoId>, b: seq<RepoId>, share: RepoId -> Totals)
    requires Distinct(a) && Distinct(b) && forall repo :: repo in a <==> repo in b
    ensures Sum(a, share) == Sum(b, share)
    decreases |a|
  {
    if a == [] {
      if b != [] {
        HasElement(b);
      }
    } else {
      var n := |a| - 1;
      assert a[n] in b;
      var k :| 0 <= k < |b| && b[k] == a[n];
      assert Without(a, n) == a[..n];
      WithoutIsRest(a, n);
      WithoutIsRest(b, k);
      SumAnyOrder(a[..n], Without(b, k), share);
      SumWithout(b, k, share);
    }
  }

  function SumLengths(cfg: Config, scanned: seq<Path>, order: seq<RepoId>): nat {
    if order == [] then 0
    else SumLengths(cfg, scanned, order[..|order| - 1]) + |PathsOf(cfg, scanned, order[|order| - 1])|
  }

  lemma {:induction false} NothingToSum(cfg: Config, order: seq<RepoId>)
    ensures SumLengths(cfg, [], order) == 0
  {
    if order != [] {
      NothingToSum(cfg, order[..|order| - 1]);
    }
  }

  /** One more path lengthens exactly one list. */
  lemma {:induction false} OneListLonger(cfg: Config, scanned: seq<Path>, path: Path, order: seq<RepoId>)
    requires Distinct(order)
    ensures SumLengths(cfg, scanned + [path], order) == SumLengths(cfg, scanned, order)
              + (if RepoOf(cfg, path).Some? && RepoOf(cfg, path).value in order then 1 else 0)
    decreases |order|
  {
    if order != [] {
      var n := |order| - 1;
      assert order == order[..n] + [order[n]];
      OneListLonger(cfg, scanned, path, order[..n]);
      assert (scanned + [path])[..|scanned|] == scanned;
    }
  }

  lemma {:induction false} ListsPartition(cfg: Config, scanned: seq<Path>, order: seq<RepoId>)
    requires Distinct(order)
    requires forall p :: p in scanned && RepoOf(cfg, p).Some? ==> RepoOf(cfg, p).value in order
    ensures SumLengths(cfg, scanned, order) + Unmapped(cfg, scanned) == |scanned|
    decreases |scanned|
  {
    if scanned == [] {
      NothingToSum(cfg, order);
    } else {
      var n := |scanned| - 1;
      assert scanned == scanned[..n] + [scanned[n]];
      ListsPartition(cfg, scanned[..n], order);
      OneListLonger(cfg, scanned[..n], scanned[n], order);
    }
  }

  lemma {:induction false} SharesAddUp(cfg: Config, scanned: seq<Path>, tasks: Tasks, env: RepoId -> RepoEnv,
                                       order: seq<RepoId>)
    requires Grouped(cfg, scanned, tasks) && forall repo :: repo in order ==> repo in tasks
    ensures var sum := Sum(order, Shares(tasks, env));
            sum.backedUp + sum.skipped + sum.errors == SumLengths(cfg, scanned, order)
    decreases |order|
  {
    if order != [] {
      var n := |order| - 1;
      SharesAddUp(cfg, scanned, tasks, env, order[..n]);
      assert order[n] in order;
      assert tasks[order[n]] == PathsOf(cfg, scanned, order[n]);
      RepoAccounts(tasks[order[n]], env(order[n]));
    }
  }

  /** Every scanned path is counted once: backed up, skipped, in error, or without a repository. */
  lemma TotalsAccount(cfg: Config, scanned: seq<Path>, tasks: Tasks, env: RepoId -> RepoEnv, order: seq<RepoId>)
    requires Grouped(cfg, scanned, tasks) && Completes(cfg, scanned, order)
    ensures var sum := Sum(order, Shares(tasks, env));
            sum.backedUp + sum.skipped + sum.errors + Unmapped(cfg, scanned) == |scanned|
  {
    forall p | p in scanned && RepoOf(cfg, p).Some? ensures RepoOf(cfg, p).value in order {
      OneTaskEach(cfg, scanned, tasks, p, RepoOf(cfg, p).value);
    }
    ListsPartition(cfg, scanned, order);
    SharesAddUp(cfg, scanned, tasks, env, order);
  }

  // ----- Putting back -----

  function Elements<T(==)>(list: seq<T>): set<T> {
    set x | x in list
  }

  function Marked(m: Hash, paths: set<Path>): Hash {
    map p | p in m.Keys + paths :: if p in paths then Retry else m[p]
  }

  function PathsIn(tasks: Tasks, repos: set<RepoId>): set<Path> {
    set repo, p | repo in repos && repo in tasks && p in tasks[repo] :: p
  }

  function FailedRepos(tasks: Tasks, env: RepoId -> RepoEnv): set<RepoId> {
    set repo | repo in tasks && Fails(RepoResult(tasks[repo], env(repo)))
  }

  lemma MarkedMore(m: Hash, paths: set<Path>, path: Path)
    ensures Marked(m, paths)[path := Retry] == Marked(m, paths + {path})
  {}

  /** Marking for the next run adds the given paths and replaces their markers, and leaves all other fields alone. */
  lemma MarkedAt(m: Hash, paths: set<Path>, p: Path)
    ensures p in Marked(m, paths) <==> p in m || p in paths
    ensures p in paths ==> Marked(m, paths)[p] == Retry
    ensures p in m && p !in paths ==> Marked(m, paths)[p] == m[p]
  {}

  /** The paths put back are those in the tasks of failed repositories. */
  lemma PutBackIff(tasks: Tasks, env: RepoId -> RepoEnv, p: Path)
    ensures p in PathsIn(tasks, FailedRepos(tasks, env)) <==>
              exists repo :: repo in tasks && p in tasks[repo] && ErrorsOf(tasks[repo], env(repo)) > 0
  {
    forall repo | repo in tasks && tasks[repo] != []
      ensures Fails(RepoResult(tasks[repo], env(repo))) <==> ErrorsOf(tasks[repo], env(repo)) > 0
    {
      ShareIs(tasks[repo], env(repo));
    }
  }

  /** The paths of the failed repositories, marked for the next run in one pipeline. */
  method PutBack(redis: Redis, tasks: Tasks, failed: seq<RepoId>)
    requires forall repo :: repo in failed ==> repo in tasks
    modifies redis`pending
    ensures redis.pending == Marked(old(redis.pending), PathsIn(tasks, Elements(failed)))
  {
    var m := redis.pending;
    ghost var done: set<Path> := {};
    assert m == Marked(m, {});
    for i := 0 to |failed|
      modifies {}
      invariant done == PathsIn(tasks, Elements(failed[..i]))
      invariant m == Marked(redis.pending, done)
    {
      var paths := tasks[failed[i]];
      ghost var before := done;
      for j := 0 to |paths|
        modifies {}
        invariant done == before + Elements(paths[..j])
        invariant m == Marked(redis.pending, done)
      {
        MarkedMore(redis.pending, done, paths[j]);
        m := m[paths[j] := Retry];
        done := done + {paths[j]};
        assert paths[..j + 1] == paths[..j] + [paths[j]];
      }
      assert paths[..|paths|] == paths;
      OneMoreRepo(tasks, failed, i);
    }
    assert failed[..|failed|] == failed;
    redis.pending := m;
  }

  lemma OneMoreRepo(tasks: Tasks, repos: seq<RepoId>, i: nat)
    requires i < |repos| && repos[i] in tasks
    ensures PathsIn(tasks, Elements(repos[..i + 1]))
         == PathsIn(tasks, Elements(repos[..i])) + Elements(tasks[repos[i]])
  {
    assert repos[..i + 1] == repos[..i] + [repos[i]];
    var a, b := Elements(repos[..i + 1]), Elements(repos[..i]);
    assert a == b + {repos[i]};
  }

  // ----- The run -----

  /** What a run works on: an interrupted run's hash, or else what is pending. */
  function Work(pending: Hash, processing: Hash): Hash {
    if processing != map[] then processing else pending
  }

  /** What stays pending meanwhile. */
  function Rest(pending: Hash, processing: Hash): Hash {
    if processing != map[] then pending else map[]
  }

  /**
   A run leaves a path pending exactly if it was marked while a leftover was worked on, or if it was worked on and its
   repository had errors.
   */
  lemma PendingAfterRunIff(cfg: Config, scanned: seq<Path>, pending: Hash, processing: Hash, tasks: Tasks,
                           env: RepoId -> RepoEnv, p: Path)
    requires Scans(scanned, Work(pending, processing)) && Grouped(cfg, scanned, tasks)
    ensures p in Marked(Rest(pending, processing), PathsIn(tasks, FailedRepos(tasks, env))) <==> (
              || (processing != map[] && p in pending)
              || (p in (if processing == map[] then pending else processing) && InError(cfg, scanned, env, p)))
  {
    PutBackIff(tasks, env, p);
    if RepoOf(cfg, p).Some? {
      OneTaskEach(cfg, scanned, tasks, p, RepoOf(cfg, p).value);
    }
    forall repo | repo in tasks ensures p in tasks[repo] ==> RepoOf(cfg, p) == Some(repo) && p in scanned {
      OneTaskEach(cfg, scanned, tasks, p, repo);
    }
  }

  /** The path has a repository, and that has errors. */
  ghost predicate InError(cfg: Config, scanned: seq<Path>, env: RepoId -> RepoEnv, p: Path) {
    && RepoOf(cfg, p).Some?
    && ErrorsOf(PathsOf(cfg, scanned, RepoOf(cfg, p).value), env(RepoOf(cfg, p).value)) > 0
  }

  /** HSCAN returns every field of a hash that does not change meanwhile, possibly more than once, and nothing else. */
  ghost predicate Scans(scanned: seq<Path>, hash: Hash) {
    forall p: Path :: p in scanned <==> p in hash
  }

  /** The workers' results, taken in the order they come in. */
  method Collect(tasks: Tasks, env: RepoId -> RepoEnv, order: seq<RepoId>)
      returns (totals: Totals, failed: seq<RepoId>)
    requires forall repo :: repo in order ==> repo in tasks
    ensures totals == Sum(order, Shares(tasks, env))
    ensures forall repo :: repo in failed <==> repo in order && Fails(RepoResult(tasks[repo], env(repo)))
  {
    totals, failed := Totals(0, 0, 0), [];
    for i := 0 to |order|
      invariant totals == Sum(order[..i], Shares(tasks, env))
      invariant forall repo :: repo in failed <==> repo in order[..i] && Fails(RepoResult(tasks[repo], env(repo)))
    {
      var repo := order[i];
      assert order[..i + 1] == order[..i] + [repo] && order[..i + 1][..i] == order[..i];
      var result := BackupRepo(tasks[repo], env(repo));
      match result
      case Done(backedUp, skipped, errors) =>
        totals := Totals(totals.backedUp + backedUp, totals.skipped + skipped, totals.errors + errors);
        if errors > 0 {
          failed := failed + [repo];
        }
      case Raised =>
        totals := totals.(errors := totals.errors + |tasks[repo]|);
        failed := failed + [repo];
    }
    assert order[..|order|] == order;
  }

  /**
   The run under the lock, undisturbed. `pages` is what HSCAN returns, `order` how the workers finish. The outcome does
   not depend on the order: the failed repositories' paths are pending again, and the totals account for the scan.
   */
  method Run(redis: Redis, cfg: Config, pages: seq<seq<Path>>, env: RepoId -> RepoEnv, order: seq<RepoId>)
      returns (ran: bool, totals: Totals, skipped: nat, ghost tasks: Tasks)
    requires Scans(Flatten(pages), Work(redis.pending, redis.processing))
    requires Completes(cfg, Flatten(pages), order)
    modifies redis
    ensures ran <==> Work(old(redis.pending), old(redis.processing)) != map[]
    ensures !ran ==> redis.pending == old(redis.pending) && redis.processing == old(redis.processing)
    ensures ran ==>
      && redis.processing == map[]
      && Grouped(cfg, Flatten(pages), tasks)
      && redis.pending == Marked(Rest(old(redis.pending), old(redis.processing)),
                                 PathsIn(tasks, FailedRepos(tasks, env)))
      && totals == Sum(order, Shares(tasks, env))
      && totals.backedUp + totals.skipped + totals.errors + skipped == |Flatten(pages)|
  {
    totals, skipped, tasks := Totals(0, 0, 0), 0, map[];
    ran := SetAside(redis);
    if !ran {
      return;
    }
    var found, unmapped, count := Scan(cfg, pages);
    tasks, skipped := found, unmapped;
    var failed: seq<RepoId>;
    OrderIsTasks(cfg, Flatten(pages), order, found);
    totals, failed := Collect(found, env, order);
    TotalsAccount(cfg, Flatten(pages), found, env, order);
    FailedOnce(found, env, order, failed);
    Finish(redis, found, failed);
  }

  /** An interrupted run's work is taken over; otherwise what is pending is set aside in one step, if there is any. */
  method SetAside(redis: Redis) returns (any: bool)
    modifies redis
    ensures any <==> redis.processing != map[]
    ensures redis.processing == Work(old(redis.pending), old(redis.processing))
    ensures redis.pending == Rest(old(redis.pending), old(redis.processing))
  {
    if redis.processing == map[] {
      if redis.pending == map[] {
        return false;
      }
      redis.processing := redis.pending;
      redis.pending := map[];
    }
    any := true;
  }

  /** Failed paths become pending again before the work is deleted. */
  method Finish(redis: Redis, tasks: Tasks, failed: seq<RepoId>)
    requires forall repo :: repo in failed ==> repo in tasks
    modifies redis
    ensures redis.processing == map[]
    ensures redis.pending == Marked(old(redis.pending), PathsIn(tasks, Elements(failed)))
  {
    if failed != [] {
      PutBack(redis, tasks, failed);
    } else {
      assert PathsIn(tasks, {}) == {};
      assert redis.pending == Marked(redis.pending, {});
    }
    redis.processing := map[];
  }

  lemma OrderIsTasks(cfg: Config, scanned: seq<Path>, order: seq<RepoId>, tasks: Tasks)
    requires Grouped(cfg, scanned, tasks) && Completes(cfg, scanned, order)
    ensures forall repo :: repo in order <==> repo in tasks
  {
    forall repo ensures repo in order <==> repo in tasks {
      assert repo in order <==> PathsOf(cfg, scanned, repo) != [];
    }
  }

  lemma FailedOnce(tasks: Tasks, env: RepoId -> RepoEnv, order: seq<RepoId>, failed: seq<RepoId>)
    requires forall repo :: repo in order <==> repo in tasks
    requires forall repo :: repo in failed <==> repo in order && Fails(RepoResult(tasks[repo], env(repo)))
    ensures Elements(failed) == FailedRepos(tasks, env)
  {}

  /**
   Whatever was set aside has no repository, or is pending again, or its repository did not fail, and it is gone or was
   handed to a good restic run.
   */
  lemma NothingForgotten(cfg: Config, scanned: seq<Path>, work: Hash, tasks: Tasks, env: RepoId -> RepoEnv, p: Path)
    requires Scans(scanned, work) && Grouped(cfg, scanned, tasks) && p in work
    ensures RepoOf(cfg, p).None?
         || p in PathsIn(tasks, FailedRepos(tasks, env))
         || (var repo := RepoOf(cfg, p).value;
             && repo in tasks && !Fails(RepoResult(tasks[repo], env(repo))) && env(repo).ensured == Ready
             && (NEWLINE !in p ==> SettledBy(tasks[repo], env(repo), p)))
  {
    if RepoOf(cfg, p).Some? {
      var repo := RepoOf(cfg, p).value;
      OneTaskEach(cfg, scanned, tasks, p, repo);
      if !Fails(RepoResult(tasks[repo], env(repo))) {
        GoodWorkerSettles(tasks[repo], env(repo), p);
      }
    }
  }
}
