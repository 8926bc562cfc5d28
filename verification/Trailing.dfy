/** What suppressing duplicate writes in the kernel and debouncing in userspace do together to the last write of a burst. */
module Trailing {
  import opened Probe
  import opened Debounce

  /**
   With a quiet period of at least the suppression interval, a suppressed write is covered by an emitted one: if that
   one's event leaves its path pending, and a tick releases the path, the message comes after the suppressed write.
   */
  lemma SuppressedWriteReported(steps: seq<KernelStep>, i: nat, cfg: Config, trace: seq<Step>) returns (j: nat)
    requires ClockMonotone(steps) && i < |steps| && Suppressed(steps, i)
    requires cfg.quiet >= DEDUP_INTERVAL && Monotone(trace)
    ensures j < i && Emitted(steps, j) && steps[j].ino == steps[i].ino
    ensures forall m: nat, k: nat ::
              m < k < |trace| && Handles(trace, m, steps[j].at) && ReleasedBy(cfg, trace, m, k) && trace[k].input == Tick ==>
                trace[k].at > steps[i].at
  {
    j := SuppressedIsCovered(steps, i);
    forall m: nat, k: nat |
      m < k < |trace| && Handles(trace, m, steps[j].at) && ReleasedBy(cfg, trace, m, k) && trace[k].input == Tick
      ensures trace[k].at > steps[i].at
    {
      UnsettledStaysPending(cfg, trace, m, k);
    }
  }

  /** The userspace step that takes the write emitted at `emittedAt`, at that time or later. */
  ghost predicate Handles(trace: seq<Step>, m: nat, emittedAt: Time) {
    m < |trace| && trace[m].input == Event(Mtime) && trace[m].at >= emittedAt
  }

  /** Step k is the first to settle the path from step m on. */
  ghost predicate ReleasedBy(cfg: Config, trace: seq<Step>, m: nat, k: nat) {
    m < k < |trace| && SettlesAt(cfg, trace, k) && forall j :: m <= j < k ==> !SettlesAt(cfg, trace, j)
  }

  lemma {:induction false} IdleTicksSilent(cfg: Config, trace: seq<Step>, m: nat, n: nat)
    requires m <= n <= |trace| && After(cfg, trace[..m]) == Idle
    requires forall k :: m <= k < |trace| ==> trace[k].input == Tick
    ensures After(cfg, trace[..n]) == Idle
    decreases n
  {
    if m < n {
      IdleTicksSilent(cfg, trace, m, n - 1);
      AfterStep(cfg, trace, n - 1);
    }
  }

  /**
   When only ticks follow a write's event, a later message comes exactly if the event did not find the maximum wait over:
   an event that fires the path itself is not followed up, and writes suppressed after it go unreported.
   */
  lemma FollowedUpIffMaxWaitNotOver(cfg: Config, trace: seq<Step>, m: nat)
    requires Monotone(trace) && cfg.quiet >= 0
    requires m < |trace| - 1 && trace[m].input == Event(Mtime)
    requires forall k :: m < k < |trace| ==> trace[k].input == Tick
    requires trace[|trace| - 1].at >= trace[m].at + cfg.quiet
    ensures var before := After(cfg, trace[..m]);
            (exists k: nat :: m < k < |trace| && SendsAt(cfg, trace, k))
            <==> !(before.Pending? && trace[m].at - before.firstSeen >= cfg.maxWait)
  {
    AfterStep(cfg, trace, m);
    if SendsAt(cfg, trace, m) {
      forall k: nat | m < k < |trace| ensures !SendsAt(cfg, trace, k) {
        IdleTicksSilent(cfg, trace, m + 1, k);
      }
    } else {
      var last := |trace| - 1;
      if forall k: nat :: m < k < last ==> !SendsAt(cfg, trace, k) {
        TicksKeepLastSeen(cfg, trace, m, last);
        assert SendsAt(cfg, trace, last);
      }
    }
  }

  lemma {:induction false} TicksKeepLastSeen(cfg: Config, trace: seq<Step>, m: nat, n: nat)
    requires m < n < |trace| && trace[m].input == Event(Mtime) && !SendsAt(cfg, trace, m)
    requires forall k: nat :: m < k < n ==> trace[k].input == Tick && !SendsAt(cfg, trace, k)
    ensures After(cfg, trace[..n]).Pending? && After(cfg, trace[..n]).lastSeen == trace[m].at
    decreases n
  {
    if m == n - 1 {
      EventKept(cfg, trace, m);
    } else {
      TicksKeepLastSeen(cfg, trace, m, n - 1);
      SilentTick(cfg, trace, n - 1);
    }
  }

  lemma EventKept(cfg: Config, trace: seq<Step>, m: nat)
    requires m < |trace| && trace[m].input == Event(Mtime) && !SendsAt(cfg, trace, m)
    ensures After(cfg, trace[..m + 1]).Pending? && After(cfg, trace[..m + 1]).lastSeen == trace[m].at
  {
    AfterStep(cfg, trace, m);
  }

  lemma SilentTick(cfg: Config, trace: seq<Step>, k: nat)
    requires k < |trace| && trace[k].input == Tick && !SendsAt(cfg, trace, k)
    ensures After(cfg, trace[..k + 1]) == After(cfg, trace[..k])
  {
    AfterStep(cfg, trace, k);
  }
}
