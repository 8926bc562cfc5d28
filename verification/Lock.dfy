/**
 The lock backup and prune share: one Redis key, set if absent and with a time to live, deleted unconditionally by
 whoever leaves its critical section.
 */
module Lock {
  import opened Bytes

  type Node = nat

  /** Seconds of the Redis server's clock. */
  type Time = nat

  const LOCK_TTL: Time := 7200

  datatype Key = Key(owner: Node, expires: Time)

  /** `inside`: the nodes in their critical section, with the time each got the lock. */
  datatype State = State(key: Option<Key>, now: Time, inside: map<Node, Time>)

  datatype Step = Acquire(node: Node) | Release(node: Node) | Die(node: Node) | Elapse(seconds: nat)

  predicate Held(s: State) {
    s.key.Some? && s.now < s.key.value.expires
  }

  predicate Enabled(s: State, step: Step) {
    match step
    case Acquire(node) => node !in s.inside
    case Release(node) => node in s.inside
    case Die(node) => node in s.inside
    case Elapse(_) => true
  }

  function Next(s: State, step: Step): State
    requires Enabled(s, step)
  {
    match step
    case Acquire(node) =>
      if Held(s) then s
      else s.(key := Some(Key(node, s.now + LOCK_TTL)), inside := s.inside[node := s.now])
    case Release(node) => s.(key := None, inside := s.inside - {node})
    case Die(node) => s.(inside := s.inside - {node})
    case Elapse(seconds) => s.(now := s.now + seconds)
  }

  // ----- Exclusion -----

  /** At most one node is inside. */
  ghost predicate Exclusive(s: State) {
    forall a, b :: a in s.inside && b in s.inside ==> a == b
  }

  /** This node has been inside for as long as its lock lasts. */
  predicate Overdue(s: State, node: Node) {
    node in s.inside && s.now >= s.inside[node] + LOCK_TTL
  }

  ghost predicate Timely(s: State) {
    forall node :: node in s.inside ==> !Overdue(s, node)
  }

  /** Nobody else is inside, and until it is overdue the key is the node's own. */
  ghost predicate Inv(s: State) {
    && Exclusive(s)
    && forall node :: node in s.inside ==>
         && s.inside[node] <= s.now
         && (!Overdue(s, node) ==> s.key == Some(Key(node, s.inside[node] + LOCK_TTL)))
         && (Overdue(s, node) ==> !Held(s))
  }

  lemma StepKeepsInv(s: State, step: Step)
    requires Inv(s) && Enabled(s, step)
    requires step.Acquire? ==> Timely(s)
    ensures Inv(Next(s, step))
  {}

  /** From a good state, another node can get in exactly when one inside is overdue. */
  lemma SecondEntryIff(s: State, holder: Node, other: Node)
    requires Inv(s) && holder in s.inside && other !in s.inside
    ensures other in Next(s, Acquire(other)).inside <==> s.now >= s.inside[holder] + 7200
    ensures s.now >= s.inside[holder] + 7200 <==> Overdue(s, holder)
  {}

  /** Once one is overdue, its release deletes the next one's lock, and a third can get in while that one is in time. */
  lemma OverdueReleaseOpens(s: State, holder: Node, other: Node, third: Node)
    requires Inv(s) && Overdue(s, holder) && other !in s.inside && third !in s.inside && third != other
    ensures var entered := Next(s, Acquire(other));
            && Enabled(entered, Release(holder))
            && entered.key == Some(Key(other, s.now + LOCK_TTL))
            && var released := Next(entered, Release(holder));
               && Enabled(released, Acquire(third))
               && var later := Next(released, Acquire(third));
                  other in later.inside && third in later.inside && !Overdue(later, other)
  {}

  /** A node that dies inside keeps the others out for what is left of two hours, one that leaves does not. */
  lemma DeadHolderBlocksIff(s: State, holder: Node, other: Node, seconds: nat)
    requires Inv(s) && holder in s.inside && !Overdue(s, holder) && other !in s.inside
    ensures var later := Next(Next(s, Die(holder)), Elapse(seconds));
            Enabled(later, Acquire(other)) &&
            (other in Next(later, Acquire(other)).inside <==> s.now + seconds >= s.inside[holder] + 7200)
    ensures var left := Next(s, Release(holder));
            Enabled(left, Acquire(other)) && other in Next(left, Acquire(other)).inside
  {}

  // ----- Every run -----

  ghost predicate IsRun(states: seq<State>, steps: seq<Step>) {
    && |states| == |steps| + 1
    && states[0].inside == map[]
    && forall n :: 0 <= n < |steps| ==> Enabled(states[n], steps[n]) && states[n + 1] == Next(states[n], steps[n])
  }

  /** Up to n, nobody tried to get in while a node inside was overdue. */
  ghost predicate Guarded(states: seq<State>, steps: seq<Step>, n: nat)
    requires IsRun(states, steps) && n < |states|
  {
    forall k :: 0 <= k < n && steps[k].Acquire? ==> Timely(states[k])
  }

  lemma {:induction false} GuardedKeepsInv(states: seq<State>, steps: seq<Step>, n: nat)
    requires IsRun(states, steps) && n < |states| && Guarded(states, steps, n)
    ensures Inv(states[n])
  {
    if n > 0 {
      GuardedKeepsInv(states, steps, n - 1);
      StepKeepsInv(states[n - 1], steps[n - 1]);
    }
  }

  lemma {:induction false} ExclusiveIsGuarded(states: seq<State>, steps: seq<Step>, n: nat)
    requires IsRun(states, steps) && n < |states|
    requires forall k :: 0 <= k <= n ==> Exclusive(states[k])
    ensures Guarded(states, steps, n)
  {
    if n > 0 {
      ExclusiveIsGuarded(states, steps, n - 1);
      GuardedKeepsInv(states, steps, n - 1);
      var before := states[n - 1];
      if steps[n - 1].Acquire? {
        forall holder | holder in before.inside ensures !Overdue(before, holder) {
          SecondEntryIff(before, holder, steps[n - 1].node);
          assert Exclusive(states[n]) && holder in states[n].inside;
        }
      }
    }
  }

  /** However many nodes there are: at most one is ever inside exactly when none tries while another is overdue. */
  lemma ExclusiveIffGuarded(states: seq<State>, steps: seq<Step>)
    requires IsRun(states, steps)
    ensures (forall n :: 0 <= n < |states| ==> Exclusive(states[n])) <==> Guarded(states, steps, |steps|)
  {
    if forall n :: 0 <= n < |states| ==> Exclusive(states[n]) {
      ExclusiveIsGuarded(states, steps, |steps|);
    }
    if Guarded(states, steps, |steps|) {
      forall n | 0 <= n < |states| ensures Exclusive(states[n]) {
        GuardedKeepsInv(states, steps, n);
      }
    }
  }

  /**
   In particular when every node is done, or dead, before its time is over; and then a release, unconditional as it is,
   only ever deletes the releasing node's own lock.
   */
  lemma TimelyRunsAreSafe(states: seq<State>, steps: seq<Step>, n: nat)
    requires IsRun(states, steps) && n < |states| && forall k :: 0 <= k < |states| ==> Timely(states[k])
    ensures Exclusive(states[n])
    ensures n < |steps| && steps[n].Release? ==>
              && states[n].key.Some? && states[n].key.value.owner == steps[n].node
              && states[n + 1].key == None && states[n + 1].inside == map[]
  {
    GuardedKeepsInv(states, steps, n);
  }

  // ----- The two commands -----

  class Server {
    var key: Option<Key>
    var now: Time
    ghost var inside: map<Node, Time>

    ghost function View(): State
      reads this
    {
      State(key, now, inside)
    }

    constructor (now: Time)
      ensures View() == State(None, now, map[])
    {
      key := None;
      this.now := now;
      inside := map[];
    }

    /** SET with NX and EX: a key whose time is over counts as absent. */
    method AcquireLock(node: Node) returns (acquired: bool)
      requires Enabled(View(), Acquire(node))
      modifies this
      ensures View() == Next(old(View()), Acquire(node)) && (acquired <==> node in inside)
    {
      if key.Some? && now < key.value.expires {
        return false;
      }
      key := Some(Key(node, now + LOCK_TTL));
      inside := inside[node := now];
      acquired := true;
    }

    /** DEL, without looking whose lock it is. */
    method ReleaseLock(ghost node: Node)
      requires Enabled(View(), Release(node))
      modifies this
      ensures View() == Next(old(View()), Release(node))
    {
      key := None;
      inside := inside - {node};
    }
  }
}
