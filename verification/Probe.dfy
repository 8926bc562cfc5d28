/**
 The kernel side of the agent: events are put together in a reused scratch buffer by walking up the dentries, and
 repeated writes to one inode are suppressed within a second of the last one emitted.
 */
module Probe {
  import opened Bytes

  const MAX_DEPTH: nat := 20
  const MAX_NAME_LEN: nat := 256
  const DEDUP_INTERVAL: int := 1_000_000_000

  datatype EventType = DeleteEvent | MtimeEvent | RenameFrom | RenameTo

  /** A directory entry and its parents; the root is its own parent. */
  datatype Dentry = Root | Node(name: ByteString, parent: Dentry)

  datatype FileEvent = FileEvent(kind: EventType, depth: nat, names: seq<ByteString>)

  // ----- Paths -----

  /** A name as copied into its slot: at most MAX_NAME_LEN - 1 bytes and a terminator. */
  function Cut(name: ByteString): (cut: ByteString)
    ensures |cut| < MAX_NAME_LEN
  {
    if |name| < MAX_NAME_LEN then name else name[..MAX_NAME_LEN - 1]
  }

  function FullPath(d: Dentry): ByteString {
    match d
    case Root => []
    case Node(name, parent) => FullPath(parent) + [SLASH] + name
  }

  /** A path is spelt from the root down, a slash before each name. */
  lemma SpeltFromRoot(top: ByteString, leaf: ByteString)
    ensures FullPath(Node(leaf, Node(top, Root))) == [0x2F] + top + [0x2F] + leaf
  {
    assert FullPath(Node(top, Root)) == [0x2F] + top;
  }

  function Depth(d: Dentry): nat {
    if d.Root? then 0 else 1 + Depth(d.parent)
  }

  /** Names the kernel allows: none is empty, and all fit their slot. */
  predicate Named(d: Dentry) {
    d.Node? ==> 0 < |d.name| < MAX_NAME_LEN && Named(d.parent)
  }

  /** The path spelled by names stored leaf first. */
  function PathOf(names: seq<ByteString>): ByteString {
    if names == [] then [] else PathOf(names[1..]) + [SLASH] + names[0]
  }

  lemma {:induction false} PathOfSnoc(names: seq<ByteString>, last: ByteString)
    ensures PathOf(names + [last]) == [SLASH] + last + PathOf(names)
    decreases |names|
  {
    if names == [] {
      assert [] + [last] == [last];
    } else {
      assert (names + [last])[1..] == names[1..] + [last];
      PathOfSnoc(names[1..], last);
    }
  }

  /** The names the walk visits: up to MAX_DEPTH of them, and none at or above an empty one. */
  function Walked(d: Dentry, room: nat): (names: seq<ByteString>)
    ensures |names| <= room
    decreases d
  {
    if room == 0 || d.Root? || d.name == [] then [] else [Cut(d.name)] + Walked(d.parent, room - 1)
  }

  /** The dentry the walk stops at: after MAX_DEPTH names, at the root, or at an empty name. */
  function Stop(d: Dentry, room: nat): Dentry
    decreases d
  {
    if room == 0 || d.Root? || d.name == [] then d else Stop(d.parent, room - 1)
  }

  /** The dentries with their names cut to their slots. */
  function CutNames(d: Dentry): Dentry {
    match d
    case Root => Root
    case Node(name, parent) => Node(Cut(name), CutNames(parent))
  }

  /** Of the path with its names cut, the walk leaves out that of the dentry it stops at, and nothing else. */
  lemma {:induction false} WalkedPath(d: Dentry, room: nat)
    ensures FullPath(CutNames(d)) == FullPath(CutNames(Stop(d, room))) + PathOf(Walked(d, room))
    decreases room
  {
    if room > 0 && d.Node? && d.name != [] {
      WalkedPath(d.parent, room - 1);
      assert Walked(d, room)[1..] == Walked(d.parent, room - 1);
    }
  }

  lemma {:induction false} NamedIsWalked(d: Dentry, n: nat)
    requires Named(d)
    ensures CutNames(d) == d && (Depth(d) <= n ==> Stop(d, n) == Root)
    decreases n, d
  {
    if d.Node? {
      NamedIsWalked(d.parent, if n == 0 then 0 else n - 1);
    }
  }

  /** A path of up to MAX_DEPTH names that fit their slots is reported whole. */
  lemma ShallowPathWhole(d: Dentry)
    requires Named(d) && Depth(d) <= MAX_DEPTH
    ensures PathOf(Walked(d, MAX_DEPTH)) == FullPath(d)
  {
    WalkedPath(d, MAX_DEPTH);
    NamedIsWalked(d, MAX_DEPTH);
  }

  /** The name n steps up. */
  function Name(d: Dentry, n: nat): ByteString
    requires n < Depth(d)
  {
    if n == 0 then d.name else Name(d.parent, n - 1)
  }

  ghost predicate NamesFit(d: Dentry) {
    forall n: nat :: n < Depth(d) ==> 1 <= |Name(d, n)| <= 255
  }

  /** The names that fit have 1 to 255 bytes; of a longer one the first 255 are kept. */
  lemma {:induction false} NamedIff(d: Dentry)
    ensures Named(d) <==> NamesFit(d)
  {
    if d.Node? {
      NamedIff(d.parent);
      assert Name(d, 0) == d.name;
      forall n: nat | Named(d) && n < Depth(d) ensures 1 <= |Name(d, n)| <= 255 {
        if n > 0 {
          assert Name(d, n) == Name(d.parent, n - 1);
        }
      }
      if NamesFit(d) {
        forall n: nat | n < Depth(d.parent) ensures 1 <= |Name(d.parent, n)| <= 255 {
          assert Name(d, n + 1) == Name(d.parent, n);
        }
      }
    }
  }

  lemma CutAt255(name: ByteString)
    ensures Cut(name) == if |name| <= 255 then name else name[..255]
  {}

  /** In figures: a path of twenty names of up to 255 bytes is reported whole. */
  lemma TwentyNamesWhole(d: Dentry)
    requires Depth(d) <= 20 && NamesFit(d)
    ensures PathOf(Walked(d, MAX_DEPTH)) == FullPath(d)
  {
    NamedIff(d);
    ShallowPathWhole(d);
  }

  lemma {:induction false} WalkedCount(d: Dentry, room: nat)
    requires Named(d)
    ensures |Walked(d, room)| == if Depth(d) <= room then Depth(d) else room
    decreases room
  {
    if room > 0 && d.Node? {
      WalkedCount(d.parent, room - 1);
    }
  }

  /** Of a longer path the twenty names nearest to the file are reported. */
  lemma TwentyNamesAtMost(d: Dentry)
    requires NamesFit(d) && Depth(d) > 20
    ensures |Walked(d, MAX_DEPTH)| == 20
    ensures FullPath(d) == FullPath(Stop(d, 20)) + PathOf(Walked(d, MAX_DEPTH))
  {
    NamedIff(d);
    WalkedCount(d, MAX_DEPTH);
    WalkedPath(d, MAX_DEPTH);
    NamedIsWalked(d, MAX_DEPTH);
    StopNamed(d, MAX_DEPTH);
  }

  lemma {:induction false} StopNamed(d: Dentry, room: nat)
    requires Named(d)
    ensures CutNames(Stop(d, room)) == Stop(d, room)
    decreases room
  {
    if room == 0 || d.Root? {
      NamedIsWalked(d, 0);
    } else {
      StopNamed(d.parent, room - 1);
    }
  }

  lemma {:induction false} PathOfBounded(names: seq<ByteString>)
    requires forall name :: name in names ==> |name| < MAX_NAME_LEN
    ensures |PathOf(names)| <= MAX_NAME_LEN * |names|
  {
    if names != [] {
      PathOfBounded(names[1..]);
    }
  }

  method BuildPath(evt: FileEvent) returns (path: ByteString)
    requires evt.depth <= |evt.names|
    ensures path == if evt.depth == 0 then [SLASH] else PathOf(evt.names[..evt.depth])
  {
    path := [];
    var i := evt.depth;
    while i > 0
      invariant 0 <= i <= evt.depth
      invariant path + PathOf(evt.names[..i]) == PathOf(evt.names[..evt.depth])
    {
      i := i - 1;
      assert evt.names[..i + 1] == evt.names[..i] + [evt.names[i]];
      PathOfSnoc(evt.names[..i], evt.names[i]);
      path := path + [SLASH];
      path := path + evt.names[i];
    }
    if path == [] {
      NoPathIffNoNames(evt.names[..evt.depth]);
      path := [SLASH];
    } else {
      assert evt.depth > 0;
    }
  }

  lemma NoPathIffNoNames(names: seq<ByteString>)
    ensures PathOf(names) == [] <==> names == []
  {}

  // ----- Duplicate writes -----

  datatype KernelStep = Write(ino: nat, at: int) | Evict(ino: nat)

  predicate Recent(last: map<nat, int>, ino: nat, now: int) {
    ino in last && now - last[ino] < DEDUP_INTERVAL
  }

  function DedupNext(last: map<nat, int>, step: KernelStep): map<nat, int> {
    match step
    case Write(ino, at) => if Recent(last, ino, at) then last else last[ino := at]
    case Evict(ino) => last - {ino}
  }

  function DedupAfter(steps: seq<KernelStep>): map<nat, int> {
    if steps == [] then map[] else DedupNext(DedupAfter(steps[..|steps| - 1]), steps[|steps| - 1])
  }

  predicate Suppressed(steps: seq<KernelStep>, i: nat)
    requires i < |steps|
  {
    steps[i].Write? && Recent(DedupAfter(steps[..i]), steps[i].ino, steps[i].at)
  }

  predicate Emitted(steps: seq<KernelStep>, i: nat)
    requires i < |steps|
  {
    steps[i].Write? && !Suppressed(steps, i)
  }

  ghost predicate ClockMonotone(steps: seq<KernelStep>) {
    forall i, j :: 0 <= i <= j < |steps| && steps[i].Write? && steps[j].Write? ==> steps[i].at <= steps[j].at
  }

  /** Whatever has been evicted, a remembered time is that of an emitted write to the inode. */
  lemma {:induction false} RememberedWasEmitted(steps: seq<KernelStep>, ino: nat) returns (j: nat)
    requires ino in DedupAfter(steps)
    ensures j < |steps| && Emitted(steps, j) && steps[j] == Write(ino, DedupAfter(steps)[ino])
  {
    var n := |steps| - 1;
    if Emitted(steps, n) && steps[n].ino == ino {
      j := n;
    } else {
      j := RememberedWasEmitted(steps[..n], ino);
      assert steps[..n][..j] == steps[..j];
    }
  }

  /** Step j emitted a write to the inode, and the map still has the entry before step i. */
  ghost predicate Remembers(steps: seq<KernelStep>, ino: nat, j: nat, i: nat)
    requires i <= |steps|
  {
    j < i && Emitted(steps, j) && steps[j].ino == ino && forall w :: j < w < i ==> steps[w] != Evict(ino)
  }

  lemma DedupStep(steps: seq<KernelStep>, n: nat)
    requires n < |steps|
    ensures DedupAfter(steps[..n + 1]) == DedupNext(DedupAfter(steps[..n]), steps[n])
  {
    assert steps[..n + 1][..n] == steps[..n];
  }

  /** What is remembered is the last write emitted since the last eviction. */
  lemma {:induction false} RememberedIff(steps: seq<KernelStep>, ino: nat, i: nat)
    requires i <= |steps| && ClockMonotone(steps)
    ensures ino in DedupAfter(steps[..i]) ==>
              exists j: nat :: Remembers(steps, ino, j, i) && steps[j].at == DedupAfter(steps[..i])[ino]
    ensures forall j: nat :: Remembers(steps, ino, j, i) ==>
              ino in DedupAfter(steps[..i]) && steps[j].at <= DedupAfter(steps[..i])[ino]
    decreases i
  {
    if i > 0 {
      var n := i - 1;
      RememberedIff(steps, ino, n);
      DedupStep(steps, n);
      if ino in DedupAfter(steps[..i]) {
        if ino in DedupAfter(steps[..n]) && DedupAfter(steps[..n])[ino] == DedupAfter(steps[..i])[ino] && steps[n] != Evict(ino) {
          var j: nat :| Remembers(steps, ino, j, n) && steps[j].at == DedupAfter(steps[..n])[ino];
          assert Remembers(steps, ino, j, i);
        } else {
          assert Remembers(steps, ino, n, i);
        }
      }
      forall j: nat | Remembers(steps, ino, j, i)
        ensures ino in DedupAfter(steps[..i]) && steps[j].at <= DedupAfter(steps[..i])[ino]
      {
        if j < n {
          assert Remembers(steps, ino, j, n);
          assert steps[n] != Evict(ino);
          if steps[n].Write? && steps[n].ino == ino && !Recent(DedupAfter(steps[..n]), ino, steps[n].at) {
            assert steps[j].at <= steps[n].at;
          }
        }
      }
    }
  }

  /** Exactly when a write is suppressed: less than a second after an emitted one to the inode, with no eviction since. */
  lemma SuppressedIff(steps: seq<KernelStep>, i: nat)
    requires ClockMonotone(steps) && i < |steps| && steps[i].Write?
    ensures Suppressed(steps, i) <==>
              exists j: nat :: Remembers(steps, steps[i].ino, j, i) && steps[i].at - steps[j].at < 1_000_000_000
  {
    RememberedIff(steps, steps[i].ino, i);
    if Suppressed(steps, i) {
      var j: nat :| Remembers(steps, steps[i].ino, j, i) && steps[j].at == DedupAfter(steps[..i])[steps[i].ino];
    }
  }

  /** Every suppressed write follows an emitted one to the same inode by less than the interval. */
  lemma SuppressedIsCovered(steps: seq<KernelStep>, i: nat) returns (j: nat)
    requires ClockMonotone(steps) && i < |steps| && Suppressed(steps, i)
    ensures j < i && Emitted(steps, j) && steps[j].ino == steps[i].ino
    ensures 0 <= steps[i].at - steps[j].at < DEDUP_INTERVAL
  {
    j := RememberedWasEmitted(steps[..i], steps[i].ino);
    assert steps[..i][..j] == steps[..j];
  }

  ghost predicate Spells(evt: FileEvent, kind: EventType, names: seq<ByteString>) {
    evt.kind == kind && evt.depth <= |evt.names| && evt.names[..evt.depth] == names
  }

  /** An event as the kernel's fixed-size buffer holds it. */
  predicate InBuffer(evt: FileEvent) {
    evt.depth <= |evt.names| <= MAX_DEPTH && forall name :: name in evt.names ==> |name| < MAX_NAME_LEN
  }

  // ----- The programs -----

  class Programs {
    /** The names of the per-CPU scratch event, left over from one event to the next. */
    const scratch: array<ByteString>
    var dedup: map<nat, int>
    var ring: seq<FileEvent>
    var total: nat
    var drops: nat
    var dedupSkipped: nat

    ghost predicate Valid()
      reads this, scratch
    {
      && scratch.Length == MAX_DEPTH
      && (forall i :: 0 <= i < scratch.Length ==> |scratch[i]| < MAX_NAME_LEN)
      && forall evt :: evt in ring ==> InBuffer(evt)
    }

    constructor ()
      ensures Valid() && fresh(scratch)
      ensures dedup == map[] && ring == [] && total == drops == dedupSkipped == 0
    {
      scratch := new ByteString[MAX_DEPTH](_ => []);
      dedup, ring := map[], [];
      total, drops, dedupSkipped := 0, 0, 0;
    }

    /** Copies names from the leaf upwards, over whatever the scratch buffer held before. */
    method Walk(dentry: Dentry) returns (depth: nat)
      requires Valid()
      modifies scratch
      ensures Valid() && depth <= MAX_DEPTH && scratch[..depth] == Walked(dentry, MAX_DEPTH)
    {
      depth := 0;
      var d := dentry;
      for i := 0 to MAX_DEPTH
        invariant Valid() && depth == i
        invariant Walked(dentry, MAX_DEPTH) == scratch[..i] + Walked(d, MAX_DEPTH - i)
      {
        if d.Root? {
          break;
        }
        if |d.name| == 0 {
          break;
        }
        scratch[i] := Cut(d.name);
        depth := i + 1;
        assert scratch[..i + 1] == scratch[..i] + [Cut(d.name)];
        d := d.parent;
      }
    }

    /** An event spells the walked names of its dentry; one that spells none is not emitted. */
    method EmitEvent(dentry: Dentry, kind: EventType, accepted: bool)
      requires Valid()
      modifies this`ring, this`total, this`drops, scratch
      ensures Valid()
      ensures var names := Walked(dentry, MAX_DEPTH);
              var emitted := names != [] && accepted;
              && total == old(total) + (if names != [] then 1 else 0)
              && drops == old(drops) + (if names != [] && !accepted then 1 else 0)
              && |ring| == |old(ring)| + (if emitted then 1 else 0) && ring[..|old(ring)|] == old(ring)
              && (emitted ==> Spells(ring[|old(ring)|], kind, names))
    {
      var depth := Walk(dentry);
      if depth == 0 {
        return;
      }
      total := total + 1;
      if accepted {
        var evt := FileEvent(kind, depth, scratch[..]);
        assert evt.names[..depth] == scratch[..depth];
        ring := ring + [evt];
      } else {
        drops := drops + 1;
      }
    }

    method DedupCheck(ino: nat, now: int) returns (skip: bool)
      modifies this`dedup, this`dedupSkipped
      ensures skip == Recent(old(dedup), ino, now)
      ensures dedup == DedupNext(old(dedup), Write(ino, now))
      ensures dedupSkipped == old(dedupSkipped) + if skip then 1 else 0
    {
      if ino in dedup && now - dedup[ino] < DEDUP_INTERVAL {
        dedupSkipped := dedupSkipped + 1;
        return true;
      }
      dedup := dedup[ino := now];
      skip := false;
    }

    /** A write, or a truncation: counted, or emitted and remembered. */
    method TraceWrite(dentry: Dentry, ino: nat, now: int, accepted: bool)
      requires Valid()
      modifies this, scratch
      ensures Valid() && dedup == DedupNext(old(dedup), Write(ino, now))
      ensures var names := Walked(dentry, MAX_DEPTH);
              var emitted := !Recent(old(dedup), ino, now) && names != [] && accepted;
              && |ring| == |old(ring)| + (if emitted then 1 else 0) && ring[..|old(ring)|] == old(ring)
              && (emitted ==> Spells(ring[|old(ring)|], MtimeEvent, names))
    {
      var skip := DedupCheck(ino, now);
      if !skip {
        EmitEvent(dentry, MtimeEvent, accepted);
      }
    }

    /** The two halves of a rename follow each other in the ring unless one is dropped. */
    method TraceRename(oldDentry: Dentry, newDentry: Dentry, fromAccepted: bool, toAccepted: bool)
      requires Valid()
      modifies this`ring, this`total, this`drops, scratch
      ensures Valid()
      ensures var from, to := Walked(oldDentry, MAX_DEPTH), Walked(newDentry, MAX_DEPTH);
              var first, second := from != [] && fromAccepted, to != [] && toAccepted;
              var n := |old(ring)|;
              && |ring| == n + (if first then 1 else 0) + (if second then 1 else 0) && ring[..n] == old(ring)
              && (first ==> Spells(ring[n], RenameFrom, from))
              && (second ==> Spells(ring[|ring| - 1], RenameTo, to))
    {
      EmitEvent(oldDentry, RenameFrom, fromAccepted);
      EmitEvent(newDentry, RenameTo, toAccepted);
    }

    /** The least recently used entries may go at any time. */
    method EvictEntry(ino: nat)
      modifies this`dedup
      ensures dedup == DedupNext(old(dedup), Evict(ino))
    {
      dedup := dedup - {ino};
    }
  }
}
