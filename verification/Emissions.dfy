/**
 Events on their way through the ring buffer. Every probe emits by itself, on any CPU, and every event may be dropped by
 itself, so between the two halves of a rename there may be anything; userspace pairs up halves that are adjacent in what
 was kept.
 */
module Emissions {
  import opened Bytes
  import opened Probe
  import opened Events

  /** An event as it is offered to the ring; `unit` tells which halves are of one rename. */
  datatype Emission = Emission(raw: Raw, unit: nat, kept: bool)

  /** An event in the ring, and the unit it came from. */
  datatype Entry = Entry(raw: Raw, unit: nat)

  function KeptEntry(e: Emission): seq<Entry> {
    if e.kept then [Entry(e.raw, e.unit)] else []
  }

  /** What is kept, in order. */
  function Contents(ems: seq<Emission>): seq<Entry> {
    if ems == [] then []
    else
      var n := |ems| - 1;
      Contents(ems[..n]) + KeptEntry(ems[n])
  }

  function Raws(ring: seq<Entry>): (raws: seq<Raw>)
    ensures |raws| == |ring|
  {
    seq(|ring|, k requires 0 <= k < |ring| => ring[k].raw)
  }

  /** Halves of different renames next to each other, which userspace takes for one rename. */
  predicate MispairedAt(ring: seq<Entry>, k: nat)
    requires 0 < k < |ring|
  {
    ring[k - 1].raw.kind == RenameFrom && ring[k].raw.kind == RenameTo && ring[k - 1].unit != ring[k].unit
  }

  ghost predicate Mispaired(ring: seq<Entry>) {
    exists k: nat :: 0 < k < |ring| && MispairedAt(ring, k)
  }

  ghost predicate EndsOpen(ring: seq<Entry>) {
    ring != [] && ring[|ring| - 1].raw.kind == RenameFrom
  }

  lemma ContentsLonger(ems: seq<Emission>, e: Emission)
    ensures Contents(ems + [e]) == Contents(ems) + KeptEntry(e)
  {
    assert (ems + [e])[..|ems|] == ems;
  }

  lemma TwoMore(ems: seq<Emission>, a: Emission, b: Emission)
    ensures Contents(ems + [a, b]) == Contents(ems) + (KeptEntry(a) + KeptEntry(b))
  {
    ContentsLonger(ems, a);
    ContentsLonger(ems + [a], b);
    assert ems + [a, b] == ems + [a] + [b];
  }

  // ----- Neighbours -----

  /** Emission i is the last one kept before n. */
  ghost predicate LastKept(ems: seq<Emission>, i: nat, n: nat)
    requires n <= |ems|
  {
    i < n && ems[i].kept && forall w :: i < w < n ==> !ems[w].kept
  }

  /** A first half kept and a second half kept, with only dropped emissions between them: userspace takes them for one rename. */
  ghost predicate Neighbours(ems: seq<Emission>, i: nat, j: nat) {
    && j < |ems| && LastKept(ems, i, j) && ems[j].kept
    && ems[i].raw.kind == RenameFrom && ems[j].raw.kind == RenameTo
  }

  /** Both halves of one rename, kept. */
  ghost predicate MadeAt(ems: seq<Emission>, i: nat, j: nat) {
    && i < j < |ems| && ems[i].kept && ems[j].kept && ems[i].unit == ems[j].unit
    && ems[i].raw.kind == RenameFrom && ems[j].raw.kind == RenameTo
  }

  ghost predicate Crossed(ems: seq<Emission>) {
    exists i: nat, j: nat :: Neighbours(ems, i, j) && ems[i].unit != ems[j].unit
  }

  ghost predicate Interrupted(ems: seq<Emission>) {
    exists i: nat, j: nat :: MadeAt(ems, i, j) && !LastKept(ems, i, j)
  }

  function LastIndex(ems: seq<Emission>): Option<nat> {
    if ems == [] then None
    else if ems[|ems| - 1].kept then Some(|ems| - 1)
    else LastIndex(ems[..|ems| - 1])
  }

  lemma {:induction false} LastIndexIs(ems: seq<Emission>)
    ensures LastIndex(ems) == None ==> Contents(ems) == [] && forall k :: 0 <= k < |ems| ==> !ems[k].kept
    ensures LastIndex(ems).Some? ==>
              var i := LastIndex(ems).value;
              && LastKept(ems, i, |ems|)
              && Contents(ems) != [] && Contents(ems)[|Contents(ems)| - 1] == Entry(ems[i].raw, ems[i].unit)
  {
    if ems != [] {
      LastIndexIs(ems[..|ems| - 1]);
    }
  }

  lemma LastKeptUnique(ems: seq<Emission>, i: nat, i': nat, n: nat)
    requires n <= |ems| && LastKept(ems, i, n) && LastKept(ems, i', n)
    ensures i == i'
  {}

  lemma PairsLonger(ems: seq<Emission>, e: Emission, i: nat, j: nat)
    requires j < |ems|
    ensures Neighbours(ems + [e], i, j) <==> Neighbours(ems, i, j)
    ensures MadeAt(ems + [e], i, j) <==> MadeAt(ems, i, j)
    ensures LastKept(ems + [e], i, j) <==> LastKept(ems, i, j)
  {
    assert forall w :: 0 <= w < |ems| ==> (ems + [e])[w] == ems[w];
  }

  /** The new emission and the last one kept are taken for one rename. */
  ghost predicate ClosesWith(ems: seq<Emission>, e: Emission, i: nat) {
    && LastIndex(ems) == Some(i) && LastKept(ems, i, |ems|)
    && e.kept && ems[i].raw.kind == RenameFrom && e.raw.kind == RenameTo
  }

  lemma NewNeighbours(ems: seq<Emission>, e: Emission, i: nat)
    ensures Neighbours(ems + [e], i, |ems|) <==> ClosesWith(ems, e, i)
  {
    LastIndexIs(ems);
    assert forall w :: 0 <= w < |ems| ==> (ems + [e])[w] == ems[w];
    if LastKept(ems + [e], i, |ems|) {
      assert LastKept(ems, i, |ems|);
      if LastIndex(ems).Some? {
        LastKeptUnique(ems, i, LastIndex(ems).value, |ems|);
      }
    }
  }

  lemma CrossedLonger(ems: seq<Emission>, e: Emission)
    ensures Crossed(ems + [e]) <==>
              Crossed(ems) || exists i: nat :: ClosesWith(ems, e, i) && ems[i].unit != e.unit
  {
    var longer := ems + [e];
    if i: nat, j: nat :| Neighbours(ems, i, j) && ems[i].unit != ems[j].unit {
      PairsLonger(ems, e, i, j);
      assert longer[i] == ems[i] && longer[j] == ems[j];
    }
    if i: nat :| ClosesWith(ems, e, i) && ems[i].unit != e.unit {
      NewNeighbours(ems, e, i);
      assert longer[i] == ems[i] && longer[|ems|] == e;
    }
    if i: nat, j: nat :| Neighbours(longer, i, j) && longer[i].unit != longer[j].unit {
      if j < |ems| {
        PairsLonger(ems, e, i, j);
        assert longer[i] == ems[i] && longer[j] == ems[j];
      } else {
        NewNeighbours(ems, e, i);
        assert longer[i] == ems[i] && longer[j] == e;
      }
    }
  }

  /** What is mispaired in a longer ring was so before, or is its last two entries. */
  lemma OneMoreMispaired(ring: seq<Entry>, e: Entry)
    ensures Mispaired(ring + [e]) <==>
              Mispaired(ring) || (EndsOpen(ring) && e.raw.kind == RenameTo && ring[|ring| - 1].unit != e.unit)
  {
    var longer := ring + [e];
    if k: nat :| 0 < k < |ring| && MispairedAt(ring, k) {
      assert MispairedAt(longer, k);
    }
    if k: nat :| 0 < k < |longer| && MispairedAt(longer, k) {
      if k < |ring| {
        assert MispairedAt(ring, k);
      }
    }
    if EndsOpen(ring) && e.raw.kind == RenameTo && ring[|ring| - 1].unit != e.unit {
      assert MispairedAt(longer, |ring|);
    }
  }

  lemma ClosesIff(ems: seq<Emission>, e: Emission)
    ensures (exists i: nat :: ClosesWith(ems, e, i) && ems[i].unit != e.unit) <==>
              && e.kept && e.raw.kind == RenameTo && EndsOpen(Contents(ems))
              && Contents(ems)[|Contents(ems)| - 1].unit != e.unit
  {
    LastIndexIs(ems);
    if LastIndex(ems).Some? {
      var i := LastIndex(ems).value;
      assert ClosesWith(ems, e, i) <==> e.kept && ems[i].raw.kind == RenameFrom && e.raw.kind == RenameTo;
    }
  }

  /**
   Exactly when userspace is led to a rename that was not made, in any interleaving and with any drops: a first half and a
   second half of different renames are kept, and everything emitted between them was dropped, if there was anything.
   */
  lemma {:induction false} MispairedIff(ems: seq<Emission>)
    ensures Mispaired(Contents(ems)) <==> Crossed(ems)
  {
    if ems != [] {
      var n := |ems| - 1;
      var init, e := ems[..n], ems[n];
      assert ems == init + [e];
      MispairedIff(init);
      CrossedLonger(init, e);
      ClosesIff(init, e);
      ContentsLonger(init, e);
      if e.kept {
        OneMoreMispaired(Contents(init), Entry(e.raw, e.unit));
      } else {
        assert Contents(init) + [] == Contents(init);
      }
    }
  }

  /** Exactly when the pairs userspace takes for renames are those that are: nothing is crossed, and none is interrupted. */
  lemma FoundAreMadeIff(ems: seq<Emission>)
    ensures (forall i: nat, j: nat :: Neighbours(ems, i, j) <==> MadeAt(ems, i, j)) <==> !Crossed(ems) && !Interrupted(ems)
  {
    if !Crossed(ems) && !Interrupted(ems) {
      forall i: nat, j: nat ensures Neighbours(ems, i, j) <==> MadeAt(ems, i, j) {
      }
    }
    if forall i: nat, j: nat :: Neighbours(ems, i, j) <==> MadeAt(ems, i, j) {
      forall i: nat, j: nat | Neighbours(ems, i, j) ensures ems[i].unit == ems[j].unit {
        assert MadeAt(ems, i, j);
      }
      forall i: nat, j: nat | MadeAt(ems, i, j) ensures LastKept(ems, i, j) {
        assert Neighbours(ems, i, j);
      }
    }
  }

  // ----- The renames found -----

  lemma OneKept(prefix: Path, ring: seq<Entry>, e: Entry)
    requires e.raw.kind == RenameTo ==> !EndsOpen(ring)
    ensures Pairs(prefix, Raws(ring + [e])) == Pairs(prefix, Raws(ring))
  {
    assert Raws(ring + [e]) == Raws(ring) + [e.raw];
    OneMoreEvent(prefix, Raws(ring), e.raw);
  }

  /** The last first half of a unit that was kept. */
  function FromIndex(ems: seq<Emission>, unit: nat): Option<nat> {
    if ems == [] then None
    else
      var n := |ems| - 1;
      if ems[n].kept && ems[n].raw.kind == RenameFrom && ems[n].unit == unit then Some(n) else FromIndex(ems[..n], unit)
  }

  lemma {:induction false} FromIndexIs(ems: seq<Emission>, unit: nat)
    ensures FromIndex(ems, unit).Some? ==>
              var i := FromIndex(ems, unit).value;
              i < |ems| && ems[i].kept && ems[i].raw.kind == RenameFrom && ems[i].unit == unit
    ensures FromIndex(ems, unit) == None ==>
              forall i :: 0 <= i < |ems| ==> !(ems[i].kept && ems[i].raw.kind == RenameFrom && ems[i].unit == unit)
  {
    if ems != [] {
      FromIndexIs(ems[..|ems| - 1], unit);
    }
  }

  /** The renames of which both halves were kept, in the order of their second halves. */
  function Made(prefix: Path, ems: seq<Emission>): seq<Rename> {
    if ems == [] then []
    else
      var n := |ems| - 1;
      var e, from := ems[n], FromIndex(ems[..n], ems[n].unit);
      Made(prefix, ems[..n])
      + (if e.kept && e.raw.kind == RenameTo && from.Some? then
           FromIndexIs(ems[..n], e.unit);
           if prefix <= ems[from.value].raw.path || prefix <= e.raw.path
           then [Rename(ems[from.value].raw.path, e.raw.path)] else []
         else [])
  }

  lemma Closing(prefix: Path, ring: seq<Entry>, e: Entry)
    requires EndsOpen(ring) && e.raw.kind == RenameTo
    ensures var from := ring[|ring| - 1].raw.path;
            Pairs(prefix, Raws(ring + [e])) == Pairs(prefix, Raws(ring))
              + (if prefix <= from || prefix <= e.raw.path then [Rename(from, e.raw.path)] else [])
  {
    assert Raws(ring + [e]) == Raws(ring) + [e.raw];
    OneMoreEvent(prefix, Raws(ring), e.raw);
  }

  lemma ShorterInOrder(ems: seq<Emission>, e: Emission)
    requires !Crossed(ems + [e]) && !Interrupted(ems + [e])
    ensures !Crossed(ems) && !Interrupted(ems)
  {
    CrossedLonger(ems, e);
    if i: nat, j: nat :| MadeAt(ems, i, j) && !LastKept(ems, i, j) {
      PairsLonger(ems, e, i, j);
    }
  }

  /** With nothing crossed or interrupted, the renames found are those of which both halves were kept, in order. */
  lemma {:induction false} MadeAreFound(prefix: Path, ems: seq<Emission>)
    requires !Crossed(ems) && !Interrupted(ems)
    ensures Pairs(prefix, Raws(Contents(ems))) == Made(prefix, ems)
  {
    if ems != [] {
      var n := |ems| - 1;
      var init, e := ems[..n], ems[n];
      assert ems == init + [e];
      ShorterInOrder(init, e);
      MadeAreFound(prefix, init);
      ContentsLonger(init, e);
      LastIndexIs(init);
      FromIndexIs(init, e.unit);
      if e.kept && e.raw.kind == RenameTo {
        SecondHalf(prefix, ems, init, e);
      } else if e.kept {
        OneKept(prefix, Contents(init), Entry(e.raw, e.unit));
      } else {
        assert Contents(init) + [] == Contents(init);
      }
    }
  }

  /** A second half kept without its first half finds no other first half before it. */
  lemma NoLooseEnd(ems: seq<Emission>, e: Emission)
    requires !Crossed(ems + [e]) && e.kept && e.raw.kind == RenameTo && FromIndex(ems, e.unit) == None
    ensures !EndsOpen(Contents(ems))
  {
    CrossedLonger(ems, e);
    ClosesIff(ems, e);
    LastIndexIs(ems);
    FromIndexIs(ems, e.unit);
  }

  lemma SecondHalf(prefix: Path, ems: seq<Emission>, init: seq<Emission>, e: Emission)
    requires ems == init + [e] && !Crossed(ems) && !Interrupted(ems) && e.kept && e.raw.kind == RenameTo
    ensures EndsOpen(Contents(init)) <==> FromIndex(init, e.unit).Some?
    ensures Pairs(prefix, Raws(Contents(ems))) == Pairs(prefix, Raws(Contents(init)))
              + (if FromIndex(init, e.unit).Some? then
                   FromIndexIs(init, e.unit);
                   var from := init[FromIndex(init, e.unit).value].raw.path;
                   if prefix <= from || prefix <= e.raw.path then [Rename(from, e.raw.path)] else []
                 else [])
  {
    var n := |init|;
    ContentsLonger(init, e);
    LastIndexIs(init);
    FromIndexIs(init, e.unit);
    if FromIndex(init, e.unit).Some? {
      var i := FromIndex(init, e.unit).value;
      assert ems[i] == init[i] && MadeAt(ems, i, n) && LastKept(ems, i, n);
      assert LastKept(init, i, n);
      LastKeptUnique(init, i, LastIndex(init).value, n);
      Closing(prefix, Contents(init), Entry(e.raw, e.unit));
    } else {
      NoLooseEnd(init, e);
      OneKept(prefix, Contents(init), Entry(e.raw, e.unit));
    }
  }

  /** Two renames at once, on two CPUs, with nothing dropped: a rename is found that nobody made, and neither that was. */
  lemma InterleavedHalvesMispaired(prefix: Path, a: Path, b: Path, c: Path, d: Path)
    requires prefix <= b || prefix <= c
    ensures var ems := [Emission(Raw(RenameFrom, a), 0, true), Emission(Raw(RenameFrom, c), 1, true),
                        Emission(Raw(RenameTo, b), 0, true), Emission(Raw(RenameTo, d), 1, true)];
            Mispaired(Contents(ems)) && Pairs(prefix, Raws(Contents(ems))) == [Rename(c, b)]
  {
    var w, x := Emission(Raw(RenameFrom, a), 0, true), Emission(Raw(RenameFrom, c), 1, true);
    var y, z := Emission(Raw(RenameTo, b), 0, true), Emission(Raw(RenameTo, d), 1, true);
    FourKept(w, x, y, z);
    var ring := Contents([w, x, y, z]);
    assert MispairedAt(ring, 2);
    assert Raws(ring) == [w.raw, x.raw, y.raw, z.raw];
    FourPaired(prefix, w.raw, x.raw, y.raw, z.raw);
  }

  lemma FourKept(w: Emission, x: Emission, y: Emission, z: Emission)
    requires w.kept && x.kept && y.kept && z.kept
    ensures Contents([w, x, y, z])
         == [Entry(w.raw, w.unit), Entry(x.raw, x.unit), Entry(y.raw, y.unit), Entry(z.raw, z.unit)]
  {
    ContentsLonger([], w);
    ContentsLonger([w], x);
    ContentsLonger([w, x], y);
    ContentsLonger([w, x, y], z);
    assert [] + [w] == [w] && [w] + [x] == [w, x] && [w, x] + [y] == [w, x, y] && [w, x, y] + [z] == [w, x, y, z];
  }

  lemma FourPaired(prefix: Path, w: Raw, x: Raw, y: Raw, z: Raw)
    requires w.kind == x.kind == RenameFrom && y.kind == z.kind == RenameTo
    ensures Pairs(prefix, [w, x, y, z]) == if prefix <= x.path || prefix <= y.path then [Rename(x.path, y.path)] else []
  {
    OneMoreEvent(prefix, [w], x);
    OneMoreEvent(prefix, [w, x], y);
    OneMoreEvent(prefix, [w, x, y], z);
    assert [w] + [x] == [w, x] && [w, x] + [y] == [w, x, y] && [w, x, y] + [z] == [w, x, y, z];
  }

  // ----- From the probes to the ring -----

  /** A probe that emits, with the ring buffer's decision, or an entry of the suppression map that is evicted. */
  datatype Call =
    | OnDelete(dentry: Dentry, accepted: bool)
    | OnWrite(dentry: Dentry, ino: nat, now: int, accepted: bool)
    | OnUtimes(dentry: Dentry, accepted: bool)
    | OnFirstHalf(dentry: Dentry, unit: nat, accepted: bool)
    | OnSecondHalf(dentry: Dentry, unit: nat, accepted: bool)
    | OnEvict(ino: nat)

  function StepsOf(calls: seq<Call>): seq<KernelStep> {
    if calls == [] then []
    else
      var last := calls[|calls| - 1];
      StepsOf(calls[..|calls| - 1])
      + (match last
         case OnWrite(_, ino, now, _) => [Write(ino, now)]
         case OnEvict(ino) => [Evict(ino)]
         case _ => [])
  }

  function WalkedRaw(kind: EventType, d: Dentry): Raw {
    Raw(kind, PathOf(Walked(d, MAX_DEPTH)))
  }

  predicate HasName(d: Dentry) {
    Walked(d, MAX_DEPTH) != []
  }

  /** What a call emits: nothing without a name is kept, and no write that is suppressed. */
  function EmissionOf(call: Call, last: map<nat, int>): Emission {
    match call
    case OnDelete(d, accepted) => Emission(WalkedRaw(DeleteEvent, d), 0, HasName(d) && accepted)
    case OnWrite(d, ino, now, accepted) =>
      Emission(WalkedRaw(MtimeEvent, d), 0, !Recent(last, ino, now) && HasName(d) && accepted)
    case OnUtimes(d, accepted) => Emission(WalkedRaw(MtimeEvent, d), 0, HasName(d) && accepted)
    case OnFirstHalf(d, unit, accepted) => Emission(WalkedRaw(RenameFrom, d), unit, HasName(d) && accepted)
    case OnSecondHalf(d, unit, accepted) => Emission(WalkedRaw(RenameTo, d), unit, HasName(d) && accepted)
    case OnEvict(_) => Emission(Raw(MtimeEvent, []), 0, false)
  }

  function EmissionsOf(calls: seq<Call>): (ems: seq<Emission>)
    ensures |ems| == |calls|
  {
    if calls == [] then []
    else
      var init := calls[..|calls| - 1];
      EmissionsOf(init) + [EmissionOf(calls[|calls| - 1], DedupAfter(StepsOf(init)))]
  }

  /**
   For a dentry whose path fits, what its probes emit: its path and the kind of the probe, unless it is dropped, or a write is
   less than a second after the one remembered.
   */
  lemma WholePathsEmitted(d: Dentry, unit: nat, ino: nat, now: int, accepted: bool, last: map<nat, int>)
    requires d.Node? && NamesFit(d) && Depth(d) <= 20
    ensures EmissionOf(OnDelete(d, accepted), last) == Emission(Raw(DeleteEvent, FullPath(d)), 0, accepted)
    ensures EmissionOf(OnUtimes(d, accepted), last) == Emission(Raw(MtimeEvent, FullPath(d)), 0, accepted)
    ensures EmissionOf(OnFirstHalf(d, unit, accepted), last) == Emission(Raw(RenameFrom, FullPath(d)), unit, accepted)
    ensures EmissionOf(OnSecondHalf(d, unit, accepted), last) == Emission(Raw(RenameTo, FullPath(d)), unit, accepted)
    ensures EmissionOf(OnWrite(d, ino, now, accepted), last)
         == Emission(Raw(MtimeEvent, FullPath(d)), 0, accepted && !(ino in last && now - last[ino] < 1_000_000_000))
  {
    TwentyNamesWhole(d);
    NamedIff(d);
  }

  lemma OneMoreSpelled(ring: seq<FileEvent>, evt: FileEvent, kind: EventType, d: Dentry)
    requires AllInBuffer(ring + [evt]) && Spells(evt, kind, Walked(d, MAX_DEPTH)) && HasName(d)
    ensures AllInBuffer(ring) && RawEvents(ring + [evt]) == RawEvents(ring) + [WalkedRaw(kind, d)]
  {
    assert forall e :: e in ring ==> e in ring + [evt];
    assert RawOf(evt) == WalkedRaw(kind, d);
  }

  function KeptRaws(e: Emission): seq<Raw> {
    if e.kept then [e.raw] else []
  }

  lemma RawContentsLonger(ems: seq<Emission>, e: Emission)
    ensures Raws(Contents(ems + [e])) == Raws(Contents(ems)) + KeptRaws(e)
  {
    ContentsLonger(ems, e);
  }

  function DedupBy(last: map<nat, int>, call: Call): map<nat, int> {
    match call
    case OnWrite(_, ino, now, _) => DedupNext(last, Write(ino, now))
    case OnEvict(ino) => DedupNext(last, Evict(ino))
    case _ => last
  }

  /** At most one more event, which spells a dentry. */
  lemma GrownBy(before: seq<FileEvent>, ring: seq<FileEvent>, emitted: bool, kind: EventType, d: Dentry)
    requires AllInBuffer(ring) && |ring| == |before| + (if emitted then 1 else 0) && ring[..|before|] == before
    requires emitted ==> HasName(d) && Spells(ring[|before|], kind, Walked(d, MAX_DEPTH))
    ensures AllInBuffer(before)
    ensures RawEvents(ring) == RawEvents(before) + (if emitted then [WalkedRaw(kind, d)] else [])
  {
    if emitted {
      assert ring == before + [ring[|before|]];
      OneMoreSpelled(before, ring[|before|], kind, d);
    } else {
      assert ring == before;
    }
  }

  /** One call changes the suppression map and the ring as its emission says. */
  method Fire(programs: Programs, call: Call)
    requires programs.Valid()
    modifies programs, programs.scratch
    ensures programs.Valid() && programs.dedup == DedupBy(old(programs.dedup), call)
    ensures RawEvents(programs.ring)
         == RawEvents(old(programs.ring)) + KeptRaws(EmissionOf(call, old(programs.dedup)))
  {
    ghost var before, e := programs.ring, EmissionOf(call, programs.dedup);
    match call
    case OnDelete(d, accepted) =>
      programs.EmitEvent(d, DeleteEvent, accepted);
      GrownBy(before, programs.ring, e.kept, DeleteEvent, d);
    case OnWrite(d, ino, now, accepted) =>
      programs.TraceWrite(d, ino, now, accepted);
      GrownBy(before, programs.ring, e.kept, MtimeEvent, d);
    case OnUtimes(d, accepted) =>
      programs.EmitEvent(d, MtimeEvent, accepted);
      GrownBy(before, programs.ring, e.kept, MtimeEvent, d);
    case OnFirstHalf(d, _, accepted) =>
      programs.EmitEvent(d, RenameFrom, accepted);
      GrownBy(before, programs.ring, e.kept, RenameFrom, d);
    case OnSecondHalf(d, _, accepted) =>
      programs.EmitEvent(d, RenameTo, accepted);
      GrownBy(before, programs.ring, e.kept, RenameTo, d);
    case OnEvict(ino) =>
      programs.EvictEntry(ino);
  }

  lemma OneMoreCall(calls: seq<Call>, call: Call)
    ensures EmissionsOf(calls + [call]) == EmissionsOf(calls) + [EmissionOf(call, DedupAfter(StepsOf(calls)))]
    ensures DedupAfter(StepsOf(calls + [call])) == DedupBy(DedupAfter(StepsOf(calls)), call)
  {
    assert (calls + [call])[..|calls|] == calls;
    match call
    case OnWrite(_, ino, now, _) =>
      var step := Write(ino, now);
      assert (StepsOf(calls) + [step])[..|StepsOf(calls)|] == StepsOf(calls);
    case OnEvict(ino) =>
      var step := Evict(ino);
      assert (StepsOf(calls) + [step])[..|StepsOf(calls)|] == StepsOf(calls);
    case _ =>
      assert StepsOf(calls) + [] == StepsOf(calls);
  }

  /** From the start, over calls in any order, the ring holds what all emissions leave in it. */
  method FireAll(calls: seq<Call>) returns (programs: Programs)
    ensures fresh(programs) && programs.Valid() && programs.dedup == DedupAfter(StepsOf(calls))
    ensures RawEvents(programs.ring) == Raws(Contents(EmissionsOf(calls)))
  {
    programs := new Programs();
    assert calls[..0] == [];
    for i := 0 to |calls|
      invariant fresh(programs) && fresh(programs.scratch) && programs.Valid()
      invariant programs.dedup == DedupAfter(StepsOf(calls[..i]))
      invariant RawEvents(programs.ring) == Raws(Contents(EmissionsOf(calls[..i])))
    {
      assert calls[..i + 1] == calls[..i] + [calls[i]];
      OneMoreCall(calls[..i], calls[i]);
      RawContentsLonger(EmissionsOf(calls[..i]), EmissionOf(calls[i], programs.dedup));
      Fire(programs, calls[i]);
    }
    assert calls[..|calls|] == calls;
  }
}
