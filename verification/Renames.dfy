/**
 The sequential case of what Emissions says: the probes run one after the other, so the halves of a rename are offered to
 the ring buffer with nothing between them, and only drops can part them.
 */
module Renames {
  import opened Bytes
  import opened Probe
  import opened Events
  import opened Emissions

  /** What one kernel probe emits: a write or delete, or the two halves of a rename. */
  datatype Unit = Single(event: Raw) | RenameUnit(from: Path, to: Path)

  function RenamesOf(prefix: Path, units: seq<Unit>): seq<Rename> {
    if units == [] then []
    else
      var u := units[|units| - 1];
      RenamesOf(prefix, units[..|units| - 1])
      + (if u.RenameUnit? && (prefix <= u.from || prefix <= u.to) then [Rename(u.from, u.to)] else [])
  }

  // ----- The ring buffer -----

  /** A unit and what the ring buffer decides: `first` for a single event or the first half, `second` for the second. */
  datatype Offer = Offer(unit: Unit, first: bool, second: bool)

  function Kept(o: Offer, n: nat): seq<Entry> {
    match o.unit
    case Single(e) => if o.first then [Entry(e, n)] else []
    case RenameUnit(from, to) =>
      (if o.first then [Entry(Raw(RenameFrom, from), n)] else [])
      + (if o.second then [Entry(Raw(RenameTo, to), n)] else [])
  }

  function Ring(offers: seq<Offer>): seq<Entry> {
    if offers == [] then []
    else
      var n := |offers| - 1;
      Ring(offers[..n]) + Kept(offers[n], n)
  }

  predicate OfferOk(o: Offer) {
    o.unit.Single? ==> o.unit.event.kind == DeleteEvent || o.unit.event.kind == MtimeEvent
  }

  predicate OffersOk(offers: seq<Offer>) {
    forall o :: o in offers ==> OfferOk(o)
  }

  predicate FirstOnly(o: Offer) {
    o.unit.RenameUnit? && o.first && !o.second
  }

  predicate SecondOnly(o: Offer) {
    o.unit.RenameUnit? && !o.first && o.second
  }

  predicate Silent(o: Offer) {
    !o.first && (o.unit.RenameUnit? ==> !o.second)
  }

  /** Before the n-th offer, the last thing kept is the first half of unit v, whose second half was dropped. */
  ghost predicate OpenAt(offers: seq<Offer>, v: nat, n: nat)
    requires n <= |offers|
  {
    v < n && FirstOnly(offers[v]) && forall w :: v < w < n ==> Silent(offers[w])
  }

  lemma {:induction false} UnitsBelow(offers: seq<Offer>)
    ensures forall k :: 0 <= k < |Ring(offers)| ==> Ring(offers)[k].unit < |offers|
  {
    if offers != [] {
      var n := |offers| - 1;
      UnitsBelow(offers[..n]);
      assert forall k :: 0 <= k < |Kept(offers[n], n)| ==> Kept(offers[n], n)[k].unit == n;
    }
  }

  ghost predicate Open(offers: seq<Offer>) {
    exists v: nat :: OpenAt(offers, v, |offers|)
  }

  lemma OpenAtLonger(offers: seq<Offer>, o: Offer, v: nat, n: nat)
    requires n <= |offers|
    ensures OpenAt(offers + [o], v, n) <==> OpenAt(offers, v, n)
  {
    assert forall w :: v <= w < n ==> (offers + [o])[w] == offers[w];
  }

  lemma OpenLonger(offers: seq<Offer>, o: Offer)
    ensures Open(offers + [o]) <==> FirstOnly(o) || (Silent(o) && Open(offers))
  {
    var longer, n := offers + [o], |offers|;
    if FirstOnly(o) {
      assert OpenAt(longer, n, n + 1);
    }
    if Silent(o) && Open(offers) {
      var v: nat :| OpenAt(offers, v, n);
      OpenAtLonger(offers, o, v, n);
      assert OpenAt(longer, v, n + 1);
    }
    if Open(longer) {
      var v: nat :| OpenAt(longer, v, |longer|);
      if v < n {
        assert Silent(longer[n]) && OpenAt(longer, v, n);
        OpenAtLonger(offers, o, v, n);
      }
    }
  }

  lemma KeptEnds(ring: seq<Entry>, o: Offer, n: nat)
    requires OfferOk(o)
    ensures EndsOpen(ring + Kept(o, n)) <==> FirstOnly(o) || (Silent(o) && EndsOpen(ring))
    ensures Kept(o, n) != [] && Kept(o, n)[0].raw.kind == RenameTo <==> SecondOnly(o)
  {
    if Silent(o) {
      assert ring + Kept(o, n) == ring;
    }
  }

  lemma RingLonger(offers: seq<Offer>, o: Offer)
    ensures Ring(offers + [o]) == Ring(offers) + Kept(o, |offers|)
  {
    assert (offers + [o])[..|offers|] == offers;
  }

  lemma {:induction false} OpenIffEndsOpen(offers: seq<Offer>)
    requires OffersOk(offers)
    ensures Open(offers) <==> EndsOpen(Ring(offers))
  {
    if offers != [] {
      var n := |offers| - 1;
      assert offers == offers[..n] + [offers[n]];
      OpenIffEndsOpen(offers[..n]);
      OpenLonger(offers[..n], offers[n]);
      RingLonger(offers[..n], offers[n]);
      KeptEnds(Ring(offers[..n]), offers[n], n);
    }
  }

  /** What is mispaired in a longer ring was so before, or is the first of the new entries with the last of the old. */
  lemma MispairedLonger(ring: seq<Entry>, more: seq<Entry>, n: nat)
    requires forall k :: 0 <= k < |ring| ==> ring[k].unit < n
    requires |more| <= 2 && forall k :: 0 <= k < |more| ==> more[k].unit == n
    ensures Mispaired(ring + more) <==>
              || Mispaired(ring)
              || (EndsOpen(ring) && more != [] && more[0].raw.kind == RenameTo)
  {
    var longer := ring + more;
    if k: nat :| 0 < k < |ring| && MispairedAt(ring, k) {
      assert MispairedAt(longer, k);
    }
    if k: nat :| 0 < k < |longer| && MispairedAt(longer, k) {
      if k < |ring| {
        assert MispairedAt(ring, k);
      }
    }
    if EndsOpen(ring) && more != [] && more[0].raw.kind == RenameTo {
      assert MispairedAt(longer, |ring|);
    }
  }

  /** A first half kept alone, then nothing kept, then a second half kept alone. */
  ghost predicate CrossedAt(offers: seq<Offer>, v: nat, u: nat) {
    u < |offers| && OpenAt(offers, v, u) && SecondOnly(offers[u])
  }

  ghost predicate Crossed(offers: seq<Offer>) {
    exists v: nat, u: nat :: CrossedAt(offers, v, u)
  }

  lemma CrossedLonger(offers: seq<Offer>, o: Offer)
    ensures Crossed(offers + [o]) <==> Crossed(offers) || (Open(offers) && SecondOnly(o))
  {
    var longer, n := offers + [o], |offers|;
    if v: nat, u: nat :| CrossedAt(offers, v, u) {
      OpenAtLonger(offers, o, v, u);
      assert CrossedAt(longer, v, u);
    }
    if Open(offers) && SecondOnly(o) {
      var v: nat :| OpenAt(offers, v, n);
      OpenAtLonger(offers, o, v, n);
      assert CrossedAt(longer, v, n);
    }
    if v: nat, u: nat :| CrossedAt(longer, v, u) {
      OpenAtLonger(offers, o, v, u);
      if u < n {
        assert CrossedAt(offers, v, u);
      }
    }
  }

  /**
   Exactly when userspace is led to a rename that was not made: a second half is kept whose first half was dropped, and
   before it, with everything in between dropped, a first half was kept whose second half was dropped.
   */
  lemma {:induction false} MispairedIff(offers: seq<Offer>)
    requires OffersOk(offers)
    ensures Mispaired(Ring(offers)) <==> Crossed(offers)
  {
    if offers != [] {
      var n := |offers| - 1;
      assert offers == offers[..n] + [offers[n]];
      MispairedIff(offers[..n]);
      CrossedLonger(offers[..n], offers[n]);
      OpenIffEndsOpen(offers[..n]);
      MispairedMore(offers[..n], offers[n]);
    }
  }

  lemma MispairedByKept(ring: seq<Entry>, o: Offer, n: nat)
    requires OfferOk(o) && forall k :: 0 <= k < |ring| ==> ring[k].unit < n
    ensures Mispaired(ring + Kept(o, n)) <==> Mispaired(ring) || (EndsOpen(ring) && SecondOnly(o))
  {
    KeptEnds(ring, o, n);
    MispairedLonger(ring, Kept(o, n), n);
  }

  lemma MispairedMore(offers: seq<Offer>, o: Offer)
    requires OfferOk(o)
    ensures Mispaired(Ring(offers + [o])) <==> Mispaired(Ring(offers)) || (EndsOpen(Ring(offers)) && SecondOnly(o))
  {
    RingLonger(offers, o);
    UnitsBelow(offers);
    MispairedByKept(Ring(offers), o, |offers|);
  }

  // ----- As emissions -----

  function Halves(o: Offer, n: nat): seq<Emission> {
    match o.unit
    case Single(e) => [Emission(e, n, o.first)]
    case RenameUnit(from, to) =>
      [Emission(Raw(RenameFrom, from), n, o.first), Emission(Raw(RenameTo, to), n, o.second)]
  }

  function Emitted(offers: seq<Offer>): seq<Emission> {
    if offers == [] then []
    else
      var n := |offers| - 1;
      Emitted(offers[..n]) + Halves(offers[n], n)
  }

  /** Offers one after the other leave in the ring what their halves leave in it. */
  lemma {:induction false} SequentialRing(offers: seq<Offer>)
    ensures Contents(Emitted(offers)) == Ring(offers)
  {
    if offers != [] {
      var n := |offers| - 1;
      SequentialRing(offers[..n]);
      HalvesContents(Emitted(offers[..n]), offers[n], n);
    }
  }

  lemma HalvesContents(ems: seq<Emission>, o: Offer, n: nat)
    ensures Contents(ems + Halves(o, n)) == Contents(ems) + Kept(o, n)
  {
    var halves := Halves(o, n);
    if o.unit.Single? {
      assert halves == [halves[0]] && KeptEntry(halves[0]) == Kept(o, n);
      ContentsLonger(ems, halves[0]);
    } else {
      assert halves == [halves[0], halves[1]] && KeptEntry(halves[0]) + KeptEntry(halves[1]) == Kept(o, n);
      TwoMore(ems, halves[0], halves[1]);
    }
  }

  // ----- The renames found -----

  /** The units of which both halves were kept. */
  function Whole(offers: seq<Offer>): seq<Unit> {
    if offers == [] then []
    else
      var n := |offers| - 1;
      Whole(offers[..n]) + (if BothKept(offers[n]) then [offers[n].unit] else [])
  }

  lemma RenamesOfLonger(prefix: Path, units: seq<Unit>, u: Unit)
    ensures RenamesOf(prefix, units + [u]) == RenamesOf(prefix, units)
              + (if u.RenameUnit? && (prefix <= u.from || prefix <= u.to) then [Rename(u.from, u.to)] else [])
  {
    assert (units + [u])[..|units|] == units;
  }

  lemma TwoKept(prefix: Path, ring: seq<Entry>, a: Entry, b: Entry)
    requires a.raw.kind == RenameFrom && b.raw.kind == RenameTo
    ensures Pairs(prefix, Raws(ring + [a, b])) == Pairs(prefix, Raws(ring))
              + (if prefix <= a.raw.path || prefix <= b.raw.path then [Rename(a.raw.path, b.raw.path)] else [])
  {
    OneKept(prefix, ring, a);
    var half := Raws(ring + [a]);
    assert Raws(ring + [a, b]) == half + [b.raw];
    assert half[|half| - 1] == a.raw;
    OneMoreEvent(prefix, half, b.raw);
  }

  /** Unless halves are mispaired, the renames found are those kept whole, in order, whatever else was dropped. */
  lemma {:induction false} WholeRenamesFound(prefix: Path, offers: seq<Offer>)
    requires OffersOk(offers) && !Mispaired(Ring(offers))
    ensures Pairs(prefix, Raws(Ring(offers))) == RenamesOf(prefix, Whole(offers))
  {
    if offers != [] {
      var n := |offers| - 1;
      assert offers == offers[..n] + [offers[n]];
      MispairedMore(offers[..n], offers[n]);
      RingLonger(offers[..n], offers[n]);
      WholeRenamesFound(prefix, offers[..n]);
      OneMoreOffer(prefix, Ring(offers[..n]), offers[n], n, Whole(offers[..n]));
    }
  }

  predicate BothKept(o: Offer) {
    o.unit.RenameUnit? && o.first && o.second
  }

  lemma OneMoreOffer(prefix: Path, ring: seq<Entry>, o: Offer, n: nat, whole: seq<Unit>)
    requires OfferOk(o) && (SecondOnly(o) ==> !EndsOpen(ring))
    requires Pairs(prefix, Raws(ring)) == RenamesOf(prefix, whole)
    ensures Pairs(prefix, Raws(ring + Kept(o, n))) == RenamesOf(prefix, whole + (if BothKept(o) then [o.unit] else []))
  {
    var kept := Kept(o, n);
    if BothKept(o) {
      assert kept == [kept[0], kept[1]];
      TwoKept(prefix, ring, kept[0], kept[1]);
      RenamesOfLonger(prefix, whole, o.unit);
    } else {
      assert whole + [] == whole;
      if kept == [] {
        assert ring + kept == ring;
      } else {
        assert kept == [kept[0]];
        OneKept(prefix, ring, kept[0]);
      }
    }
  }

  predicate NothingDropped(offers: seq<Offer>) {
    forall o :: o in offers ==> o.first && o.second
  }

  function UnitsOf(offers: seq<Offer>): seq<Unit> {
    if offers == [] then [] else UnitsOf(offers[..|offers| - 1]) + [offers[|offers| - 1].unit]
  }

  lemma {:induction false} AllAreWhole(prefix: Path, offers: seq<Offer>)
    requires NothingDropped(offers)
    ensures RenamesOf(prefix, Whole(offers)) == RenamesOf(prefix, UnitsOf(offers))
  {
    if offers != [] {
      var n := |offers| - 1;
      assert offers[n] in offers;
      AllAreWhole(prefix, offers[..n]);
      RenamesOfLonger(prefix, UnitsOf(offers[..n]), offers[n].unit);
      RenamesOfLonger(prefix, Whole(offers[..n]), offers[n].unit);
      assert Whole(offers[..n]) + [] == Whole(offers[..n]);
    }
  }

  /** In particular nothing is mispaired when nothing is dropped: the renames found are those made, in order. */
  lemma WholeUnitsPairUp(prefix: Path, offers: seq<Offer>)
    requires OffersOk(offers) && NothingDropped(offers)
    ensures !Mispaired(Ring(offers)) && Pairs(prefix, Raws(Ring(offers))) == RenamesOf(prefix, UnitsOf(offers))
  {
    MispairedIff(offers);
    WholeRenamesFound(prefix, offers);
    AllAreWhole(prefix, offers);
  }

  /** For instance the inner halves of two renames dropped: one rename is found, and nobody made it. */
  lemma DroppedHalvesMispaired(prefix: Path, a: Path, b: Path, c: Path, d: Path)
    requires prefix <= a
    ensures var offers := [Offer(RenameUnit(a, b), true, false), Offer(RenameUnit(c, d), false, true)];
            Mispaired(Ring(offers)) && Pairs(prefix, Raws(Ring(offers))) == [Rename(a, d)] && Whole(offers) == []
  {
    var first, second := Offer(RenameUnit(a, b), true, false), Offer(RenameUnit(c, d), false, true);
    var offers := [first, second];
    assert offers[..1] == [first] && [first][..0] == [];
    assert CrossedAt(offers, 0, 1);
    MispairedIff(offers);
    assert Ring([first]) == [] + Kept(first, 0);
    assert Ring(offers) == Ring([first]) + Kept(second, 1);
    OneMoreEvent(prefix, [], Raw(RenameFrom, a));
    OneMoreEvent(prefix, [Raw(RenameFrom, a)], Raw(RenameTo, d));
    assert Raws(Ring(offers)) == [] + [Raw(RenameFrom, a)] + [Raw(RenameTo, d)];
    assert Whole([first]) == [];
  }
}
