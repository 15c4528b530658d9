/** Bands of shingled tracks and the read-modify-write planner (src/band.c, src/batch.c). */
module Bands {
  import opened Geometry
  import opened Ascending
  import opened Batch

  /**
    All positions are track numbers. The program keeps `writeHead` and `bandHead` as byte addresses, always
    whole multiples of the track size, and divides them back before every use.
   */
  datatype Band = Band(writeHead: nat, bandHead: nat, flagRMW: bool, rmwStart: nat, rmwEnd: nat, flagCMR: bool)

  function BandOf(track: nat): nat { track / BAND_TRACKS }

  predicate OnDisk(bandCount: nat, tracks: seq<nat>) {
    forall i :: 0 <= i < |tracks| ==> BandOf(tracks[i]) < bandCount
  }

  lemma {:induction false} BelowEndIsOnDisk(bandCount: nat, s: set<nat>, lo: nat, hi: nat)
    requires hi <= bandCount * BAND_TRACKS
    ensures OnDisk(bandCount, Between(s, lo, hi))
  {
    BetweenMembers(s, lo, hi);
    var r := Between(s, lo, hi);
    forall i | 0 <= i < |r| ensures BandOf(r[i]) < bandCount { assert r[i] in r; }
  }

  predicate InBand(track: nat, b: nat) {
    b * BAND_TRACKS <= track < (b + 1) * BAND_TRACKS
  }

  /** A band as init_band leaves it: its head at its first track, shingled, not yet RMW. */
  ghost predicate InitialBand(band: Band, b: nat) {
    band.writeHead == band.bandHead == b * BAND_TRACKS && !band.flagRMW && !band.flagCMR
  }

  /** Heads and RMW windows never leave their band. */
  ghost predicate WellPlaced(bands: seq<Band>) {
    forall b :: 0 <= b < |bands| ==>
      && bands[b].bandHead == b * BAND_TRACKS
      && InBand(bands[b].writeHead, b)
      && (bands[b].flagRMW ==> InBand(bands[b].rmwStart, b) && InBand(bands[b].rmwEnd, b))
  }

  /** No live track of a shingled band lies beyond the band's write head. */
  ghost predicate Dominated(bands: seq<Band>, live: set<nat>) {
    forall t :: t in live ==> BandOf(t) < |bands| && (bands[BandOf(t)].flagCMR || t <= bands[BandOf(t)].writeHead)
  }

  /** No head moves back, and no band changes kind. */
  ghost predicate HeadsAdvance(before: seq<Band>, after: seq<Band>) {
    && |after| == |before|
    && forall b :: 0 <= b < |before| ==>
         before[b].writeHead <= after[b].writeHead && before[b].flagCMR == after[b].flagCMR
  }

  /** Every band is shingled, as init_band leaves them. */
  ghost predicate AllShingled(bands: seq<Band>) {
    forall b :: 0 <= b < |bands| ==> !bands[b].flagCMR
  }

  /** No track of the set lies beyond its band's write head. */
  ghost predicate BelowHeads(bands: seq<Band>, live: set<nat>) {
    forall t :: t in live ==> BandOf(t) < |bands| && t <= bands[BandOf(t)].writeHead
  }

  // ----- the first loop: one batch entry moves one band ---------------------

  /** The effect of one batch entry on the band that holds its track. */
  function Touch(b: Band, track: nat): Band {
    if !b.flagRMW then
      if track >= b.writeHead then b.(writeHead := track)
      else b.(flagRMW := true, rmwStart := track, rmwEnd := track)
    else
      if track >= b.writeHead then b.(rmwEnd := track, writeHead := track)
      else b.(rmwEnd := track)
  }

  predicate Shingled(skipCMR: bool, b: Band) { !(skipCMR && b.flagCMR) }

  /** The bands after a list of tracks; `skipCMR` is the FluidSMR planner, which passes over CMR bands. */
  function TouchAll(skipCMR: bool, bands: seq<Band>, tracks: seq<nat>): (r: seq<Band>)
    requires OnDisk(|bands|, tracks)
    ensures |r| == |bands|
    ensures forall b :: 0 <= b < |r| ==> r[b].flagCMR == bands[b].flagCMR && r[b].bandHead == bands[b].bandHead
  {
    if |tracks| == 0 then bands
    else
      var track := tracks[|tracks| - 1];
      var before := TouchAll(skipCMR, bands, tracks[..|tracks| - 1]);
      var b := BandOf(track);
      if Shingled(skipCMR, before[b]) then before[b := Touch(before[b], track)] else before
  }

  /** The tracks of a list that move band `b`. */
  ghost function Touched(skipCMR: bool, bands: seq<Band>, tracks: seq<nat>, b: nat): set<nat>
    requires b < |bands|
  {
    set t | t in tracks && BandOf(t) == b && Shingled(skipCMR, bands[b])
  }

  /** What an ascending list of tracks does to a band, stated without the order of the steps. */
  ghost predicate Replanned(before: Band, after: Band, touched: set<nat>) {
    && after.bandHead == before.bandHead && after.flagCMR == before.flagCMR
    && (touched == {} ==> after == before)
    // the head becomes the maximum of the old head and the touched tracks
    && before.writeHead <= after.writeHead
    && (forall t :: t in touched ==> t <= after.writeHead)
    && (after.writeHead == before.writeHead || after.writeHead in touched)
    // the band turns RMW exactly when a track below the old head is touched, and never turns back
    && (after.flagRMW <==> before.flagRMW || exists t :: t in touched && t < before.writeHead)
    // the window ends at the largest touched track, and starts at the smallest one of the request that opened it
    && (after.flagRMW && touched != {} ==> after.rmwEnd in touched && forall t :: t in touched ==> t <= after.rmwEnd)
    && (!before.flagRMW && after.flagRMW ==> after.rmwStart in touched && forall t :: t in touched ==> after.rmwStart <= t)
    && (before.flagRMW ==> after.rmwStart == before.rmwStart)
  }

  lemma {:induction false} ReplannedNone(b: Band, touched: set<nat>)
    requires forall t :: t !in touched
    ensures Replanned(b, b, touched)
  {
    assert touched == {};
  }

  lemma {:induction false} ReplannedStep(before: Band, b: Band, touched: set<nat>, track: nat)
    requires Replanned(before, b, touched)
    requires forall t :: t in touched ==> t < track
    ensures Replanned(before, Touch(b, track), touched + {track})
  {
    var after := Touch(b, track);
    assert track in touched + {track};
    if !b.flagRMW && track < b.writeHead {
      assert b.writeHead == before.writeHead;
      assert forall t :: t in touched ==> t < before.writeHead;
    }
  }

  lemma {:induction false} TouchedStep(skipCMR: bool, bands: seq<Band>, init: seq<nat>, track: nat, b: nat)
    requires b < |bands|
    ensures Touched(skipCMR, bands, init + [track], b) ==
            Touched(skipCMR, bands, init, b) + if BandOf(track) == b && Shingled(skipCMR, bands[b]) then {track} else {}
  {
  }

  lemma {:induction false} TouchAllStep(skipCMR: bool, bands: seq<Band>, init: seq<nat>, track: nat, b: nat)
    requires OnDisk(|bands|, init) && BandOf(track) < |bands| && b < |bands|
    ensures OnDisk(|bands|, init + [track])
    ensures TouchAll(skipCMR, bands, init + [track])[b] ==
            var before := TouchAll(skipCMR, bands, init)[b];
            if BandOf(track) == b && Shingled(skipCMR, bands[b]) then Touch(before, track) else before
  {
    assert (init + [track])[..|init|] == init;
  }

  lemma {:induction false} TouchAllEffectStep(skipCMR: bool, bands: seq<Band>, init: seq<nat>, track: nat, b: nat)
    requires OnDisk(|bands|, init) && BandOf(track) < |bands| && b < |bands|
    requires forall t :: t in init ==> t < track
    requires Replanned(bands[b], TouchAll(skipCMR, bands, init)[b], Touched(skipCMR, bands, init, b))
    ensures OnDisk(|bands|, init + [track])
    ensures Replanned(bands[b], TouchAll(skipCMR, bands, init + [track])[b], Touched(skipCMR, bands, init + [track], b))
  {
    TouchAllStep(skipCMR, bands, init, track, b);
    TouchedStep(skipCMR, bands, init, track, b);
    var before, touched := TouchAll(skipCMR, bands, init)[b], Touched(skipCMR, bands, init, b);
    if BandOf(track) == b && Shingled(skipCMR, bands[b]) {
      ReplannedStep(bands[b], before, touched, track);
    } else {
      assert Touched(skipCMR, bands, init + [track], b) == touched;
    }
  }

  /** One planning pass over an ascending batch, band by band. */
  lemma {:induction false} TouchAllEffect(skipCMR: bool, bands: seq<Band>, tracks: seq<nat>, b: nat)
    requires StrictlyAscending(tracks) && OnDisk(|bands|, tracks)
    requires b < |bands|
    ensures Replanned(bands[b], TouchAll(skipCMR, bands, tracks)[b], Touched(skipCMR, bands, tracks, b))
  {
    if |tracks| == 0 {
      ReplannedNone(bands[b], Touched(skipCMR, bands, tracks, b));
    } else {
      var init, track := tracks[..|tracks| - 1], tracks[|tracks| - 1];
      assert tracks == init + [track];
      TouchAllEffect(skipCMR, bands, init, b);
      TouchAllEffectStep(skipCMR, bands, init, track, b);
    }
  }

  lemma {:induction false} BandStaysWellPlaced(skipCMR: bool, bands: seq<Band>, tracks: seq<nat>, b: nat)
    requires WellPlaced(bands)
    requires StrictlyAscending(tracks) && OnDisk(|bands|, tracks) && b < |bands|
    ensures var after := TouchAll(skipCMR, bands, tracks)[b];
      && after.bandHead == b * BAND_TRACKS
      && InBand(after.writeHead, b) && bands[b].writeHead <= after.writeHead
      && (after.flagRMW ==> InBand(after.rmwStart, b) && InBand(after.rmwEnd, b))
  {
    TouchAllEffect(skipCMR, bands, tracks, b);
    assert forall t :: t in Touched(skipCMR, bands, tracks, b) ==> InBand(t, b);
  }

  /** Planning keeps heads and windows inside their bands and never moves a head back. */
  lemma {:induction false} TouchAllWellPlaced(skipCMR: bool, bands: seq<Band>, tracks: seq<nat>)
    requires WellPlaced(bands)
    requires StrictlyAscending(tracks) && OnDisk(|bands|, tracks)
    ensures WellPlaced(TouchAll(skipCMR, bands, tracks))
    ensures HeadsAdvance(bands, TouchAll(skipCMR, bands, tracks))
  {
    forall b: nat | b < |bands|
      ensures var after := TouchAll(skipCMR, bands, tracks)[b];
        && after.bandHead == b * BAND_TRACKS
        && InBand(after.writeHead, b) && bands[b].writeHead <= after.writeHead
        && (after.flagRMW ==> InBand(after.rmwStart, b) && InBand(after.rmwEnd, b))
    {
      BandStaysWellPlaced(skipCMR, bands, tracks, b);
    }
  }

  /** Write-head dominance survives a write: the batch itself joins the live tracks. */
  lemma {:induction false} TouchAllDominated(skipCMR: bool, bands: seq<Band>, tracks: seq<nat>, live: set<nat>)
    requires Dominated(bands, live)
    requires StrictlyAscending(tracks)
    requires OnDisk(|bands|, tracks)
    ensures Dominated(TouchAll(skipCMR, bands, tracks), live + Elements(tracks))
  {
    var after := TouchAll(skipCMR, bands, tracks);
    forall t | t in live + Elements(tracks)
      ensures BandOf(t) < |after| && (after[BandOf(t)].flagCMR || t <= after[BandOf(t)].writeHead)
    {
      if t in tracks { var i :| 0 <= i < |tracks| && tracks[i] == t; }
      var b := BandOf(t);
      TouchAllEffect(skipCMR, bands, tracks, b);
      if t in tracks && !after[b].flagCMR { assert t in Touched(skipCMR, bands, tracks, b); }
    }
  }

  lemma {:induction false} DominatedShrinks(bands: seq<Band>, live: set<nat>, live': set<nat>)
    requires Dominated(bands, live) && live' <= live
    ensures Dominated(bands, live')
  {
  }

  /** Planning a batch of live tracks (a delete) moves no head of a shingled band. */
  lemma {:induction false} LiveBatchKeepsHeads(skipCMR: bool, bands: seq<Band>, tracks: seq<nat>, live: set<nat>, b: nat)
    requires Dominated(bands, live)
    requires StrictlyAscending(tracks)
    requires forall i :: 0 <= i < |tracks| ==> tracks[i] in live
    requires b < |bands| && !bands[b].flagCMR
    ensures OnDisk(|bands|, tracks)
    ensures TouchAll(skipCMR, bands, tracks)[b].writeHead == bands[b].writeHead
  {
    TouchAllEffect(skipCMR, bands, tracks, b);
  }

  /** The track is in a CMR band, or a shingled write there needs no read-modify-write. */
  ghost predicate AtOrPastHead(bands: seq<Band>, track: nat) {
    BandOf(track) < |bands| && (bands[BandOf(track)].flagCMR || track >= bands[BandOf(track)].writeHead)
  }

  /** In the FluidSMR planner, tracks at or past their band's head never turn a band RMW. */
  lemma {:induction false} FreshBatchKeepsFlags(bands: seq<Band>, tracks: seq<nat>, b: nat)
    requires StrictlyAscending(tracks)
    requires OnDisk(|bands|, tracks)
    requires forall i :: 0 <= i < |tracks| ==> AtOrPastHead(bands, tracks[i])
    requires b < |bands|
    ensures TouchAll(true, bands, tracks)[b].flagRMW == bands[b].flagRMW
  {
    TouchAllEffect(true, bands, tracks, b);
  }

  // ----- the second loop: live tracks of flagged bands ----------------------

  /** NATIVE_A also rewrites the live tracks before the window. */
  function BandFront(nativeA: bool, b: Band, live: set<nat>): seq<Entry> {
    if nativeA then Virtual(Between(live, b.bandHead, b.rmwStart)) else []
  }

  /** The virtual entries one band contributes. */
  function BandTail(nativeA: bool, b: Band, live: set<nat>): seq<Entry> {
    if b.flagRMW then BandFront(nativeA, b, live) + Virtual(Between(live, b.rmwEnd + 1, b.writeHead + 1)) else []
  }

  function Tails(nativeA: bool, bands: seq<Band>, live: set<nat>, n: nat): seq<Entry>
    requires n <= |bands|
  {
    if n == 0 then []
    else Tails(nativeA, bands, live, n - 1) + BandTail(nativeA, bands[n - 1], live)
  }

  lemma {:induction false} TailsStep(nativeA: bool, bands: seq<Band>, live: set<nat>, n: nat, table: seq<Entry>)
    requires n < |bands|
    ensures (table + Tails(nativeA, bands, live, n)) + BandTail(nativeA, bands[n], live)
            == table + Tails(nativeA, bands, live, n + 1)
  {
    AppendTwice(table, Tails(nativeA, bands, live, n), BandTail(nativeA, bands[n], live));
  }

  /** The list batch_extend plans: the batch, then what each flagged band needs rewritten. */
  function Plan(nativeA: bool, bands: seq<Band>, live: set<nat>, tracks: seq<nat>): seq<Entry>
    requires OnDisk(|bands|, tracks)
  {
    Physical(tracks) + Tails(nativeA, TouchAll(false, bands, tracks), live, |bands|)
  }

  /** The list batch_extend_fluidsmr plans: its band scan sits inside the loop over the batch. */
  function FluidPlan(bands: seq<Band>, live: set<nat>, tracks: seq<nat>): seq<Entry>
    requires OnDisk(|bands|, tracks)
  {
    if |tracks| == 0 then []
    else
      FluidPlan(bands, live, tracks[..|tracks| - 1]) + [Entry(tracks[|tracks| - 1], false)]
      + Tails(false, TouchAll(true, bands, tracks), live, |bands|)
  }

  lemma {:induction false} FluidPlanOfNone(bands: seq<Band>, live: set<nat>)
    ensures TouchAll(true, bands, []) == bands && FluidPlan(bands, live, []) == []
  {
  }

  /** One turn of the FluidSMR planner: it touches a band, lists the entry, and scans what is then flagged. */
  lemma {:induction false} FluidPlanTurn(bands: seq<Band>, live: set<nat>, tracks: seq<nat>, i: nat)
    requires WellPlaced(bands) && StrictlyAscending(tracks) && OnDisk(|bands|, tracks) && i < |tracks|
    ensures OnDisk(|bands|, tracks[..i]) && OnDisk(|bands|, tracks[..i + 1]) && BandOf(tracks[i]) < |bands|
    ensures var before, after, b := TouchAll(true, bands, tracks[..i]), TouchAll(true, bands, tracks[..i + 1]), BandOf(tracks[i]);
      && after == (if before[b].flagCMR then before else before[b := Touch(before[b], tracks[i])])
      && WellPlaced(after)
      && FluidPlan(bands, live, tracks[..i + 1])
         == FluidPlan(bands, live, tracks[..i]) + [Entry(tracks[i], false)] + Tails(false, after, live, |bands|)
  {
    assert tracks[..i + 1][..i] == tracks[..i];
    TouchAllWellPlaced(true, bands, tracks[..i + 1]);
  }

  /** The live tracks that lie past the window of a flagged band, up to its head. */
  ghost predicate InTail(bands: seq<Band>, live: set<nat>, t: nat) {
    && BandOf(t) < |bands| && t in live && bands[BandOf(t)].flagRMW
    && bands[BandOf(t)].rmwEnd < t <= bands[BandOf(t)].writeHead
  }

  ghost function TailSet(bands: seq<Band>, live: set<nat>): set<nat> {
    set t | t in live && InTail(bands, live, t)
  }

  /** The part of the tail set in one band. */
  lemma {:induction false} TailSetInBand(bands: seq<Band>, live: set<nat>, b: nat)
    requires b < |bands|
    ensures forall t: nat :: b * BAND_TRACKS <= t < (b + 1) * BAND_TRACKS ==>
              (t in TailSet(bands, live) <==> t in live && bands[b].flagRMW && bands[b].rmwEnd < t <= bands[b].writeHead)
  {
    assert forall t: nat :: b * BAND_TRACKS <= t < (b + 1) * BAND_TRACKS ==> BandOf(t) == b;
  }

  lemma {:induction false} BandTailIsScan(bands: seq<Band>, live: set<nat>, b: nat)
    requires b < |bands| && WellPlaced(bands)
    ensures BandTail(false, bands[b], live) == Virtual(Between(TailSet(bands, live), b * BAND_TRACKS, (b + 1) * BAND_TRACKS))
  {
    var s, d, lo, hi := TailSet(bands, live), bands[b], b * BAND_TRACKS, (b + 1) * BAND_TRACKS;
    TailSetInBand(bands, live, b);
    hide TailSet, Between, Virtual;
    if !d.flagRMW {
      BetweenNone(s, lo, hi);
    } else {
      BetweenAgree(live, s, d.rmwEnd + 1, d.writeHead + 1);
      if d.rmwEnd <= d.writeHead {
        BetweenNarrow(s, lo, d.rmwEnd + 1, d.writeHead + 1, hi);
      } else {
        BetweenNone(s, lo, hi);
      }
    }
  }

  lemma {:induction false} NothingToScan(bands: seq<Band>, live: set<nat>)
    ensures Tails(false, bands, live, 0) == Virtual(Between(TailSet(bands, live), 0, 0))
  {
  }

  /** The scans of all bands together are one ascending scan of the tail set. */
  lemma {:induction false} TailsAreScan(bands: seq<Band>, live: set<nat>, n: nat)
    requires n <= |bands| && WellPlaced(bands)
    ensures Tails(false, bands, live, n) == Virtual(Between(TailSet(bands, live), 0, n * BAND_TRACKS))
  {
    hide BandTail, Between, TailSet, Virtual, WellPlaced;
    if n == 0 {
      NothingToScan(bands, live);
    } else {
      TailsAreScan(bands, live, n - 1);
      BandTailIsScan(bands, live, n - 1);
      var s, mid := TailSet(bands, live), (n - 1) * BAND_TRACKS;
      BetweenSplit(s, 0, mid, n * BAND_TRACKS);
      VirtualConcat(Between(s, 0, mid), Between(s, mid, n * BAND_TRACKS));
    }
  }

  lemma {:induction false} TailMissesBatch(bands: seq<Band>, live: set<nat>, tracks: seq<nat>)
    requires StrictlyAscending(tracks) && OnDisk(|bands|, tracks)
    ensures forall t :: t in TailSet(TouchAll(false, bands, tracks), live) ==> t !in tracks
  {
    var after := TouchAll(false, bands, tracks);
    forall t | t in tracks ensures t !in TailSet(after, live) {
      var b := BandOf(t);
      TouchAllEffect(false, bands, tracks, b);
      assert t in Touched(false, bands, tracks, b);
    }
  }

  lemma {:induction false} DisjointConcat(a: seq<nat>, b: seq<nat>)
    requires StrictlyAscending(a) && StrictlyAscending(b)
    requires forall t :: t in b ==> t !in a
    ensures NoDuplicates(a + b)
  {
    forall i, j | 0 <= i < j < |a + b| ensures (a + b)[i] != (a + b)[j] {
      if i < |a| <= j { assert a[i] in a && b[j - |a|] in b; }
    }
  }

  /**
    Without NATIVE_A the planned list is the batch followed by one ascending scan of the tail set; it
    holds every track once, and never more tracks than the disk has.
   */
  lemma {:induction false} PlanIsDuplicateFree(bands: seq<Band>, live: set<nat>, tracks: seq<nat>)
    requires WellPlaced(bands) && StrictlyAscending(tracks) && OnDisk(|bands|, tracks)
    ensures var tail := Between(TailSet(TouchAll(false, bands, tracks), live), 0, |bands| * BAND_TRACKS);
      && Plan(false, bands, live, tracks) == Physical(tracks) + Virtual(tail)
      && NoDuplicates(tracks + tail)
      && |Plan(false, bands, live, tracks)| <= |bands| * BAND_TRACKS
  {
    var after, n := TouchAll(false, bands, tracks), |bands| * BAND_TRACKS;
    TouchAllWellPlaced(false, bands, tracks);
    TailsAreScan(after, live, |bands|);
    var tail := Between(TailSet(after, live), 0, n);
    BetweenMembers(TailSet(after, live), 0, n);
    TailMissesBatch(bands, live, tracks);
    DisjointConcat(tracks, tail);
    forall i | 0 <= i < |tracks + tail| ensures (tracks + tail)[i] < n {
      if i >= |tracks| { assert tail[i - |tracks|] in tail; }
    }
    DistinctBelow(tracks + tail, n);
  }

  /** Under dominance, scanning to the head finds the same tracks as scanning to the end of the band. */
  lemma {:induction false} ScanToHeadIsScanOfBand(bands: seq<Band>, live: set<nat>, b: nat)
    requires WellPlaced(bands) && Dominated(bands, live)
    requires b < |bands| && bands[b].flagRMW && !bands[b].flagCMR
    ensures BandTail(false, bands[b], live) == Virtual(Between(live, bands[b].rmwEnd + 1, (b + 1) * BAND_TRACKS))
  {
    var head, hi := bands[b].writeHead + 1, (b + 1) * BAND_TRACKS;
    forall t: nat | b * BAND_TRACKS <= t && head <= t < hi ensures t !in live {
      assert BandOf(t) == b;
    }
    if bands[b].rmwEnd + 1 <= head {
      BetweenNarrow(live, bands[b].rmwEnd + 1, bands[b].rmwEnd + 1, head, hi);
    } else {
      BetweenNone(live, bands[b].rmwEnd + 1, hi);
    }
  }

  lemma {:induction false} BandTailIsVirtual(nativeA: bool, b: Band, live: set<nat>)
    ensures CountPhysical(BandTail(nativeA, b, live)) == 0
  {
    hide CountPhysical, Between;
    CountPhysicalUniform(BandTail(nativeA, b, live), true);
  }

  /** Every planner writes exactly the batch physically: everything it adds is virtual. */
  lemma {:induction false} TailsAreVirtual(nativeA: bool, bands: seq<Band>, live: set<nat>, n: nat)
    requires n <= |bands|
    ensures CountPhysical(Tails(nativeA, bands, live, n)) == 0
  {
    hide CountPhysical, BandTail;
    if n > 0 {
      TailsAreVirtual(nativeA, bands, live, n - 1);
      BandTailIsVirtual(nativeA, bands[n - 1], live);
      CountPhysicalConcat(Tails(nativeA, bands, live, n - 1), BandTail(nativeA, bands[n - 1], live));
    } else {
      CountPhysicalUniform([], true);
    }
  }

  lemma {:induction false} PlanPhysicalCount(nativeA: bool, bands: seq<Band>, live: set<nat>, tracks: seq<nat>)
    requires OnDisk(|bands|, tracks)
    ensures CountPhysical(Plan(nativeA, bands, live, tracks)) == |tracks|
  {
    var tails := Tails(nativeA, TouchAll(false, bands, tracks), live, |bands|);
    TailsAreVirtual(nativeA, TouchAll(false, bands, tracks), live, |bands|);
    CountPhysicalUniform(Physical(tracks), false);
    CountPhysicalConcat(Physical(tracks), tails);
  }

  lemma {:induction false} FluidPlanPhysicalCount(bands: seq<Band>, live: set<nat>, tracks: seq<nat>)
    requires OnDisk(|bands|, tracks)
    ensures CountPhysical(FluidPlan(bands, live, tracks)) == |tracks|
    ensures |FluidPlan(bands, live, tracks)| >= |tracks|
  {
    if tracks != [] {
      var init, e := tracks[..|tracks| - 1], [Entry(tracks[|tracks| - 1], false)];
      var tails := Tails(false, TouchAll(true, bands, tracks), live, |bands|);
      FluidPlanPhysicalCount(bands, live, init);
      TailsAreVirtual(false, TouchAll(true, bands, tracks), live, |bands|);
      CountPhysicalUniform(e, false);
      CountPhysicalConcat(FluidPlan(bands, live, init), e);
      CountPhysicalConcat(FluidPlan(bands, live, init) + e, tails);
    }
  }

  lemma {:induction false} NoFlagNoTail(nativeA: bool, bands: seq<Band>, live: set<nat>, n: nat)
    requires n <= |bands|
    requires forall b :: 0 <= b < n ==> !bands[b].flagRMW
    ensures |Tails(nativeA, bands, live, n)| == 0
  {
    if n > 0 { NoFlagNoTail(nativeA, bands, live, n - 1); }
  }

  lemma {:induction false} FluidPlanStep(bands: seq<Band>, live: set<nat>, tracks: seq<nat>)
    requires OnDisk(|bands|, tracks) && tracks != []
    ensures FluidPlan(bands, live, tracks)
            == FluidPlan(bands, live, tracks[..|tracks| - 1]) + [Entry(tracks[|tracks| - 1], false)]
               + Tails(false, TouchAll(true, bands, tracks), live, |bands|)
  {
  }

  lemma {:induction false} FreshBatchHasNoTail(bands: seq<Band>, live: set<nat>, tracks: seq<nat>)
    requires StrictlyAscending(tracks) && OnDisk(|bands|, tracks)
    requires forall i :: 0 <= i < |tracks| ==> AtOrPastHead(bands, tracks[i])
    requires forall b :: 0 <= b < |bands| ==> !bands[b].flagRMW
    ensures |Tails(false, TouchAll(true, bands, tracks), live, |bands|)| == 0
  {
    forall b | 0 <= b < |bands| ensures !TouchAll(true, bands, tracks)[b].flagRMW {
      FreshBatchKeepsFlags(bands, tracks, b);
    }
    NoFlagNoTail(false, TouchAll(true, bands, tracks), live, |bands|);
  }

  /** While no band is RMW, a FluidSMR append at or past the heads is charged for its own tracks only. */
  lemma {:induction false} FreshFluidPlanIsPhysical(bands: seq<Band>, live: set<nat>, tracks: seq<nat>)
    requires StrictlyAscending(tracks) && OnDisk(|bands|, tracks)
    requires forall i :: 0 <= i < |tracks| ==> AtOrPastHead(bands, tracks[i])
    requires forall b :: 0 <= b < |bands| ==> !bands[b].flagRMW
    ensures FluidPlan(bands, live, tracks) == Physical(tracks)
  {
    if |tracks| > 0 {
      hide TouchAll, Tails, AtOrPastHead;
      var init := tracks[..|tracks| - 1];
      FreshFluidPlanIsPhysical(bands, live, init);
      FreshBatchHasNoTail(bands, live, tracks);
      FluidPlanStep(bands, live, tracks);
    }
  }

  lemma {:induction false} TailsHave(nativeA: bool, bands: seq<Band>, live: set<nat>, n: nat, b: nat)
    requires b < n <= |bands|
    ensures |BandTail(nativeA, bands[b], live)| <= |Tails(nativeA, bands, live, n)|
  {
    hide BandTail;
    if b < n - 1 { TailsHave(nativeA, bands, live, n - 1, b); }
  }

  /** A track below the head of its shingled band is never planned alone while the track at the head is live. */
  lemma {:induction false} RewrittenTrackHasTail(bands: seq<Band>, live: set<nat>, track: nat, b: nat)
    requires b < |bands| && BandOf(track) == b && !bands[b].flagCMR
    requires track < bands[b].writeHead && bands[b].writeHead in live
    ensures OnDisk(|bands|, [track]) && |FluidPlan(bands, live, [track])| > 1
  {
    var after := TouchAll(true, bands, [track]);
    FluidPlanStep(bands, live, [track]);
    assert [track][..0] == [];
    assert after[b] == Touch(bands[b], track);
    BetweenMembers(live, track + 1, bands[b].writeHead + 1);
    TailsHave(false, after, live, |bands|, b);
  }

  // ----- how often the planner lists a track --------------------------------------------------

  function CopiesTo(m: seq<Entry>, k: nat, t: nat): nat
    requires k <= |m|
  {
    if k == 0 then 0 else CopiesTo(m, k - 1, t) + if m[k - 1].pba == t then 1 else 0
  }

  /** The entries of a list for a track. */
  function Copies(m: seq<Entry>, t: nat): nat { CopiesTo(m, |m|, t) }

  lemma {:induction false} CopiesToPrefix(a: seq<Entry>, b: seq<Entry>, k: nat, t: nat)
    requires k <= |a|
    ensures CopiesTo(a + b, k, t) == CopiesTo(a, k, t)
  {
    if k > 0 { CopiesToPrefix(a, b, k - 1, t); }
  }

  lemma {:induction false} CopiesToConcat(a: seq<Entry>, b: seq<Entry>, k: nat, t: nat)
    requires k <= |b|
    ensures CopiesTo(a + b, |a| + k, t) == Copies(a, t) + CopiesTo(b, k, t)
  {
    if k > 0 {
      CopiesToConcat(a, b, k - 1, t);
    } else {
      CopiesToPrefix(a, b, |a|, t);
    }
  }

  lemma {:induction false} CopiesConcat(a: seq<Entry>, b: seq<Entry>, t: nat)
    ensures Copies(a + b, t) == Copies(a, t) + Copies(b, t)
  {
    CopiesToConcat(a, b, |b|, t);
  }

  lemma {:induction false} CopiesOfAscending(r: seq<nat>, isVirtual: bool, k: nat, t: nat)
    requires StrictlyAscending(r) && k <= |r|
    ensures CopiesTo(Marked(r, isVirtual), k, t) == if exists i :: 0 <= i < k && r[i] == t then 1 else 0
  {
    if k > 0 { CopiesOfAscending(r, isVirtual, k - 1, t); }
  }

  lemma {:induction false} CopiesOfMarked(r: seq<nat>, isVirtual: bool, t: nat)
    requires StrictlyAscending(r)
    ensures Copies(Marked(r, isVirtual), t) == if t in r then 1 else 0
  {
    CopiesOfAscending(r, isVirtual, |r|, t);
  }

  lemma {:induction false} CopiesOfScan(s: set<nat>, lo: nat, hi: nat, t: nat)
    ensures Copies(Virtual(Between(s, lo, hi)), t) == if lo <= t < hi && t in s then 1 else 0
  {
    BetweenMembers(s, lo, hi);
    CopiesOfMarked(Between(s, lo, hi), true, t);
    assert t in Between(s, lo, hi) <==> lo <= t < hi && t in s;
  }

  /** The live tracks before the window of a flagged band. */
  ghost predicate InFront(bands: seq<Band>, live: set<nat>, t: nat) {
    && BandOf(t) < |bands| && t in live && bands[BandOf(t)].flagRMW
    && bands[BandOf(t)].bandHead <= t < bands[BandOf(t)].rmwStart
  }

  function One(b: bool): nat { if b then 1 else 0 }

  lemma {:induction false} CopiesOfBandTail(nativeA: bool, bands: seq<Band>, live: set<nat>, b: nat, t: nat)
    requires WellPlaced(bands) && b < |bands|
    ensures Copies(BandTail(nativeA, bands[b], live), t)
            == if BandOf(t) == b then One(nativeA && InFront(bands, live, t)) + One(InTail(bands, live, t)) else 0
  {
    var d := bands[b];
    if d.flagRMW {
      var front, back := BandFront(nativeA, d, live), Virtual(Between(live, d.rmwEnd + 1, d.writeHead + 1));
      CopiesConcat(front, back, t);
      CopiesOfScan(live, d.rmwEnd + 1, d.writeHead + 1, t);
      if nativeA { CopiesOfScan(live, d.bandHead, d.rmwStart, t); }
    }
  }

  lemma {:induction false} NoBandsNoCopies(nativeA: bool, bands: seq<Band>, live: set<nat>, t: nat)
    ensures Copies(Tails(nativeA, bands, live, 0), t) == 0
  {
  }

  lemma {:induction false} TailsLast(nativeA: bool, bands: seq<Band>, live: set<nat>, n: nat)
    requires 0 < n <= |bands|
    ensures Tails(nativeA, bands, live, n) == Tails(nativeA, bands, live, n - 1) + BandTail(nativeA, bands[n - 1], live)
  {
  }

  lemma {:induction false} CopiesOfTails(nativeA: bool, bands: seq<Band>, live: set<nat>, n: nat, t: nat)
    requires WellPlaced(bands) && n <= |bands|
    ensures Copies(Tails(nativeA, bands, live, n), t)
            == if BandOf(t) < n then One(nativeA && InFront(bands, live, t)) + One(InTail(bands, live, t)) else 0
  {
    hide *;
    if n == 0 {
      NoBandsNoCopies(nativeA, bands, live, t);
    } else {
      CopiesOfTails(nativeA, bands, live, n - 1, t);
      CopiesOfBandTail(nativeA, bands, live, n - 1, t);
      CopiesConcat(Tails(nativeA, bands, live, n - 1), BandTail(nativeA, bands[n - 1], live), t);
      TailsLast(nativeA, bands, live, n);
    }
  }

  /** Every track is listed once if the batch has it, once if it lies past a window, and in NATIVE_A once if before it. */
  lemma {:induction false} PlanCopies(nativeA: bool, bands: seq<Band>, live: set<nat>, tracks: seq<nat>, t: nat)
    requires WellPlaced(bands) && StrictlyAscending(tracks) && OnDisk(|bands|, tracks)
    ensures var after := TouchAll(false, bands, tracks);
      Copies(Plan(nativeA, bands, live, tracks), t)
      == One(t in tracks) + One(nativeA && InFront(after, live, t)) + One(InTail(after, live, t))
  {
    var after := TouchAll(false, bands, tracks);
    TouchAllWellPlaced(false, bands, tracks);
    CopiesConcat(Physical(tracks), Tails(nativeA, after, live, |bands|), t);
    CopiesOfMarked(tracks, false, t);
    CopiesOfTails(nativeA, after, live, |bands|, t);
  }

  /**
    NATIVE_A lists a track twice exactly when it is live in a band that was RMW before the request, before the start of
    its window, and either the request writes it, or it lies past all the request writes in the band (past the end of
    the window, if that is nothing) and not beyond the head. The start of a window is never refreshed, so any request
    below it makes this happen.
   */
  lemma {:induction false} NativeARepeats(bands: seq<Band>, live: set<nat>, tracks: seq<nat>, t: nat)
    requires WellPlaced(bands) && StrictlyAscending(tracks) && OnDisk(|bands|, tracks)
    ensures Copies(Plan(true, bands, live, tracks), t) > 1
            <==> && BandOf(t) < |bands| && t in live
                 && var b, mine := bands[BandOf(t)], Touched(false, bands, tracks, BandOf(t));
                 && b.flagRMW && t < b.rmwStart
                 && (|| t in tracks
                     || (t <= b.writeHead && (forall u :: u in mine ==> u < t) && (mine == {} ==> b.rmwEnd < t)))
  {
    PlanCopies(true, bands, live, tracks, t);
    if BandOf(t) < |bands| {
      var mine := Touched(false, bands, tracks, BandOf(t));
      TouchAllEffect(false, bands, tracks, BandOf(t));
      TouchAllWellPlaced(false, bands, tracks);
      assert t in tracks <==> t in mine;
    }
  }

  /** One more track for the only band of a disk. */
  lemma {:induction false} TouchOnly(b: Band, init: seq<nat>, track: nat)
    requires OnDisk(1, init) && track < BAND_TRACKS
    ensures OnDisk(1, init + [track])
    ensures TouchAll(false, [b], init + [track]) == [Touch(TouchAll(false, [b], init)[0], track)]
  {
    TouchAllStep(false, [b], init, track, 0);
  }

  /** It does happen on a fresh disk: tracks 3, 5 and 9 are written, then 5 again, then 3. */
  lemma {:induction false} NativeACanRepeat(blank: Band)
    requires InitialBand(blank, 0)
    ensures OnDisk(1, [3, 5, 9]) && OnDisk(1, [5]) && OnDisk(1, [3])
    ensures var bands := TouchAll(false, TouchAll(false, [blank], [3, 5, 9]), [5]);
      Copies(Plan(true, bands, {3, 5, 9}, [3]), 3) == 2
  {
    TouchOnly(blank, [], 3);
    TouchOnly(blank, [3], 5);
    TouchOnly(blank, [3, 5], 9);
    assert [] + [3] == [3] && [3] + [5] == [3, 5] && [3, 5] + [9] == [3, 5, 9];
    var written := blank.(writeHead := 9);
    assert TouchAll(false, [blank], [3, 5, 9]) == [written];
    TouchOnly(written, [], 5);
    assert [] + [5] == [5];
    PlanCopies(true, [written.(flagRMW := true, rmwStart := 5, rmwEnd := 5)], {3, 5, 9}, [3], 3);
  }

  // ----- how long the list is ---------------------------------------------------------------------

  ghost function FrontSet(bands: seq<Band>, live: set<nat>): set<nat> {
    set t | t in live && InFront(bands, live, t)
  }

  lemma {:induction false} BandFrontIsScan(bands: seq<Band>, live: set<nat>, b: nat)
    requires b < |bands| && WellPlaced(bands)
    ensures |Between(FrontSet(bands, live), b * BAND_TRACKS, (b + 1) * BAND_TRACKS)|
            == if bands[b].flagRMW then |BandFront(true, bands[b], live)| else 0
  {
    var s, d, lo, hi := FrontSet(bands, live), bands[b], b * BAND_TRACKS, (b + 1) * BAND_TRACKS;
    assert forall t: nat :: lo <= t < hi ==> BandOf(t) == b;
    assert forall t: nat :: lo <= t < hi ==> (t in s <==> t in live && d.flagRMW && t < d.rmwStart);
    hide FrontSet, Between;
    if d.flagRMW {
      BetweenAgree(live, s, lo, d.rmwStart);
      BetweenNarrow(s, lo, lo, d.rmwStart, hi);
    } else {
      BetweenNone(s, lo, hi);
    }
  }

  lemma {:induction false} BandTailLength(nativeA: bool, b: Band, live: set<nat>)
    ensures |BandTail(nativeA, b, live)|
            == |BandTail(false, b, live)| + if nativeA && b.flagRMW then |BandFront(true, b, live)| else 0
  {
  }

  lemma {:induction false} TailsLength(nativeA: bool, bands: seq<Band>, live: set<nat>, n: nat)
    requires n <= |bands| && WellPlaced(bands)
    ensures |Tails(nativeA, bands, live, n)|
            == |Tails(false, bands, live, n)| + if nativeA then |Between(FrontSet(bands, live), 0, n * BAND_TRACKS)| else 0
  {
    hide FrontSet, Between, WellPlaced, BandTail;
    if n > 0 {
      TailsLength(nativeA, bands, live, n - 1);
      BandTailLength(nativeA, bands[n - 1], live);
      BandFrontIsScan(bands, live, n - 1);
      BetweenSplit(FrontSet(bands, live), 0, (n - 1) * BAND_TRACKS, n * BAND_TRACKS);
    } else {
      BetweenEmptyRange(FrontSet(bands, live), 0, 0);
    }
  }

  /** The list is as long as the batch and what must be rewritten around it. */
  lemma {:induction false} PlanLength(nativeA: bool, bands: seq<Band>, live: set<nat>, tracks: seq<nat>)
    requires WellPlaced(bands) && StrictlyAscending(tracks) && OnDisk(|bands|, tracks)
    ensures var after := TouchAll(false, bands, tracks);
      |Plan(nativeA, bands, live, tracks)|
      == |tracks| + |TailSet(after, live)| + if nativeA then |FrontSet(after, live)| else 0
  {
    var after, n := TouchAll(false, bands, tracks), |bands| * BAND_TRACKS;
    TouchAllWellPlaced(false, bands, tracks);
    TailsLength(nativeA, after, live, |bands|);
    TailsAreScan(after, live, |bands|);
    BetweenCardinality(TailSet(after, live), 0, n);
    BetweenCardinality(FrontSet(after, live), 0, n);
  }

  // ----- the order in which the planner lists tracks --------------------------------------------

  /** The entries `lo` up to `hi` are virtual, ascend, and are exactly the tracks of a set. */
  ghost predicate Scans(p: seq<Entry>, lo: nat, hi: nat, s: set<nat>) {
    && lo <= hi <= |p|
    && (forall i :: lo <= i < hi ==> p[i].isVirtual && p[i].pba in s)
    && (forall i, j :: lo <= i < j < hi ==> p[i].pba < p[j].pba)
    && (forall t :: t in s ==> exists i :: lo <= i < hi && p[i].pba == t)
  }

  lemma {:induction false} BetweenScans(before: seq<Entry>, s: set<nat>, lo: nat, hi: nat, s': set<nat>)
    requires forall t :: t in s' <==> lo <= t < hi && t in s
    ensures var p := before + Virtual(Between(s, lo, hi)); Scans(p, |before|, |p|, s')
  {
    var r := Between(s, lo, hi);
    var p := before + Virtual(r);
    BetweenMembers(s, lo, hi);
    forall i | |before| <= i < |p| ensures p[i].isVirtual && p[i].pba in s' { assert r[i - |before|] in r; }
    forall t | t in s' ensures exists i :: |before| <= i < |p| && p[i].pba == t {
      assert t in r;
      var j :| 0 <= j < |r| && r[j] == t;
      assert p[|before| + j].pba == t;
    }
  }

  lemma {:induction false} ScansStays(p: seq<Entry>, more: seq<Entry>, lo: nat, hi: nat, s: set<nat>)
    requires Scans(p, lo, hi, s)
    ensures Scans(p + more, lo, hi, s)
  {
    forall t | t in s ensures exists i :: lo <= i < hi && (p + more)[i].pba == t {
      var i :| lo <= i < hi && p[i].pba == t;
      assert (p + more)[i].pba == t;
    }
  }

  /** The live tracks of band `b` before its window, if it is flagged and the build rewrites them, and those past it. */
  ghost function FrontOf(nativeA: bool, bands: seq<Band>, live: set<nat>, b: nat): set<nat> {
    set t | t in live && BandOf(t) == b && nativeA && InFront(bands, live, t)
  }

  ghost function BackOf(bands: seq<Band>, live: set<nat>, b: nat): set<nat> {
    set t | t in live && BandOf(t) == b && InTail(bands, live, t)
  }

  lemma {:induction false} PartsOfBand(nativeA: bool, bands: seq<Band>, live: set<nat>, b: nat)
    requires WellPlaced(bands) && b < |bands|
    ensures forall t :: t in FrontOf(nativeA, bands, live, b)
              <==> nativeA && bands[b].flagRMW && t in live && bands[b].bandHead <= t < bands[b].rmwStart
    ensures forall t :: t in BackOf(bands, live, b)
              <==> bands[b].flagRMW && t in live && bands[b].rmwEnd < t <= bands[b].writeHead
  {
  }

  lemma {:induction false} EmptyScans(p: seq<Entry>, s: set<nat>)
    requires forall t :: t !in s
    ensures Scans(p, |p|, |p|, s)
  {
  }

  lemma {:induction false} BandTailScans(nativeA: bool, bands: seq<Band>, live: set<nat>, b: nat, before: seq<Entry>)
    returns (mid: nat)
    requires WellPlaced(bands) && b < |bands|
    ensures var p := before + BandTail(nativeA, bands[b], live);
      Scans(p, |before|, mid, FrontOf(nativeA, bands, live, b)) && Scans(p, mid, |p|, BackOf(bands, live, b))
  {
    hide WellPlaced, FrontOf, BackOf, Scans, Between, Virtual;
    var d := bands[b];
    PartsOfBand(nativeA, bands, live, b);
    if d.flagRMW {
      var front, back := BandFront(nativeA, d, live), Virtual(Between(live, d.rmwEnd + 1, d.writeHead + 1));
      mid := |before + front|;
      if nativeA {
        BetweenScans(before, live, d.bandHead, d.rmwStart, FrontOf(nativeA, bands, live, b));
      } else {
        EmptyScans(before, FrontOf(nativeA, bands, live, b));
        assert before + front == before;
      }
      ScansStays(before + front, back, |before|, mid, FrontOf(nativeA, bands, live, b));
      BetweenScans(before + front, live, d.rmwEnd + 1, d.writeHead + 1, BackOf(bands, live, b));
      AppendTwice(before, front, back);
    } else {
      mid := |before|;
      assert before + BandTail(nativeA, d, live) == before;
      EmptyScans(before, FrontOf(nativeA, bands, live, b));
      EmptyScans(before, BackOf(bands, live, b));
    }
  }

  /** From `cuts[b]` on a list holds what band `b` contributes: first what lies before its window, then what lies past it. */
  ghost predicate BandByBand(p: seq<Entry>, nativeA: bool, bands: seq<Band>, live: set<nat>, n: nat, cuts: seq<nat>, mids: seq<nat>) {
    && n <= |bands| && |cuts| == n + 1 && |mids| == n && cuts[n] == |p|
    && forall b :: 0 <= b < n ==>
         && Scans(p, cuts[b], mids[b], FrontOf(nativeA, bands, live, b))
         && Scans(p, mids[b], cuts[b + 1], BackOf(bands, live, b))
  }

  lemma {:induction false} TailsScan(nativeA: bool, bands: seq<Band>, live: set<nat>, n: nat, before: seq<Entry>)
    returns (cuts: seq<nat>, mids: seq<nat>)
    requires WellPlaced(bands) && n <= |bands|
    ensures BandByBand(before + Tails(nativeA, bands, live, n), nativeA, bands, live, n, cuts, mids) && cuts[0] == |before|
  {
    hide BandTail, Scans, FrontOf, BackOf, WellPlaced;
    if n == 0 {
      cuts, mids := [|before|], [];
    } else {
      cuts, mids := TailsScan(nativeA, bands, live, n - 1, before);
      var p, more := before + Tails(nativeA, bands, live, n - 1), BandTail(nativeA, bands[n - 1], live);
      var mid := BandTailScans(nativeA, bands, live, n - 1, p);
      AppendTwice(before, Tails(nativeA, bands, live, n - 1), more);
      forall b | 0 <= b < n - 1
        ensures Scans(p + more, cuts[b], mids[b], FrontOf(nativeA, bands, live, b))
        ensures Scans(p + more, mids[b], cuts[b + 1], BackOf(bands, live, b))
      {
        ScansStays(p, more, cuts[b], mids[b], FrontOf(nativeA, bands, live, b));
        ScansStays(p, more, mids[b], cuts[b + 1], BackOf(bands, live, b));
      }
      cuts, mids := cuts + [|p + more|], mids + [mid];
    }
  }

  /**
    In every native build the list is the batch in its order, then band by band in ascending order the live tracks to
    rewrite; within one band NATIVE_A puts those before the window first, and each part ascends.
   */
  lemma {:induction false} PlanIsBandByBand(nativeA: bool, bands: seq<Band>, live: set<nat>, tracks: seq<nat>)
    returns (cuts: seq<nat>, mids: seq<nat>)
    requires WellPlaced(bands) && StrictlyAscending(tracks) && OnDisk(|bands|, tracks)
    ensures var p := Plan(nativeA, bands, live, tracks);
      && cuts != [] && cuts[0] == |tracks| <= |p| && (forall i :: 0 <= i < |tracks| ==> p[i] == Entry(tracks[i], false))
      && BandByBand(p, nativeA, TouchAll(false, bands, tracks), live, |bands|, cuts, mids)
  {
    TouchAllWellPlaced(false, bands, tracks);
    cuts, mids := TailsScan(nativeA, TouchAll(false, bands, tracks), live, |bands|, Physical(tracks));
  }

  lemma {:induction false} TailsScanTailSet(bands: seq<Band>, live: set<nat>, before: seq<Entry>)
    requires WellPlaced(bands)
    ensures var p := before + Tails(false, bands, live, |bands|); Scans(p, |before|, |p|, TailSet(bands, live))
  {
    TailsAreScan(bands, live, |bands|);
    BetweenScans(before, TailSet(bands, live), 0, |bands| * BAND_TRACKS, TailSet(bands, live));
  }

  /** Entry `i` of a batch, followed by one scan of the live tracks that lie past a window once it was touched. */
  ghost predicate EntryThenScan(p: seq<Entry>, bands: seq<Band>, live: set<nat>, tracks: seq<nat>, i: nat, lo: nat, hi: nat) {
    && i < |tracks| && lo < hi <= |p| && p[lo] == Entry(tracks[i], false) && OnDisk(|bands|, tracks[..i + 1])
    && Scans(p, lo + 1, hi, TailSet(TouchAll(true, bands, tracks[..i + 1]), live))
  }

  /** A list consists of such parts, one for each entry of the batch in its order. */
  ghost predicate EntryByEntry(p: seq<Entry>, bands: seq<Band>, live: set<nat>, tracks: seq<nat>, cuts: seq<nat>) {
    && |cuts| == |tracks| + 1 && cuts[0] == 0 && cuts[|tracks|] == |p|
    && forall i :: 0 <= i < |tracks| ==> EntryThenScan(p, bands, live, tracks, i, cuts[i], cuts[i + 1])
  }

  lemma {:induction false} EntryStays(p: seq<Entry>, more: seq<Entry>, bands: seq<Band>, live: set<nat>, tracks: seq<nat>,
                                      i: nat, lo: nat, hi: nat)
    requires 0 < |tracks| && EntryThenScan(p, bands, live, tracks[..|tracks| - 1], i, lo, hi)
    ensures EntryThenScan(p + more, bands, live, tracks, i, lo, hi)
  {
    hide Scans, TailSet;
    assert tracks[..|tracks| - 1][..i + 1] == tracks[..i + 1];
    ScansStays(p, more, lo + 1, hi, TailSet(TouchAll(true, bands, tracks[..i + 1]), live));
  }

  lemma {:induction false} LastEntryScans(bands: seq<Band>, live: set<nat>, tracks: seq<nat>)
    requires WellPlaced(bands) && StrictlyAscending(tracks) && OnDisk(|bands|, tracks) && |tracks| > 0
    ensures OnDisk(|bands|, tracks[..|tracks| - 1]) && StrictlyAscending(tracks[..|tracks| - 1])
    ensures var p, q := FluidPlan(bands, live, tracks), FluidPlan(bands, live, tracks[..|tracks| - 1]);
      |q| <= |p| && p == q + p[|q|..] && EntryThenScan(p, bands, live, tracks, |tracks| - 1, |q|, |p|)
  {
    hide WellPlaced, Tails, TouchAll, TailSet, Scans;
    var n := |tracks|;
    FluidPlanTurn(bands, live, tracks, n - 1);
    assert tracks[..n] == tracks;
    var after := TouchAll(true, bands, tracks);
    var q, e := FluidPlan(bands, live, tracks[..n - 1]), [Entry(tracks[n - 1], false)];
    TailsScanTailSet(after, live, q + e);
    assert (q + e + Tails(false, after, live, |bands|))[..|q|] == q;
  }

  /** The list of the FluidSMR planner; so a track may be listed after many entries. */
  lemma {:induction false} FluidPlanIsEntryByEntry(bands: seq<Band>, live: set<nat>, tracks: seq<nat>) returns (cuts: seq<nat>)
    requires WellPlaced(bands) && StrictlyAscending(tracks) && OnDisk(|bands|, tracks)
    ensures EntryByEntry(FluidPlan(bands, live, tracks), bands, live, tracks, cuts)
    decreases |tracks|
  {
    if |tracks| == 0 {
      cuts := [0];
    } else {
      hide WellPlaced, EntryThenScan, StrictlyAscending, FluidPlan, OnDisk;
      var init, p := tracks[..|tracks| - 1], FluidPlan(bands, live, tracks);
      LastEntryScans(bands, live, tracks);
      cuts := FluidPlanIsEntryByEntry(bands, live, init);
      var q := FluidPlan(bands, live, init);
      forall i | 0 <= i < |init| ensures EntryThenScan(p, bands, live, tracks, i, cuts[i], cuts[i + 1]) {
        EntryStays(q, p[|q|..], bands, live, tracks, i, cuts[i], cuts[i + 1]);
      }
      cuts := cuts + [|p|];
    }
  }
}
