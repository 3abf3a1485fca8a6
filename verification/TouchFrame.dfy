/** One frame from zones to reported touches: zones, palm rejection, peaks, identities, contacts, slots. */
module TouchFrame {
  import opened Machine
  import opened Firmware
  import opened Sealing
  import opened Components
  import opened Zones
  import opened Tables
  import opened Peaks
  import opened PeakFilters
  import F = PeakFinder
  import I = PeakIdentity
  import Competition
  import P = Pipeline
  import PeakTable
  import Z = ZoneDetector
  import Assigner
  import opened Ghosts
  import Regions
  import Resolver
  import SlotCycle
  import SplitGuard
  import Tracker
  import Tracks

  /** Tunables, and the verdicts that stand outside this model: which zones are palms, which cells
      drift with pressure, and where palms were before. */
  datatype Setting = Setting(
    threshold: s16, keep: Zone -> bool, peaks: PeakFilters.Config, drifts: set<nat>, boxes: seq<F.PalmBox>,
    resolve: Regions.ResolveConfig, ghosts: GhostConfig, tracks: Tracks.Config)
  {
    predicate Valid() {
      resolve.Valid() && tracks.Valid() && peaks.threshold >= 0 && peaks.edgeThreshold >= 0
    }
  }

  /** The zones of a frame: all of them over the arena, the strongest with those a full table dropped, and
      those that are no palms. */
  datatype Zoning = Zoning(found: seq<Zone>, used: nat, arena: seq<nat>, strongest: seq<Zone>, lost: multiset<Zone>,
                           kept: seq<Zone>)

  /** What detection found in the frame: its zones, the scanned candidates with those a full table dropped,
      the stages, the peaks before they had identities, and which of the last frame's peaks they continue. */
  datatype Finding = Finding(
    zoning: Zoning, seen: seq<Peak>, dropped: multiset<Peak>,
    w: F.Trace, unnamed: seq<Peak>, chosen: I.Pairs)

  /** What the peak filters know about the touches so far, with n zones in the frame. */
  ghost function Surroundings(setting: Setting, finger: Finger, s: SlotCycle.State, n: nat): Context {
    var rising := finger == Present && !s.fingerPresent;
    Context(setting.peaks, s.tracks, setting.tracks.edgeFastStart && rising && !SlotCycle.AnyActive(s.tracks), n, 0,
            finger == Present || (finger == Unknown && s.fingerPresent))
  }

  /** What a frame starts from: its samples, the touches, the last frame's peaks and the guard's table. */
  datatype Memory = Memory(frame: Frame, touches: SlotCycle.State, peaks: seq<Peak>, table: Competition.Table)

  /** From the frame to peaks. Sealed. */
  ghost predicate FoundWell(setting: Setting, finger: Finger, m: Memory, d: Finding, peaks: seq<Peak>) {
    && |peaks| <= MAX_PEAKS && Resolver.AllOnGrid(peaks)
    && forall o {:trigger Open(o)} :: Open(o) ==> FoundAs(setting, finger, m, d, peaks)
  }

  ghost predicate FoundAs(setting: Setting, finger: Finger, m: Memory, d: Finding, peaks: seq<Peak>) {
    && FindsWell(setting, m.frame, Surroundings(setting, finger, m.touches, |d.zoning.kept|), d)
    && I.Tracked(d.unnamed, m.peaks, d.chosen, peaks) && Apart(setting.peaks.Radius(), peaks)
  }

  /** Zones, candidates and stages, under filters that know x. */
  ghost predicate FindsWell(setting: Setting, f: Frame, x: Context, d: Finding) {
    && ZonesWell(setting, f, d.zoning)
    && ScannedWell(setting, f, d.zoning.arena, d.zoning.kept, d.seen, d.dropped, d.w.kept)
    && StagedWell(setting, f, x.(zoneCount := |d.zoning.kept|), d.w, d.unnamed)
  }

  /** The zones are whole components of the frame, the strongest of them all, without those taken for palms.
      Sealed. */
  ghost predicate ZonesWell(setting: Setting, f: Frame, z: Zoning) {
    forall o {:trigger Open(o)} :: Open(o) ==>
      && Z.Complete(f, setting.threshold, z.arena, z.found, z.used)
      && KeepsStrongest(Z.SumOf, multiset(z.found), z.strongest, z.lost)
      && (|z.strongest| < MAX_ZONES ==> z.lost == multiset{}) && Descending(Z.SumOf, z.strongest)
      && z.kept == Filter(z.strongest, setting.keep) && F.ZonesApart(z.arena, z.kept) && |z.kept| <= MAX_ZONES
  }

  /** The candidates are those of the zones' cells, and the table starts from the strongest. Sealed. */
  ghost predicate ScannedWell(setting: Setting, f: Frame, arena: seq<nat>, kept: seq<Zone>, seen: seq<Peak>,
                              dropped: multiset<Peak>, table: seq<Peak>)
  {
    forall o {:trigger Open(o)} :: Open(o) ==>
      && F.Samples(f) && F.ZonesApart(arena, kept)
      && seen == F.Candidates(setting.peaks, f, setting.drifts, arena, kept, |kept|)
      && KeepsStrongest(StrengthOf, multiset(seen), table, dropped)
      && (|table| < MAX_PEAKS ==> dropped == multiset{})
  }

  /** The stages thin them out to the peaks, weakest first, each with the sample of its cell. Sealed. */
  ghost predicate StagedWell(setting: Setting, f: Frame, x: Context, w: F.Trace, peaks: seq<Peak>) {
    forall o {:trigger Open(o)} :: Open(o) ==>
      && F.Staged(setting.peaks, f, x, setting.boxes, w) && multiset(peaks) == multiset(w.right) && Valued(f, peaks)
      && forall i, j | 0 <= i < j < |peaks| :: peaks[i].z <= peaks[j].z
  }

  class TouchFrame {
    const zones: Z.ZoneDetector
    const table: PeakTable.PeakTable
    const ids: I.PeakTracker
    const back: P.Pipeline

    constructor ()
      ensures Valid()
    {
      var detector, scanned, tracker := FrontHalf();
      var rest := BackHalf(
        detector.frame,
        {detector, detector.visited, detector.queue, detector.arena, detector.zones,
         scanned, scanned.peaks, tracker, tracker.prev});
      zones, table, ids, back := detector, scanned, tracker, rest;
    }

    static method BackHalf(samples: array<s16>, ghost others: set<object>) returns (rest: P.Pipeline)
      requires samples.Length == 2400
      ensures rest.resolver.Valid() && rest.tracker.Valid() && rest.resolver.frame == samples && rest.Parts() !! others
    {
      rest := new P.Pipeline(samples);
    }

    static method FrontHalf() returns (detector: Z.ZoneDetector, scanned: PeakTable.PeakTable, tracker: I.PeakTracker)
      ensures detector.Valid() && scanned.Valid() && tracker.Valid() && tracker.Steady()
      ensures scanned.frame == detector.frame && tracker.peaks == scanned.peaks
      ensures (detector.frame as object) !in
        {detector, detector.visited, detector.queue, detector.arena, detector.zones,
         scanned, scanned.peaks, tracker, tracker.prev}
    {
      detector := new Z.ZoneDetector();
      scanned := new PeakTable.PeakTable(detector.frame);
      tracker := new I.PeakTracker(scanned.peaks);
    }

    ghost predicate Valid()
      reads zones, table, ids, ids.prev, back.resolver, back.tracker, back.tracker.tracks, back.tracker.guard.table
    {
      Shape() && Remembers() && back.tracker.Valid()
    }

    /** What the stages up to the peaks write. */
    ghost function FrontParts(): set<object> {
      {zones, zones.visited, zones.queue, zones.arena, zones.zones, table, table.peaks, ids, ids.prev}
    }

    /** The two halves share nothing they write. Sealed. */
    ghost predicate Separate() {
      forall o {:trigger Unlock(o)} :: Unlock(o) ==>
        FrontParts() !! back.Parts() && (zones.frame as object) !in FrontParts()
    }

    ghost function Now(): Memory
      reads zones, zones.frame, table, ids, ids.prev, back.resolver
      reads back.tracker, back.tracker.tracks, back.tracker.guard.table
      requires Shape()
    {
      Memory(zones.frame[..], back.tracker.Now(), LastPeaks(), back.tracker.guard.table[..])
    }

    /** The peaks of the frame before. */
    ghost function LastPeaks(): seq<Peak>
      reads ids, ids.prev
    {
      if ids.prevCount <= ids.prev.Length then ids.prev[..ids.prevCount] else []
    }

    /** Their identities. */
    ghost predicate Remembers()
      reads ids, ids.prev
    {
      && ids.peaks.Length == ids.prev.Length == MAX_PEAKS && ids.peaks != ids.prev && ids.nextId != 0
      && ids.prevCount <= MAX_PEAKS && (forall i | 0 <= i < ids.prevCount :: OnGrid(ids.prev[i])) && ids.Steady()
    }

    ghost predicate Shape()
      reads zones, table, back.resolver
    {
      && zones.Valid() && table.Valid() && back.resolver.Valid()
      && table.frame == zones.frame == back.resolver.frame && ids.peaks == table.peaks
      && Separate()
    }

    /** Zones without palms. */
    method FindZones(setting: Setting) returns (kept: seq<Zone>, ghost z: Zoning)
      requires Shape()
      modifies zones`used, zones`count, zones.visited, zones.queue, zones.arena, zones.zones
      ensures Shape() && ZonesWell(setting, zones.frame[..], z) && kept == z.kept && z.arena == zones.arena[..]
    {
      ghost var found, dropped;
      found, dropped := zones.Detect(setting.threshold);
      ghost var was := zones.zones[..zones.count];
      KeptOutrankDropped(Z.SumOf, multiset(found), was, dropped);
      var dst := F.RejectPalms(zones.zones, zones.count, setting.keep, zones.frame[..], setting.threshold,
          zones.arena[..], found, zones.used);
      zones.count := dst;
      kept := zones.zones[..dst];
      z := Zoning(found, zones.used, zones.arena[..], was, dropped, kept);
    }

    /** Peaks of those zones, through all filters. */
    method FindPeaks(setting: Setting, kept: seq<Zone>, x: Context, ghost z: Zoning)
      returns (ghost seen: seq<Peak>, ghost dropped: multiset<Peak>, ghost w: F.Trace)
      requires Shape() && setting.Valid() && x.zoneCount == |kept|
      requires ZonesWell(setting, zones.frame[..], z) && kept == z.kept && z.arena == zones.arena[..]
      modifies table.peaks, table`count
      ensures Shape() && ScannedWell(setting, zones.frame[..], zones.arena[..], kept, seen, dropped, w.kept)
      ensures StagedWell(setting, zones.frame[..], x, w, table.Table())
      ensures Placed(table.Table()) && Apart(setting.peaks.Radius(), table.Table())
    {
      assert Open(0);
      seen, dropped, w := table.Detect(setting.peaks, setting.drifts, kept, zones.arena, x, setting.boxes);
    }

    /** Persistent identities for those peaks. */
    method Name() returns (peaks: seq<Peak>, ghost chosen: I.Pairs)
      requires Shape() && Remembers() && Placed(table.Table())
      modifies ids`count, ids`nextId, ids`prevCount, ids.peaks, ids.prev
      ensures Shape() && Remembers()
      ensures |peaks| <= MAX_PEAKS && Resolver.AllOnGrid(peaks) && I.DistinctIds(peaks)
      ensures I.Tracked(old(table.Table()), old(LastPeaks()), chosen, peaks)
      ensures |peaks| == table.count && forall k | 0 <= k < |peaks| :: I.SameSpot(peaks[k], old(table.Table()[k]))
      ensures LastPeaks() == peaks
    {
      ids.count := table.count;
      ghost var start, before := ids.peaks[..ids.count], ids.prev[..ids.prevCount];
      ghost var given;
      chosen, given := ids.TrackIds();
      peaks := ids.peaks[..ids.count];
      I.TrackedKeepsPlaces(start, before, chosen, peaks);
    }

    /** What the peak filters know about the touches so far. */
    method Describe(setting: Setting, finger: Finger, n: nat) returns (x: Context)
      requires back.tracker.Shape()
      ensures x == Surroundings(setting, finger, back.tracker.Now(), n)
    {
      var active := back.tracker.HasActive();
      var rising := finger == Present && !back.tracker.fingerPresent;
      x := Context(setting.peaks, back.tracker.tracks[..], setting.tracks.edgeFastStart && rising && !active,
                   n, 0, finger == Present || (finger == Unknown && back.tracker.fingerPresent));
    }

    /** Zones and peaks of a frame, the peaks still without identities. */
    method FindUnnamed(setting: Setting, finger: Finger) returns (ghost d: Finding)
      requires Shape() && setting.Valid() && back.tracker.Shape()
      modifies zones`used, zones`count, zones.visited, zones.queue, zones.arena, zones.zones, table.peaks, table`count
      ensures Shape() && Placed(table.Table()) && Apart(setting.peaks.Radius(), table.Table())
      ensures zones.frame[..] == old(zones.frame[..]) && d.unnamed == table.Table()
      ensures FindsWell(setting, old(zones.frame[..]), old(Surroundings(setting, finger, back.tracker.Now(), 0)), d)
    {
      var kept;
      ghost var z;
      ghost var s, f := back.tracker.Now(), zones.frame[..];
      kept, z := FindZones(setting);
      d := Scan(setting, finger, kept, z, s, f);
    }

    method Scan(setting: Setting, finger: Finger, kept: seq<Zone>, ghost z: Zoning, ghost s: SlotCycle.State,
                ghost f: Frame) returns (ghost d: Finding)
      requires Shape() && setting.Valid() && back.tracker.Shape() && s == back.tracker.Now() && f == zones.frame[..]
      requires ZonesWell(setting, f, z) && kept == z.kept && z.arena == zones.arena[..]
      modifies table.peaks, table`count
      ensures Shape() && Placed(table.Table()) && Apart(setting.peaks.Radius(), table.Table())
      ensures d.unnamed == table.Table() && FindsWell(setting, f, Surroundings(setting, finger, s, 0), d)
    {
      var x := Describe(setting, finger, |kept|);
      ghost var seen, dropped, w;
      seen, dropped, w := FindPeaks(setting, kept, x, z);
      d := Finding(z, seen, dropped, w, table.Table(), []);
    }

    /** The first half of a frame with a finger on it. */
    method Find(setting: Setting, finger: Finger) returns (peaks: seq<Peak>, ghost d: Finding)
      requires Shape() && Remembers() && setting.Valid() && back.tracker.Shape()
      modifies FrontParts()
      ensures Shape() && Remembers() && P.Named(peaks)
      ensures FoundWell(setting, finger, old(Now()), d, peaks) && LastPeaks() == peaks
    {
      d := FindUnnamed(setting, finger);
      ghost var chosen;
      peaks, chosen := Name();
      Named(setting, finger, old(Now()), d, chosen, peaks);
      d := d.(chosen := chosen);
    }

    /** A frame without a finger leaves nothing to inherit from. */
    method Forget()
      requires Shape() && Remembers()
      modifies zones`count, table`count, ids`count, ids`prevCount
      ensures Shape() && Remembers() && LastPeaks() == []
    {
      zones.count, table.count, ids.count, ids.prevCount := 0, 0, 0, 0;
    }

    /** The peaks of a frame; none without a finger. */
    method Front(setting: Setting, finger: Finger) returns (peaks: seq<Peak>, ghost d: Finding)
      requires Shape() && Remembers() && setting.Valid() && back.tracker.Shape()
      modifies FrontParts()
      ensures Shape() && Remembers() && P.Named(peaks) && |peaks| <= MAX_PEAKS && Resolver.AllOnGrid(peaks)
      ensures LastPeaks() == peaks && (finger == Absent ==> peaks == [])
      ensures finger != Absent ==> FoundWell(setting, finger, old(Now()), d, peaks)
    {
      peaks := [];
      if finger == Absent {
        Forget();
        var trace := F.Trace([], [], [], [], [], [], 0, [], 0, []);
        d := Finding(Zoning([], 0, [], [], multiset{}, []), [], multiset{}, trace, [], []);
      } else {
        peaks, d := Find(setting, finger);
      }
    }

    /** Contacts and slots. */
    method Rest(setting: Setting, finger: Finger, peaks: seq<Peak>)
      returns (reported: nat, ghost h: P.Handover, ghost x: Tracker.Passage)
      requires back.resolver.Valid() && back.tracker.Valid() && setting.Valid()
      requires P.Named(peaks) && |peaks| <= MAX_PEAKS && Resolver.AllOnGrid(peaks)
      modifies back.Parts()
      ensures back.resolver.Valid() && back.tracker.Valid() && Handed(setting, finger, peaks, x)
      ensures GatheredFrom(setting, finger, old(back.resolver.frame[..]), old(back.tracker.tracks[..]), peaks, h, x.f)
      ensures Tracker.Passes(x, old(back.tracker.Now()), old(back.tracker.guard.table[..]),
                             back.tracker.Now(), back.tracker.guard.table[..])
      ensures reported == SlotCycle.ReportedSlots(back.tracker.tracks[..], Assigner.MAX_TOUCH)
    {
      reported, h, x := back.Process(setting.resolve, setting.ghosts, setting.tracks, finger, peaks);
      ContactsOwnPeaks(setting, finger, peaks, h.spots, h.drop);
    }

    /** The first half, which leaves the second one alone. */
    method Before(setting: Setting, finger: Finger) returns (peaks: seq<Peak>, ghost d: Finding)
      requires Valid() && setting.Valid()
      modifies FrontParts()
      ensures Valid() && P.Named(peaks) && |peaks| <= MAX_PEAKS && Resolver.AllOnGrid(peaks)
      ensures Now() == old(Now()).(peaks := peaks) && (finger == Absent ==> peaks == [])
      ensures finger != Absent ==> FoundWell(setting, finger, old(Now()), d, peaks)
    {
      assert Unlock(0);
      peaks, d := Front(setting, finger);
    }

    lemma HalvesApart()
      requires Separate()
      ensures (zones as object) !in back.Parts() && (table as object) !in back.Parts()
      ensures (ids as object) !in back.Parts() && (ids.prev as object) !in back.Parts()
      ensures (zones.frame as object) !in back.Parts()
    {
      assert Unlock(0);
    }

    /** The second half, which leaves the first one alone. */
    method After(setting: Setting, finger: Finger, peaks: seq<Peak>)
      returns (reported: nat, ghost h: P.Handover, ghost x: Tracker.Passage)
      requires Valid() && setting.Valid() && P.Named(peaks) && |peaks| <= MAX_PEAKS && Resolver.AllOnGrid(peaks)
      modifies back.Parts()
      ensures Valid() && Handed(setting, finger, peaks, x)
      ensures Now() == old(Now()).(touches := Now().touches, table := Now().table)
      ensures Gathered(setting, finger, old(Now()), peaks, h, x.f)
      ensures Tracker.Passes(x, old(Now()).touches, old(Now()).table, Now().touches, Now().table)
      ensures reported == SlotCycle.ReportedSlots(Now().touches.tracks, Assigner.MAX_TOUCH)
    {
      HalvesApart();
      reported, h, x := Rest(setting, finger, peaks);
    }

    /** One frame. With a finger on the panel, every contact the tracker gets comes from a peak of its
        own, and the peaks have distinct identities. */
    method Process(setting: Setting, finger: Finger)
      returns (reported: nat, ghost d: Finding, ghost peaks: seq<Peak>, ghost h: P.Handover, ghost x: Tracker.Passage)
      requires Valid() && setting.Valid()
      modifies FrontParts(), back.Parts()
      ensures Valid() && (if finger == Absent then peaks == [] else FoundWell(setting, finger, old(Now()), d, peaks))
      ensures Now().peaks == peaks && Now().frame == old(Now()).frame
      ensures Handed(setting, finger, peaks, x) && Gathered(setting, finger, old(Now()), peaks, h, x.f)
      ensures Tracker.Passes(x, old(Now()).touches, old(Now()).table, Now().touches, Now().table)
      ensures reported == SlotCycle.ReportedSlots(Now().touches.tracks, Assigner.MAX_TOUCH)
    {
      var p;
      p, d := Before(setting, finger);
      peaks := p;
      reported, h, x := After(setting, finger, p);
    }
  }

  /** What the tracker gets is what was gathered from the peaks. */
  ghost predicate Gathered(setting: Setting, finger: Finger, m: Memory, peaks: seq<Peak>, h: P.Handover,
                           x: SlotCycle.Frame)
  {
    GatheredFrom(setting, finger, m.frame, m.touches.tracks, peaks, h, x)
  }

  ghost predicate GatheredFrom(setting: Setting, finger: Finger, f: Frame, tracks: seq<Tracks.Track>, peaks: seq<Peak>,
                               h: P.Handover, x: SlotCycle.Frame)
  {
    && P.Gathers(setting.resolve, setting.ghosts, setting.tracks.dist2Max, finger, f, tracks, peaks, h)
    && P.HandsOn(setting.tracks, finger, peaks, h, x)
  }

  /** What the tracker was handed: one contact for each detection, each from a peak of its own. */
  ghost predicate Handed(setting: Setting, finger: Finger, peaks: seq<Peak>, x: Tracker.Passage) {
    && x.f.finger == finger && x.f.cfg == setting.tracks && |x.f.det| == |x.f.contacts|
    && SplitGuard.PeakIdsDistinct(x.f.contacts) && EachFromPeak(x.f.contacts, peaks)
  }

  /** What the tracker is handed: contacts of different peaks. */
  lemma ContactsOwnPeaks(setting: Setting, finger: Finger, p: seq<Peak>, spots: seq<Regions.Spot>, drop: seq<bool>)
    requires setting.Valid() && P.Named(p) && |spots| <= |drop| && P.InStep(p, spots, P.ScreenAll(spots))
    ensures var contacts := P.ContactsOf(Thin(spots, drop));
      && SplitGuard.PeakIdsDistinct(contacts) && EachFromPeak(contacts, p)
      && |Thin(P.ScreenAll(spots), drop)| == |contacts|
  {
    P.ThinnedInStep(p, spots, P.ScreenAll(spots), drop);
    P.HandedToTracker(setting.tracks, finger, p, Thin(spots, drop), Thin(P.ScreenAll(spots), drop));
    var kept := Thin(spots, drop);
    forall k | 0 <= k < |kept| ensures FromPeak(kept[k].contact, p) {
      assert p[kept[k].peakIndex].id == kept[k].contact.peakId;
    }
  }

  ghost predicate FromPeak(c: Tracks.Contact, p: seq<Peak>) { exists i :: 0 <= i < |p| && p[i].id == c.peakId }

  ghost predicate EachFromPeak(contacts: seq<Tracks.Contact>, p: seq<Peak>) {
    forall k | 0 <= k < |contacts| :: FromPeak(contacts[k], p)
  }

  /** On the grid, and from a zone that fits a byte. */
  ghost predicate Placed(s: seq<Peak>) {
    forall k | 0 <= k < |s| :: OnGrid(s[k]) && s[k].zoneIndex < 0x100
  }

  lemma Named(setting: Setting, finger: Finger, m: Memory, d: Finding, chosen: I.Pairs, peaks: seq<Peak>)
    requires FindsWell(setting, m.frame, Surroundings(setting, finger, m.touches, 0), d)
    requires Apart(setting.peaks.Radius(), d.unnamed) && I.Tracked(d.unnamed, m.peaks, chosen, peaks)
    requires |peaks| == |d.unnamed| <= MAX_PEAKS && Resolver.AllOnGrid(peaks)
    requires forall k | 0 <= k < |peaks| :: I.SameSpot(peaks[k], d.unnamed[k])
    ensures FoundWell(setting, finger, m, d.(chosen := chosen), peaks)
  {
    forall i, j | 0 <= i < j < |peaks| ensures FarApart(setting.peaks.Radius(), peaks[i], peaks[j]) {
      assert FarApart(setting.peaks.Radius(), d.unnamed[i], d.unnamed[j]);
    }
  }
}
