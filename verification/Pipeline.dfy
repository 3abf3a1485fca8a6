/** From peaks to reported touches: contacts, ghost suppression, tracking. */
module Pipeline {
  import opened Machine
  import opened Firmware
  import opened Sealing
  import opened Peaks
  import opened Tracks
  import opened Ghosts
  import Centroids
  import Components
  import Assigner
  import Regions
  import Resolver
  import Tables
  import SplitGuard
  import SlotCycle
  import Tracker

  function SumsOf(s: seq<Regions.Spot>): (r: seq<int>)
    ensures |r| == |s| && forall k | 0 <= k < |s| :: r[k] == s[k].contact.signalSum
  {
    seq(|s|, k requires 0 <= k < |s| => s[k].contact.signalSum)
  }

  function ContactsOf(s: seq<Regions.Spot>): (r: seq<Contact>)
    ensures |r| == |s| && forall k | 0 <= k < |s| :: r[k] == s[k].contact
  {
    seq(|s|, k requires 0 <= k < |s| => s[k].contact)
  }

  function ScreenAll(s: seq<Regions.Spot>): (r: seq<Pos>)
    ensures |r| == |s| && forall k | 0 <= k < |s| :: r[k] == Regions.ScreenOf(s[k])
  {
    seq(|s|, k requires 0 <= k < |s| => Regions.ScreenOf(s[k]))
  }

  function Screen(): Regions.Spot -> Pos { (s: Regions.Spot) => Regions.ScreenOf(s) }

  /** Contacts of different peaks with their positions on the screen. */
  ghost predicate InStep(peaks: seq<Peak>, spots: seq<Regions.Spot>, det: seq<Pos>) {
    && Resolver.HandedOn(peaks, spots) && |spots| == |det| <= Assigner.MAX_TOUCH
    && forall k | 0 <= k < |spots| :: det[k] == Screen()(spots[k])
  }

  /** How contacts came about: regions and all contacts, the strongest of them, and those cut off. */
  datatype Resolution = Resolution(
    work: Resolver.Work, all: seq<Regions.Spot>, kept: seq<Regions.Spot>, dropped: multiset<Regions.Spot>)

  /** The spots are the strongest contacts of the peaks' regions that the border filter accepts. Sealed. */
  ghost predicate ResolvesTo(rc: Regions.ResolveConfig, f: Components.Frame, peaks: seq<Peak>, n: Resolution,
                             spots: seq<Regions.Spot>)
  {
    forall o {:trigger Open(o)} :: Open(o) ==>
      && rc.Valid() && Resolver.AllOnGrid(peaks) && Resolver.Resolved(rc, f, peaks, n.work, n.all)
      && Tables.KeepsStrongest(Regions.SumOf(), multiset(n.all), n.kept, n.dropped)
      && Resolver.FillsSlots(n.all, n.kept)
      && spots == Tables.Filter(n.kept, Regions.Accepted(rc))
  }

  /** Which contacts ghost suppression drops. */
  ghost predicate DropsGhosts(g: GhostConfig, dist2Max: int, tracks: seq<Track>, f: Found, drop: seq<bool>) {
    && f.Sized() && |f.det| <= |drop|
    && forall k | 0 <= k < |f.det| :: drop[k] <==> g.enabled && Ghost(g, dist2Max, tracks, f, k)
  }

  /** From peaks to contacts: how they were resolved, and which of them are ghosts. */
  datatype Handover = Handover(how: Resolution, spots: seq<Regions.Spot>, drop: seq<bool>)
  {
    predicate Sized() { |spots| <= |drop| }

    function Contacts(): seq<Contact>
      requires Sized()
    {
      ContactsOf(Thin(spots, drop))
    }

    function Places(): seq<Pos>
      requires Sized()
    {
      Thin(ScreenAll(spots), drop)
    }
  }

  /** With a finger on the panel the contacts of the peaks are resolved and ghosts dropped; without one
      there are no contacts. Sealed. */
  ghost predicate Gathers(rc: Regions.ResolveConfig, g: GhostConfig, dist2Max: int, finger: Finger,
                          frame: Components.Frame, tracks: seq<Track>, peaks: seq<Peak>, h: Handover)
  {
    forall o {:trigger Open(o)} :: Open(o) ==>
      if finger == Absent then h.spots == [] else
        && ResolvesTo(rc, frame, peaks, h.how, h.spots)
        && DropsGhosts(g, dist2Max, tracks, Found(ScreenAll(h.spots), SumsOf(h.spots)), h.drop)
  }

  /** The frame the tracker gets for these contacts. */
  ghost predicate HandsOn(cfg: Tracks.Config, finger: Finger, peaks: seq<Peak>, h: Handover, f: SlotCycle.Frame) {
    && h.Sized() && InStep(peaks, h.spots, ScreenAll(h.spots))
    && f == SlotCycle.Frame(cfg, finger, h.Places(), h.Contacts())
  }

  lemma ThinnedInStep(peaks: seq<Peak>, spots: seq<Regions.Spot>, det: seq<Pos>, drop: seq<bool>)
    requires InStep(peaks, spots, det) && |spots| <= |drop|
    ensures InStep(peaks, Thin(spots, drop), Thin(det, drop))
  {
    ThinKeeps(spots, drop);
    ThinInStep(spots, det, drop, Screen());
    Resolver.PartHandedOn(peaks, spots, Thin(spots, drop));
  }

  /** Peaks with identities of their own. */
  ghost predicate Named(p: seq<Peak>) {
    (forall i | 0 <= i < |p| :: p[i].id != 0) && forall i, k | 0 <= i < k < |p| :: p[i].id != p[k].id
  }

  /** What the tracker is handed meets its requirements, and distinct peaks stay distinct. */
  lemma HandedToTracker(cfg: Tracks.Config, finger: Finger, peaks: seq<Peak>, spots: seq<Regions.Spot>, det: seq<Pos>)
    requires cfg.Valid() && InStep(peaks, spots, det)
    ensures SlotCycle.Frame(cfg, finger, det, ContactsOf(spots)).Valid()
    ensures Named(peaks) ==> SplitGuard.PeakIdsDistinct(ContactsOf(spots))
  {
    forall k | 0 <= k < |det| ensures OnScreen(det[k]) {
      Centroids.SensorOnScreen(spots[k].x, spots[k].y);
    }
    if Named(peaks) {
      Resolver.ContactIdsDistinct(peaks, spots);
    }
  }

  class Pipeline {
    const resolver: Resolver.Resolver
    const tracker: Tracker.Tracker

    constructor (samples: array<s16>)
      requires samples.Length == 2400
      ensures resolver.Valid() && tracker.Valid() && resolver.frame == samples && fresh(Parts())
    {
      resolver := new Resolver.Resolver(samples);
      tracker := new Tracker.Tracker();
    }

    /** Everything a frame may write. */
    ghost function Parts(): set<object> {
      {resolver, resolver.owner, resolver.queue, resolver.spots, resolver.pos, tracker} + tracker.Parts()
    }

    method IsLinked(dist2Max: int, p: Pos) returns (linked: bool)
      requires tracker.Shape()
      ensures linked == Linked(dist2Max, tracker.tracks[..], p)
    {
      for ti := 0 to tracker.tracks.Length
        invariant forall k | 0 <= k < ti ::
          !(tracker.tracks[k].active && Dist2Predicted(p, tracker.tracks[k]) <= dist2Max)
      {
        if tracker.tracks[ti].active && Dist2Predicted(p, tracker.tracks[ti]) <= dist2Max {
          assert tracker.tracks[..][ti].active;
          return true;
        }
      }
      return false;
    }

    /** Marks the weak partner of every lopsided pair that no track expects. */
    method MarkGhosts(g: GhostConfig, dist2Max: int, f: Found) returns (drop: array<bool>)
      requires tracker.Shape() && f.Sized() && |f.det| <= Assigner.MAX_TOUCH
      ensures fresh(drop) && drop.Length == Assigner.MAX_TOUCH
      ensures DropsGhosts(g, dist2Max, tracker.tracks[..], f, drop[..])
    {
      drop := new bool[Assigner.MAX_TOUCH](_ => false);
      if !g.enabled {
        return;
      }
      ghost var tracks := tracker.tracks[..];
      var n := |f.det|;
      for i := 0 to n
        invariant forall k | 0 <= k < n :: drop[k] <==> GhostBefore(g, dist2Max, tracks, f, k, i, 0)
      {
        for j := i + 1 to n
          invariant forall k | 0 <= k < n :: drop[k] <==> GhostBefore(g, dist2Max, tracks, f, k, i, j)
        {
          var marks := false;
          if Lopsided(g, f, i, j) {
            var weak := WeakOf(f, i, j);
            var linked := IsLinked(dist2Max, f.det[weak]);
            marks := !linked;
            if marks {
              drop[weak] := true;
            }
          }
          forall k | 0 <= k < n
            ensures GhostBefore(g, dist2Max, tracks, f, k, i, j + 1) <==>
              GhostBefore(g, dist2Max, tracks, f, k, i, j) || (marks && WeakOf(f, i, j) == k)
          {
            NextPair(g, dist2Max, tracks, f, k, i, j);
          }
        }
      }
    }

    method ResolveContacts(rc: Regions.ResolveConfig, peaks: seq<Peak>) returns (n: nat, ghost how: Resolution)
      requires resolver.Valid() && rc.Valid() && |peaks| <= MAX_PEAKS && Resolver.AllOnGrid(peaks)
      modifies resolver.owner, resolver.queue, resolver.spots, resolver.pos, resolver`count
      ensures resolver.Valid() && n == resolver.count <= Assigner.MAX_TOUCH
      ensures InStep(peaks, resolver.spots[..n], resolver.pos[..n])
      ensures resolver.pos[..n] == ScreenAll(resolver.spots[..n])
      ensures ResolvesTo(rc, resolver.frame[..], peaks, how, resolver.spots[..n])
    {
      ghost var work, all, kept, dropped;
      work, all, kept, dropped := resolver.Resolve(rc, peaks);
      n, how := resolver.count, Resolution(work, all, kept, dropped);
      assert resolver.pos[..n] == ScreenAll(resolver.spots[..n]);
    }

    /** Contacts with their positions, ghosts removed. */
    method FindContacts(rc: Regions.ResolveConfig, g: GhostConfig, dist2Max: int, peaks: seq<Peak>)
      returns (ghost h: Handover)
      requires resolver.Valid() && tracker.Shape() && rc.Valid() && |peaks| <= MAX_PEAKS && Resolver.AllOnGrid(peaks)
      modifies resolver.owner, resolver.queue, resolver.spots, resolver.pos, resolver`count
      ensures resolver.Valid() && h.Sized() && InStep(peaks, h.spots, ScreenAll(h.spots))
      ensures ResolvesTo(rc, resolver.frame[..], peaks, h.how, h.spots)
      ensures DropsGhosts(g, dist2Max, tracker.tracks[..], Found(ScreenAll(h.spots), SumsOf(h.spots)), h.drop)
      ensures ContactsOf(resolver.spots[..resolver.count]) == h.Contacts()
      ensures resolver.pos[..resolver.count] == h.Places()
    {
      var n;
      ghost var how: Resolution;
      n, how := ResolveContacts(rc, peaks);
      ghost var spots := resolver.spots[..n];
      var det := resolver.pos[..n];
      assert det == ScreenAll(spots);
      var marks := MarkGhosts(g, dist2Max, Found(det, SumsOf(resolver.spots[..n])));
      h := Handover(how, spots, marks[..]);
      n := Squeeze(resolver.spots, resolver.pos, n, h.drop, marks);
      resolver.count := n;
    }

    /** Contacts, unless there is no finger to look for; ready for the tracker. */
    method Gather(rc: Regions.ResolveConfig, g: GhostConfig, cfg: Tracks.Config, finger: Finger, peaks: seq<Peak>)
      returns (f: SlotCycle.Frame, ghost h: Handover)
      requires resolver.Valid() && tracker.Shape() && rc.Valid() && cfg.Valid() && |peaks| <= MAX_PEAKS
      requires Resolver.AllOnGrid(peaks)
      modifies resolver.owner, resolver.queue, resolver.spots, resolver.pos, resolver`count
      ensures resolver.Valid() && HandsOn(cfg, finger, peaks, h, f) && f.Valid()
      ensures Gathers(rc, g, cfg.dist2Max, finger, old(resolver.frame[..]), old(tracker.tracks[..]), peaks, h)
    {
      if finger == Absent {
        resolver.count := 0;
        h := Handover(Resolution(Resolver.Work([], []), [], [], multiset{}), [], []);
      } else {
        h := FindContacts(rc, g, cfg.dist2Max, peaks);
      }
      var n := resolver.count;
      ThinnedInStep(peaks, h.spots, ScreenAll(h.spots), h.drop);
      f := SlotCycle.Frame(cfg, finger, resolver.pos[..n], ContactsOf(resolver.spots[..n]));
      HandedToTracker(cfg, finger, peaks, Thin(h.spots, h.drop), f.det);
    }

    /** The second half of a frame: contacts from peaks, ghosts out, touches tracked. Every position
        handed on lies on the screen. A frame without a finger looks for no contacts. */
    method Process(rc: Regions.ResolveConfig, g: GhostConfig, cfg: Tracks.Config, finger: Finger, peaks: seq<Peak>)
      returns (reported: nat, ghost h: Handover, ghost x: Tracker.Passage)
      requires resolver.Valid() && tracker.Valid() && rc.Valid() && cfg.Valid()
      requires |peaks| <= MAX_PEAKS && Resolver.AllOnGrid(peaks)
      modifies resolver.owner, resolver.queue, resolver.spots, resolver.pos, resolver`count
      modifies tracker, tracker.tracks, tracker.guard.table,
               tracker.assigner.cost, tracker.assigner.u, tracker.assigner.v, tracker.assigner.p, tracker.assigner.way
      ensures resolver.Valid() && tracker.Valid() && HandsOn(cfg, finger, peaks, h, x.f)
      ensures Gathers(rc, g, cfg.dist2Max, finger, old(resolver.frame[..]), old(tracker.tracks[..]), peaks, h)
      ensures Tracker.Passes(x, old(tracker.Now()), old(tracker.guard.table[..]),
                             tracker.Now(), tracker.guard.table[..])
      ensures reported == SlotCycle.ReportedSlots(tracker.tracks[..], Assigner.MAX_TOUCH)
      ensures finger == Absent ==> reported == 0
    {
      var f;
      f, h := Gather(rc, g, cfg, finger, peaks);
      reported, x := tracker.ProcessFrame(f);
    }
  }

  /** Removes the marked contacts from both tables in place. */
  method Squeeze(spots: array<Regions.Spot>, pos: array<Pos>, n: nat, ghost drop: seq<bool>, marks: array<bool>)
    returns (dst: nat)
    requires n <= spots.Length && n <= pos.Length && n <= marks.Length && marks[..] == drop
    modifies spots, pos
    ensures dst <= n && spots[..dst] == Thin(old(spots[..n]), drop) && pos[..dst] == Thin(old(pos[..n]), drop)
  {
    dst := 0;
    ghost var was, det := spots[..n], pos[..n];
    assert spots[..0] == [] && pos[..0] == [];
    for i := 0 to n
      invariant Squeezed(spots[..], was, i, dst, drop) && Squeezed(pos[..], det, i, dst, drop)
    {
      SqueezeStep(spots[..], was, i, dst, drop);
      SqueezeStep(pos[..], det, i, dst, drop);
      if !marks[i] {
        if dst != i {
          pos[dst] := pos[i];
          spots[dst] := spots[i];
        }
        dst := dst + 1;
      }
    }
    assert was[..n] == was && det[..n] == det;
  }

  /** The first i entries were thinned into the front, the others wait. */
  ghost predicate Squeezed<T>(now: seq<T>, was: seq<T>, i: nat, dst: nat, drop: seq<bool>) {
    && dst <= i <= |was| <= |now| && |was| <= |drop|
    && now[..dst] == Thin(was[..i], drop) && (forall k | i <= k < |was| :: now[k] == was[k])
  }

  lemma SqueezeStep<T>(now: seq<T>, was: seq<T>, i: nat, dst: nat, drop: seq<bool>)
    requires Squeezed(now, was, i, dst, drop) && i < |was|
    ensures drop[i] ==> Squeezed(now, was, i + 1, dst, drop)
    ensures !drop[i] ==> Squeezed(now[dst := now[i]], was, i + 1, dst + 1, drop)
    ensures dst == i ==> now[dst := now[i]] == now
  {
    assert was[..i + 1][..i] == was[..i];
    assert now[dst := now[i]][..dst + 1] == now[..dst] + [now[i]];
  }

  lemma NextPair(g: GhostConfig, dist2Max: int, tracks: seq<Track>, f: Found, k: nat, i: nat, j: nat)
    requires f.Sized() && k < |f.det| && i < j < |f.det|
    ensures GhostBefore(g, dist2Max, tracks, f, k, i, j + 1) <==>
      GhostBefore(g, dist2Max, tracks, f, k, i, j)
      || (Lopsided(g, f, i, j) && WeakOf(f, i, j) == k && !Linked(dist2Max, tracks, f.det[k]))
  {
  }
}
