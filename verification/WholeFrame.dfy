/** From the samples of a frame to its zones, peaks and contacts, in one piece. */
module WholeFrame {
  import opened Firmware
  import opened Sealing
  import opened Zones
  import opened Tables
  import opened Peaks
  import opened PeakFilters
  import opened TouchFrame
  import G = FingerPeaks
  import I = PeakIdentity
  import Z = ZoneDetector
  import Ghosts
  import P = Pipeline
  import Regions
  import SlotCycle
  import Tracks

  // ----- zones

  /** Of more zones than the table holds those with the most signal stay, and palms go: nothing else does. */
  lemma ZoneStaysExactlyWhen(setting: Setting, finger: Finger, m: Memory, d: Finding, peaks: seq<Peak>, z: Zone)
    requires FoundWell(setting, finger, m, d, peaks)
    ensures z in d.zoning.kept <==> z in d.zoning.strongest && setting.keep(z)
    ensures multiset(d.zoning.strongest) + d.zoning.lost == multiset(d.zoning.found)
    ensures forall k, y | 0 <= k < |d.zoning.strongest| && y in d.zoning.lost :: y.sum <= d.zoning.strongest[k].sum
    ensures |d.zoning.found| <= MAX_ZONES ==> multiset(d.zoning.strongest) == multiset(d.zoning.found)
    ensures forall i, k | 0 <= i < k < |d.zoning.strongest| :: d.zoning.strongest[i].sum >= d.zoning.strongest[k].sum
  {
    assert Open(0);
    var s, lost := d.zoning.strongest, d.zoning.lost;
    FilterIsSubsequence(s, setting.keep);
    KeptOutrankDropped(Z.SumOf, multiset(d.zoning.found), s, lost);
    forall k, y | 0 <= k < |s| && y in lost ensures y.sum <= s[k].sum {
      assert Z.SumOf(y) <= Z.SumOf(s[k]);
    }
    forall i, k | 0 <= i < k < |s| ensures s[i].sum >= s[k].sum {
      assert Z.SumOf(s[i]) >= Z.SumOf(s[k]);
    }
    assert |multiset(d.zoning.found)| == |s| + |lost|;
  }

  // ----- peaks

  /** The peak stage of this frame. */
  ghost function StageOf(setting: Setting, finger: Finger, m: Memory, d: Finding): G.Detection {
    G.Detection(setting.peaks, m.frame, setting.drifts, d.zoning.arena, d.zoning.kept,
                Surroundings(setting, finger, m.touches, |d.zoning.kept|), setting.boxes, d.seen, d.dropped, d.w)
  }

  lemma StageHolds(setting: Setting, finger: Finger, m: Memory, d: Finding, peaks: seq<Peak>)
    requires setting.Valid() && FoundWell(setting, finger, m, d, peaks)
    ensures StageOf(setting, finger, m, d).Holds() && multiset(d.unnamed) == multiset(d.w.right)
    ensures I.Tracked(d.unnamed, m.peaks, d.chosen, peaks)
  {
    assert Open(0);
  }

  /** A full table gives up its weakest candidates only. */
  lemma StrongestCandidatesStay(setting: Setting, finger: Finger, m: Memory, d: Finding, peaks: seq<Peak>)
    requires FoundWell(setting, finger, m, d, peaks)
    ensures multiset(d.w.kept) + d.dropped == multiset(d.seen)
    ensures forall k, q | 0 <= k < |d.w.kept| && q in d.dropped :: q.z <= d.w.kept[k].z
    ensures |d.seen| <= MAX_PEAKS ==> multiset(d.w.kept) == multiset(d.seen)
  {
    assert Open(0);
    KeptOutrankDropped(StrengthOf, multiset(d.seen), d.w.kept, d.dropped);
    forall k, q | 0 <= k < |d.w.kept| && q in d.dropped ensures q.z <= d.w.kept[k].z {
      assert StrengthOf(q) <= StrengthOf(d.w.kept[k]);
    }
    assert |multiset(d.seen)| == |d.w.kept| + |d.dropped|;
  }

  /** A peak of the frame at the cell of p. */
  ghost predicate PeakAtCellOf(peaks: seq<Peak>, p: Peak) {
    exists k :: 0 <= k < |peaks| && peaks[k].r == p.r && peaks[k].c == p.c
  }

  /** Of the candidates that stand out from their neighbours, the frame has exactly those as peaks that are no
      lone spikes, are large enough, lie in no palm box, and are not weak on an edge column. */
  lemma PeakExactlyWhen(setting: Setting, finger: Finger, m: Memory, d: Finding, peaks: seq<Peak>, p: Peak)
    requires setting.Valid() && FoundWell(setting, finger, m, d, peaks) && p in d.w.dipped
    ensures var x := Surroundings(setting, finger, m.touches, |d.zoning.kept|);
      PeakAtCellOf(peaks, p) <==>
        && (setting.peaks.z8Enabled ==> G.EightAround(m.frame, p.r, p.c) >= p.z / 32)
        && G.LargeEnough(x, p, |d.w.dense|) && !G.InPalm(setting.boxes, p) && !G.WeakOnEdge(d.w, p)
  {
    StageHolds(setting, finger, m, d, peaks);
    var g := StageOf(setting, finger, m, d);
    var bound := Bound(g.x.(peakCount := |d.w.dense|), p);
    G.FinalExactlyWhen(g, p);
    if k :| 0 <= k < |peaks| && peaks[k].r == p.r && peaks[k].c == p.c {
      SameCells(d, m, peaks, k);
      var q := G.FinalComesFrom(g, d.unnamed[k]);
      G.DippedAreKept(g);
      G.SameCellSamePeak(d.w.dipped, p, q);
    }
    if bound in d.w.right {
      assert bound in multiset(d.unnamed);
      var k :| 0 <= k < |d.unnamed| && d.unnamed[k] == bound;
      SameCells(d, m, peaks, k);
    }
  }

  lemma SameCells(d: Finding, m: Memory, peaks: seq<Peak>, k: nat)
    requires I.Tracked(d.unnamed, m.peaks, d.chosen, peaks) && k < |peaks| && multiset(d.unnamed) == multiset(d.w.right)
    ensures |d.unnamed| == |peaks| && d.unnamed[k] in d.w.right
    ensures peaks[k].r == d.unnamed[k].r && peaks[k].c == d.unnamed[k].c && peaks[k].z == d.unnamed[k].z
  {
    assert d.unnamed[k] in multiset(d.w.right);
    if i :| 0 <= i < |d.chosen| && d.chosen[i].0 == k {
      assert peaks[k] == I.Heir(d.unnamed[k], m.peaks[d.chosen[i].1]);
    }
  }

  /** And no others: every peak is such a candidate, with the sample of its cell. */
  lemma PeakComesFrom(setting: Setting, finger: Finger, m: Memory, d: Finding, peaks: seq<Peak>, k: nat)
    returns (p: Peak)
    requires setting.Valid() && FoundWell(setting, finger, m, d, peaks) && k < |peaks|
    ensures p in d.w.dipped && peaks[k].r == p.r && peaks[k].c == p.c
    ensures 0 <= p.r < 40 && 0 <= p.c < 60 && peaks[k].z == p.z == m.frame[p.r * 60 + p.c]
  {
    StageHolds(setting, finger, m, d, peaks);
    SameCells(d, m, peaks, k);
    p := G.FinalComesFrom(StageOf(setting, finger, m, d), d.unnamed[k]);
  }

  // ----- contacts

  /** The contacts found, as ghost suppression sees them. */
  ghost function Found(h: P.Handover): Ghosts.Found { Ghosts.Found(P.ScreenAll(h.spots), P.SumsOf(h.spots)) }

  /** Contact i is a weak echo of another one in its row, and no slot in use expects it. */
  ghost predicate IsEcho(setting: Setting, m: Memory, h: P.Handover, i: nat)
    requires i < |h.spots|
  {
    && setting.ghosts.enabled
    && !Ghosts.Expected(setting.tracks.dist2Max, m.touches.tracks, Regions.ScreenOf(h.spots[i]))
    && exists k :: Ghosts.Overshadows(setting.ghosts, Found(h), k, i)
  }

  lemma {:induction false} ThinHolds<T>(s: seq<T>, drop: seq<bool>, i: nat) returns (j: nat)
    requires i < |s| <= |drop| && !drop[i]
    ensures j < |Ghosts.Thin(s, drop)| && Ghosts.Thin(s, drop)[j] == s[i]
    decreases |s|
  {
    if i < |s| - 1 {
      j := ThinHolds(s[..|s| - 1], drop, i);
    } else {
      j := |Ghosts.Thin(s[..|s| - 1], drop)|;
    }
  }

  lemma {:induction false} ThinComesFrom<T>(s: seq<T>, drop: seq<bool>, j: nat) returns (i: nat)
    requires |s| <= |drop| && j < |Ghosts.Thin(s, drop)|
    ensures i < |s| && !drop[i] && Ghosts.Thin(s, drop)[j] == s[i]
    decreases |s|
  {
    if j < |Ghosts.Thin(s[..|s| - 1], drop)| {
      i := ThinComesFrom(s[..|s| - 1], drop, j);
    } else {
      i := |s| - 1;
    }
  }

  lemma DroppedIsEcho(setting: Setting, finger: Finger, m: Memory, peaks: seq<Peak>, h: P.Handover,
                      f: SlotCycle.Frame, i: nat)
    requires finger != Absent && Gathered(setting, finger, m, peaks, h, f) && i < |h.spots|
    ensures h.Sized() && (h.drop[i] <==> IsEcho(setting, m, h, i))
    ensures P.InStep(peaks, h.spots, P.ScreenAll(h.spots))
    ensures f.contacts == h.Contacts() && f.det == h.Places() && f.cfg == setting.tracks && f.finger == finger
  {
    assert Open(0);
    Ghosts.GhostExactlyWhen(setting.ghosts, setting.tracks.dist2Max, m.touches.tracks, Found(h), i);
  }

  /** The tracker gets exactly the contacts that are no echoes, each with its place on the screen. */
  lemma ContactHandedOn(setting: Setting, finger: Finger, m: Memory, peaks: seq<Peak>, h: P.Handover,
                        f: SlotCycle.Frame, i: nat) returns (j: nat)
    requires finger != Absent && Gathered(setting, finger, m, peaks, h, f) && i < |h.spots|
    requires !IsEcho(setting, m, h, i)
    ensures j < |f.contacts| == |f.det| && f.contacts[j] == h.spots[i].contact
    ensures f.det[j] == Regions.ScreenOf(h.spots[i])
  {
    DroppedIsEcho(setting, finger, m, peaks, h, f, i);
    j := ThinHolds(h.spots, h.drop, i);
    Ghosts.ThinInStep(h.spots, P.ScreenAll(h.spots), h.drop, P.Screen());
  }

  lemma ContactComesFrom(setting: Setting, finger: Finger, m: Memory, peaks: seq<Peak>, h: P.Handover,
                         f: SlotCycle.Frame, j: nat) returns (i: nat)
    requires finger != Absent && Gathered(setting, finger, m, peaks, h, f) && j < |f.contacts|
    ensures i < |h.spots| && !IsEcho(setting, m, h, i) && f.contacts[j] == h.spots[i].contact
    ensures |f.contacts| == |f.det| && f.det[j] == Regions.ScreenOf(h.spots[i])
  {
    assert h.Sized() && f.contacts == h.Contacts() && f.det == h.Places();
    i := ThinComesFrom(h.spots, h.drop, j);
    DroppedIsEcho(setting, finger, m, peaks, h, f, i);
    Ghosts.ThinInStep(h.spots, P.ScreenAll(h.spots), h.drop, P.Screen());
  }

  // ----- what the filters know

  /** The peak filters expect a fast start exactly in a frame whose lone contact the tracker would start fast. */
  lemma FastStartAgrees(setting: Setting, f: SlotCycle.Frame, s: SlotCycle.State, n: nat)
    requires f.cfg == setting.tracks
    ensures SlotCycle.FastPending(f, s) <==>
      && Surroundings(setting, f.finger, s, n).fastPending && |f.det| == |f.contacts| == 1
      && (f.contacts[0].isEdge || f.contacts[0].fastStart) && !f.contacts[0].continuationOnly
  {
  }

  /** And they know of the finger what the tracker will remember after the frame. */
  lemma FingerAgrees(setting: Setting, f: SlotCycle.Frame, s: SlotCycle.State, c: SlotCycle.Choice,
                     mid: seq<Tracks.Track>, t: SlotCycle.State, n: nat)
    requires SlotCycle.FrameStep(f, s, c, mid, t)
    ensures Surroundings(setting, f.finger, s, n).fingerPresent <==> t.fingerPresent
  {
  }
}
