/** The tracker over its slot array: matching, following, aging, and giving out new slots. */
module Tracker {
  import opened Machine
  import opened Firmware
  import opened Pigeonhole
  import opened Sealing
  import opened Tracks
  import opened Hungarian
  import opened Assigner
  import opened MatchCosts
  import opened SlotCycle
  import opened SplitGuard
  import opened SlotGiving
  import C = Competition

  /** The active slots in order. */
  ghost predicate ActiveList(tracks: seq<Track>, active: seq<nat>) {
    && |tracks| == MAX_TOUCH && |active| <= MAX_TOUCH && Distinct(active)
    && (forall r | 0 <= r < |active| :: active[r] < MAX_TOUCH && tracks[active[r]].active)
    && (forall i | 0 <= i < MAX_TOUCH && tracks[i].active :: i in active)
  }

  /** The matches by slot, as either matcher leaves them. */
  ghost predicate BySlot(active: seq<nat>, f: seq<int>, matches: seq<int>) {
    && |f| == |active| && |matches| == MAX_TOUCH
    && (forall r | 0 <= r < |active| :: active[r] < MAX_TOUCH && matches[active[r]] == f[r])
    && (forall i | 0 <= i < MAX_TOUCH && i !in active :: matches[i] == -1)
  }

  ghost predicate PriorPeaks(tracks: seq<Track>, prior: seq<u8>) {
    |prior| == |tracks| && forall i | 0 <= i < |tracks| :: prior[i] == if tracks[i].active then tracks[i].peakId else 0
  }

  /** After the matched slots were updated. */
  ghost predicate Followed(f: Frame, s: seq<Track>, matches: seq<int>, s1: seq<Track>, used: seq<bool>,
                           jumped: seq<bool>) {
    && f.Valid() && |s| == |matches| == |s1| == |used| == |jumped| == MAX_TOUCH
    && (forall i | 0 <= i < MAX_TOUCH :: -1 <= matches[i] < |f.det|)
    && (forall i | 0 <= i < MAX_TOUCH :: s1[i] == AfterMatch(f.cfg, s[i], f.det, f.contacts, matches[i]))
    && (forall i | 0 <= i < MAX_TOUCH :: jumped[i] == (matches[i] >= 0 && Jumps(f.cfg, s[i], f.det[matches[i]])))
    && (forall j | 0 <= j < MAX_TOUCH :: used[j] <==> exists i :: 0 <= i < MAX_TOUCH && matches[i] == j && !jumped[i])
  }

  class Tracker {
    const tracks: array<Track>
    const guard: Guard
    const assigner: Assigner
    var touchActive: bool
    var touchStart: u8
    var fingerPresent: bool

    constructor ()
      ensures Valid() && fresh(Parts())
    {
      tracks := new Track[MAX_TOUCH](_ => EMPTY);
      guard := new Guard();
      assigner := new Assigner();
      touchActive, touchStart, fingerPresent := false, 0, false;
    }

    /** Every array of the tracker. */
    ghost function Parts(): set<object> {
      {tracks, guard.table, assigner.cost, assigner.u, assigner.v, assigner.p, assigner.way}
    }

    ghost predicate Shape() {
      tracks.Length == MAX_TOUCH && guard.Valid() && assigner.Valid()
    }

    ghost predicate Valid()
      reads this, tracks, guard.table
    {
      Shape() && C.IdsDistinct(guard.table[..]) && Now().Good()
    }

    ghost function Now(): State
      reads this, tracks
    {
      State(tracks[..], touchActive, touchStart, fingerPresent)
    }

    /** Forgets every touch and competitor, as on wake and reset. */
    method Clear()
      requires Shape()
      modifies this, tracks, guard.table
      ensures Valid() && tracks[..] == seq(MAX_TOUCH, _ => EMPTY) && guard.table[..] == seq(C.TABLE, _ => C.NONE)
      ensures !touchActive && touchStart == 0 && !fingerPresent
    {
      ReleaseAll();
      guard.Clear();
      touchActive, touchStart, fingerPresent := false, 0, false;
    }

    /** Lists the active slots and the peak each one followed. */
    method ActiveSlots() returns (active: seq<nat>, prior: array<u8>)
      requires Shape()
      ensures ActiveList(tracks[..], active) && fresh(prior) && PriorPeaks(tracks[..], prior[..])
    {
      active := [];
      prior := new u8[MAX_TOUCH](_ => 0);
      for i := 0 to MAX_TOUCH
        invariant |active| <= i && Distinct(active)
        invariant forall r | 0 <= r < |active| :: active[r] < i && tracks[active[r]].active
        invariant forall k | 0 <= k < i && tracks[k].active :: k in active
        invariant forall k | 0 <= k < MAX_TOUCH :: prior[k] == if k < i && tracks[k].active then tracks[k].peakId else 0
      {
        if tracks[i].active {
          prior[i] := tracks[i].peakId;
          active := active + [i];
        }
      }
    }

    /** Looks for regular detections in the track's gate, and among them one with its own peak. */
    method MarkTarget(f: Frame, t: Track) returns (regular: bool, own: bool)
      requires f.Valid()
      ensures regular == RegularInGate(f.cfg, t, f.det, f.contacts, |f.det|)
      ensures own == OwnPeakInGate(f.cfg, t, f.det, f.contacts, |f.det|)
    {
      regular, own := false, false;
      for j := 0 to |f.det|
        invariant regular == RegularInGate(f.cfg, t, f.det, f.contacts, j)
        invariant own == OwnPeakInGate(f.cfg, t, f.det, f.contacts, j)
      {
        if j < |f.contacts| && f.contacts[j].continuationOnly {
          continue;
        }
        if Dist2Predicted(f.det[j], t) <= Gate2(f.cfg, t) {
          assert Regular(f.contacts, j) && InGate(f.cfg, t, f.det[j]);
          regular := true;
          if j < |f.contacts| && t.peakId != 0 && f.contacts[j].peakId == t.peakId {
            assert SamePeak(t, f.contacts, j);
            own := true;
          }
        }
      }
    }

    method Price(f: Frame, ti: nat, t: Track, j: nat, regular: bool, own: bool) returns (price: int)
      requires f.Valid() && j < |f.det|
      ensures price == PriceOf(f.cfg, ti, t, f.det[j], f.contacts, j, regular, own)
    {
      price := Dist2Predicted(f.det[j], t);
      if j < |f.contacts| && f.contacts[j].continuationOnly && (f.contacts[j].slot != ti || regular) {
        price := INF;
      } else if price <= Gate2(f.cfg, t) {
        if j < |f.contacts| && t.peakId != 0 && f.contacts[j].peakId != 0 && t.peakId != f.contacts[j].peakId {
          if own {
            price := Dist2MotionRay(f.det[j], t);
          }
          price := price + f.cfg.peakIdPenalty * AgeWeight(t);
        }
      } else {
        price := INF;
      }
    }

    method FillRow(f: Frame, n: nat, i: nat, ti: nat, t: Track, regular: bool, own: bool)
      requires Shape() && f.Valid() && i < n <= MAX_TOUCH
      requires regular == RegularInGate(f.cfg, t, f.det, f.contacts, |f.det|)
      requires own == OwnPeakInGate(f.cfg, t, f.det, f.contacts, |f.det|)
      modifies assigner.cost
      ensures forall j | 0 <= j < |f.det| :: assigner.cost[i, j] == PairPrice(f.cfg, ti, t, f.det, f.contacts, j)
      ensures forall j | |f.det| <= j < |f.det| + n :: assigner.cost[i, j] == Unmatched(f.cfg)
      ensures forall r, j | 0 <= r < MAX_TOUCH && 0 <= j < MAX_COLUMNS && r != i ::
        assigner.cost[r, j] == old(assigner.cost[r, j])
    {
      var d := |f.det|;
      for j := 0 to d
        invariant forall k | 0 <= k < j :: assigner.cost[i, k] == PairPrice(f.cfg, ti, t, f.det, f.contacts, k)
        invariant forall r, k | 0 <= r < MAX_TOUCH && 0 <= k < MAX_COLUMNS && r != i ::
          assigner.cost[r, k] == old(assigner.cost[r, k])
      {
        var price := Price(f, ti, t, j, regular, own);
        PriceIsSmallExactlyWhenAllowed(f.cfg, ti, t, f.det, f.contacts, j);
        assigner.cost[i, j] := price;
      }
      for j := d to d + n
        invariant forall k | 0 <= k < d :: assigner.cost[i, k] == PairPrice(f.cfg, ti, t, f.det, f.contacts, k)
        invariant forall k | d <= k < j :: assigner.cost[i, k] == Unmatched(f.cfg)
        invariant forall r, k | 0 <= r < MAX_TOUCH && 0 <= k < MAX_COLUMNS && r != i ::
          assigner.cost[r, k] == old(assigner.cost[r, k])
      {
        assigner.cost[i, j] := Unmatched(f.cfg);
      }
    }

    method FillCosts(f: Frame, active: seq<nat>)
      requires Shape() && f.Valid() && ActiveList(tracks[..], active)
      modifies assigner.cost
      ensures assigner.Holds(Table(f.cfg, tracks[..], active, f.det, f.contacts), |active|, |f.det| + |active|)
    {
      var n := |active|;
      ghost var c := Table(f.cfg, tracks[..], active, f.det, f.contacts);
      for i := 0 to n
        invariant forall r, j | 0 <= r < i && 0 <= j < |f.det| + n :: assigner.cost[r, j] == c[r][j]
      {
        var t := tracks[active[i]];
        var regular, own := MarkTarget(f, t);
        FillRow(f, n, i, active[i], t, regular, own);
      }
    }

    /** The cheapest unused detection of one row, first one on ties. */
    method Pick(ghost c: Costs, i: nat, n: nat, d: nat, detUsed: array<bool>) returns (choice: int)
      requires Shape() && i < n <= MAX_TOUCH && d <= MAX_TOUCH && detUsed.Length == MAX_TOUCH
      requires assigner.Holds(c, n, d + n)
      ensures -1 <= choice < d && (choice >= 0 ==> !detUsed[choice] && c[i][choice] < INF)
      ensures forall j | 0 <= j < d && !detUsed[j] && c[i][j] < INF ::
        choice >= 0 && (c[i][choice] < c[i][j] || (c[i][choice] == c[i][j] && choice <= j))
    {
      choice := -1;
      var best := INF;
      for j := 0 to d
        invariant -1 <= choice < j && (choice >= 0 ==> !detUsed[choice] && best == c[i][choice] < INF)
        invariant choice < 0 ==> best == INF
        invariant forall k | 0 <= k < j && !detUsed[k] && c[i][k] < INF ::
          choice >= 0 && (best < c[i][k] || (best == c[i][k] && choice <= k))
      {
        if !detUsed[j] && assigner.cost[i, j] < best {
          best, choice := assigner.cost[i, j], j;
        }
      }
    }

    /** Track by track, each takes the cheapest detection left. */
    method Greedy(ghost c: Costs, active: seq<nat>, d: nat, matches: array<s8>) returns (ghost g: seq<int>)
      requires Shape() && d <= MAX_TOUCH && matches.Length == MAX_TOUCH && |active| <= MAX_TOUCH
      requires Distinct(active) && forall r | 0 <= r < |active| :: active[r] < MAX_TOUCH
      requires assigner.Holds(c, |active|, d + |active|)
      modifies matches
      ensures IsGreedy(c, g, |active|, d) && BySlot(active, g, matches[..])
    {
      var n := |active|;
      for i := 0 to MAX_TOUCH
        invariant forall k | 0 <= k < i :: matches[k] == -1
      {
        matches[i] := -1;
      }
      var detUsed := new bool[MAX_TOUCH](_ => false);
      g := [];
      for i := 0 to n
        invariant |g| == i && forall r | 0 <= r < i :: GreedyChoice(c, g, d, r)
        invariant forall j | 0 <= j < d :: detUsed[j] <==> Taken(g, i, j)
        invariant forall r | 0 <= r < i :: matches[active[r]] == g[r]
        invariant forall k | 0 <= k < MAX_TOUCH && k !in active[..i] :: matches[k] == -1
      {
        var choice := Pick(c, i, n, d, detUsed);
        GreedyExtends(c, g, d, i, choice);
        matches[active[i]] := choice;
        if choice >= 0 {
          detUsed[choice] := true;
        }
        assert active[..i + 1] == active[..i] + [active[i]];
        g := g + [choice];
      }
      assert active[..n] == active;
    }

    /** Matches active slots with detections. */
    method Match(f: Frame, active: seq<nat>) returns (matches: array<s8>, ghost g: seq<int>)
      requires Shape() && f.Valid() && ActiveList(tracks[..], active)
      modifies assigner.cost, assigner.u, assigner.v, assigner.p, assigner.way
      ensures fresh(matches) && BySlot(active, g, matches[..])
      ensures Sound(f.cfg, tracks[..], active, f.det, f.contacts, g)
      ensures BestOrGreedy(f, tracks[..], active, g)
    {
      ghost var c := Table(f.cfg, tracks[..], active, f.det, f.contacts);
      FillCosts(f, active);
      TableIsProblem(f.cfg, tracks[..], active, f.det, f.contacts);
      matches := new s8[MAX_TOUCH];
      if f.cfg.hungarian {
        g := assigner.Assign(c, active, |f.det|, Unmatched(f.cfg), matches);
        BestIsSound(f, tracks[..], active, g);
      } else {
        g := Greedy(c, active, |f.det|, matches);
        GreedyIsSound(f, tracks[..], active, g);
      }
    }

    /** Updates the matched slots; a jump releases the slot and leaves its detection unused. */
    method Follow(f: Frame, active: seq<nat>, matches: array<s8>) returns (used: array<bool>, jumped: array<bool>)
      requires Shape() && f.Valid() && ActiveList(tracks[..], active) && matches.Length == MAX_TOUCH
      requires forall i | 0 <= i < MAX_TOUCH :: -1 <= matches[i] < |f.det| && (matches[i] >= 0 ==> i in active)
      modifies tracks
      ensures fresh(used) && fresh(jumped)
      ensures Followed(f, old(tracks[..]), matches[..], tracks[..], used[..], jumped[..])
    {
      used, jumped := new bool[MAX_TOUCH](_ => false), new bool[MAX_TOUCH](_ => false);
      ghost var s, m := tracks[..], matches[..];
      ghost var p: Partway := Partway(s, used[..], jumped[..], {}, map[]);
      for r := 0 to |active|
        invariant forall q | 0 <= q < |active| :: active[q] in p.done <==> q < r
        invariant PartlyFollowed(f, s, m, p)
        invariant p.tracks == tracks[..] && p.used == used[..] && p.jumped == jumped[..]
      {
        var ti := active[r];
        var di := matches[ti];
        FollowStep(f, s, m, p, ti);
        p := NextPartway(f, m, p, ti);
        if di >= 0 {
          var t := tracks[ti];
          if f.cfg.jumpDist2 > 0 && t.age >= 2 && Dist2(f.det[di].x, f.det[di].y, t.x, t.y) > f.cfg.jumpDist2 {
            tracks[ti] := EMPTY;
            jumped[ti] := true;
          } else {
            tracks[ti] := Continued(f.cfg, t, f.det[di], f.contacts, di);
            used[di] := true;
          }
        }
      }
      AllFollowed(f, s, m, p);
    }

    /** Carries unmatched slots over a missed frame, or releases them. */
    method AgeUnmatched(f: Frame, matches: array<s8>)
      requires Shape() && f.Valid() && matches.Length == MAX_TOUCH
      modifies tracks
      ensures AgedFrom(f, touchActive, old(tracks[..]), matches[..], tracks[..])
    {
      for i := 0 to MAX_TOUCH
        invariant forall k | i <= k < MAX_TOUCH :: tracks[k] == old(tracks[k])
        invariant forall k | 0 <= k < i ::
          var t := old(tracks[k]); tracks[k] == if t.active && matches[k] < 0 then Aged(f.cfg, touchActive, t) else t
      {
        var t := tracks[i];
        if t.active && matches[i] < 0 {
          if !t.reported || (f.cfg.activeGuard && !touchActive) {
            tracks[i] := EMPTY;
          } else if t.missed as int + 1 > f.cfg.lostFrames {
            tracks[i] := EMPTY;
          } else {
            tracks[i] := t.(missed := t.missed + 1);
          }
        }
      }
    }

    /** The first slot that is free and was not released by a jump. */
    method FindFree(jumped: array<bool>) returns (slot: nat)
      requires Shape() && jumped.Length == MAX_TOUCH
      ensures slot == FreeSlot(tracks[..], jumped[..], 0)
    {
      for i := 0 to MAX_TOUCH
        invariant FreeSlot(tracks[..], jumped[..], 0) == FreeSlot(tracks[..], jumped[..], i)
      {
        if !tracks[i].active && !jumped[i] {
          return i;
        }
      }
      return MAX_TOUCH;
    }

    /** Asks the guard about detection j, and gives it the first slot that is left. */
    method GiveSlot(u: Setup, jumped: array<bool>, ghost before: Giving, j: nat)
      requires Shape() && u.Valid() && before.Sized() && j < |u.f.det| && jumped.Length == MAX_TOUCH
      requires tracks[..] == before.tracks && guard.table[..] == before.table && jumped[..] == u.jumped
      requires touchActive == u.touchActive
      modifies tracks, guard.table
      ensures var g := GiveUnder(u, before, j, VerdictOn(u, before, j));
        tracks[..] == g.tracks && guard.table[..] == g.table
    {
      var deferred, looks := guard.IsUnconfirmedSplit(u.SceneWith(tracks[..]), j);
      assert Verdict(guard.table[..], deferred) == VerdictOn(u, before, j);
      if !deferred {
        var slot := FindFree(jumped);
        if slot < MAX_TOUCH {
          tracks[slot] := Created(u.f.cfg, touchActive, u.fast, |u.active|, u.f.det, u.f.contacts, j);
        }
      }
    }

    /** Gives new slots to the detections nothing continued with. */
    method GiveSlots(u: Setup, used: array<bool>, jumped: array<bool>) returns (ghost g: Giving)
      requires Shape() && u.Valid() && used.Length == jumped.Length == MAX_TOUCH
      requires tracks[..] == u.kept && guard.table[..] == u.table && used[..] == u.used && jumped[..] == u.jumped
      requires touchActive == u.touchActive
      modifies tracks, guard.table
      ensures g == GiveAll(u, |u.f.det|) && tracks[..] == g.tracks && guard.table[..] == g.table
    {
      g := Nobody(u);
      for j := 0 to |u.f.det|
        invariant g == GiveAll(u, j) && tracks[..] == g.tracks && guard.table[..] == g.table
        invariant used[..] == u.used && jumped[..] == u.jumped
      {
        ghost var before := g;
        g := GiveOne(u, g, j);
        if used[j] || (j < |u.f.contacts| && u.f.contacts[j].continuationOnly) {
          continue;
        }
        GiveSlot(u, jumped, before, j);
      }
    }

    /** The slots that go on: matched ones follow their detection, the others age. */
    method Continue(f: Frame, fast: bool)
      returns (u: Setup, used: array<bool>, jumped: array<bool>, ghost s1: seq<Track>, ghost g: seq<int>)
      requires Shape() && f.Valid()
      modifies tracks, assigner.cost, assigner.u, assigner.v, assigner.p, assigner.way
      ensures u.Valid() && u.f == f && u.touchActive == touchActive && u.fast == fast
      ensures fresh(used) && fresh(jumped) && used[..] == u.used && jumped[..] == u.jumped
      ensures tracks[..] == u.kept && guard.table[..] == u.table && Carried(u, old(tracks[..]), s1, g)
    {
      var active, prior := ActiveSlots();
      var matches;
      matches, g := Match(f, active);
      MatchesInRange(active, g, matches[..], |f.det|);
      used, jumped := Follow(f, active, matches);
      s1 := tracks[..];
      AgeUnmatched(f, matches);
      u := Setup(f, touchActive, fast, active, matches[..], prior[..], used[..], jumped[..], tracks[..],
          guard.table[..]);
    }

    /** Matching, following, aging and giving out slots: one call of the tracker. */
    method TrackContacts(f: Frame, fast: bool) returns (ghost x: Passage)
      requires Shape() && f.Valid() && f.finger != Absent
      modifies tracks, guard.table, assigner.cost, assigner.u, assigner.v, assigner.p, assigner.way
      ensures x.f == f && x.mid == tracks[..]
      ensures Moves(x, touchActive, fast, old(tracks[..]), old(guard.table[..]), guard.table[..])
    {
      ghost var s, table := tracks[..], guard.table[..];
      guard.BeginFrame();
      var u, used, jumped;
      ghost var s1, g;
      u, used, jumped, s1, g := Continue(f, fast);
      ghost var giving := GiveSlots(u, used, jumped);
      guard.EndFrame();
      x := Assembled(u, s, s1, g, table);
    }

    method CountStable() returns (stable: nat)
      requires Shape()
      ensures stable > 0 <==> AnyStable(tracks[..])
    {
      stable := 0;
      for i := 0 to MAX_TOUCH
        invariant stable > 0 <==> exists k :: 0 <= k < i && Stable(tracks[k])
      {
        if tracks[i].active && tracks[i].debounce == 0 {
          assert Stable(tracks[i]);
          stable := stable + 1;
        }
      }
    }

    method HasActive() returns (active: bool)
      requires Shape()
      ensures active == AnyActive(tracks[..])
    {
      for i := 0 to MAX_TOUCH
        invariant forall k | 0 <= k < i :: !tracks[k].active
      {
        if tracks[i].active {
          assert tracks[..][i].active;
          return true;
        }
      }
      return false;
    }

    method ReleaseAll()
      requires Shape()
      modifies tracks
      ensures tracks[..] == seq(MAX_TOUCH, _ => EMPTY)
    {
      for i := 0 to MAX_TOUCH
        invariant forall k | 0 <= k < i :: tracks[k] == EMPTY
      {
        tracks[i] := EMPTY;
      }
    }

    /** Whether a touch is established now: it takes some frames with a debounced slot in each. */
    method Establish(cfg: Config)
      requires Shape() && cfg.Valid() && StartOk(touchActive, touchStart)
      modifies `touchActive, `touchStart
      ensures touchActive == Established(old(touchActive), old(touchStart), cfg, tracks[..])
      ensures touchStart == StartAfter(old(touchActive), old(touchStart), tracks[..])
    {
      var stable := CountStable();
      if stable > 0 {
        if !touchActive {
          touchStart := touchStart + 1;
          if touchStart >= cfg.startDebounce {
            touchActive := true;
          }
        }
      } else {
        touchStart, touchActive := 0, false;
      }
    }

    /** Marks debounced slots as reported and counts what is reported. */
    method Report() returns (reported: nat)
      requires Shape()
      modifies tracks
      ensures forall i | 0 <= i < MAX_TOUCH :: tracks[i] == ReportedIf(old(tracks[i]), touchActive)
      ensures reported == ReportedSlots(tracks[..], MAX_TOUCH)
    {
      reported := 0;
      for i := 0 to MAX_TOUCH
        invariant forall k | 0 <= k < MAX_TOUCH ::
          tracks[k] == if k < i then ReportedIf(old(tracks[k]), touchActive) else old(tracks[k])
        invariant reported == ReportedSlots(tracks[..], i)
      {
        ghost var before := tracks[..];
        if tracks[i].active && tracks[i].debounce == 0 && touchActive {
          tracks[i] := tracks[i].(reported := true);
        }
        SamePrefix(before, tracks[..], i);
        if tracks[i].active && tracks[i].reported {
          reported := reported + 1;
        }
      }
    }

    /** The slots before reporting is settled: tracked, or all released when the finger is gone. */
    method Update(f: Frame, fast: bool) returns (ghost x: Passage)
      requires Shape() && f.Valid()
      modifies tracks, guard.table, assigner.cost, assigner.u, assigner.v, assigner.p, assigner.way
      ensures x.f == f && x.mid == tracks[..]
      ensures Moves(x, touchActive, fast, old(tracks[..]), old(guard.table[..]), guard.table[..])
    {
      if f.finger == Absent {
        ReleaseAll();
        x := Passage(f, Choice([], [], [], {}), tracks[..], [], Log([], [], [], {}),
                     Setup(f, touchActive, fast, [], [], [], [], [], [], []));
      } else {
        x := TrackContacts(f, fast);
      }
    }

    /** The finger bit of the frame status; a rise right before a lone first edge contact is trusted. */
    method NoteFinger(f: Frame) returns (fast: bool)
      requires Shape()
      modifies `fingerPresent
      ensures fast == FastPending(f, old(State(tracks[..], touchActive, touchStart, fingerPresent)))
      ensures fingerPresent == FingerAfter(f, old(fingerPresent))
    {
      var rising := f.finger == Present && !fingerPresent;
      var tracked := HasActive();
      if f.finger == Present {
        fingerPresent := true;
      } else if f.finger == Absent {
        fingerPresent := false;
      }
      fast := f.cfg.edgeFastStart && rising && !tracked && |f.det| == 1 && |f.contacts| == 1
        && (f.contacts[0].isEdge || f.contacts[0].fastStart) && !f.contacts[0].continuationOnly;
    }

    /** One frame with the contacts found in it. Returns how many slots are reported. */
    method ProcessFrame(f: Frame) returns (reported: nat, ghost x: Passage)
      requires Valid() && f.Valid()
      modifies this, tracks, guard.table, assigner.cost, assigner.u, assigner.v, assigner.p, assigner.way
      ensures Valid() && x.f == f && Passes(x, old(Now()), old(guard.table[..]), Now(), guard.table[..])
      ensures reported == ReportedSlots(tracks[..], MAX_TOUCH) && (f.finger == Absent ==> reported == 0)
    {
      ghost var s, table := Now(), guard.table[..];
      var fast := NoteFinger(f);
      x := Update(f, fast);
      Establish(f.cfg);
      reported := Report();
      PassageComplete(x, s, table, Now(), guard.table[..]);
    }
  }

  /** One processed frame: what was chosen, the slots before reporting is settled, the matches in
      order of the active slots, the guard's looks, and the set-up the new slots were given from. */
  datatype Passage = Passage(f: Frame, c: Choice, mid: seq<Track>, g: seq<int>, log: Log, u: Setup)

  /** What matching, following, aging and giving out slots amount to, from slots s. Sealed. */
  ghost predicate Moves(x: Passage, touchActive: bool, fast: bool, s: seq<Track>, table: C.Table, table': C.Table) {
    && x.f.Valid()
    && if x.f.finger == Absent then x.mid == seq(MAX_TOUCH, _ => EMPTY) && table' == table
       else forall o {:trigger Open(o)} :: Open(o) ==> MovesWell(x, touchActive, fast, s, table, table')
  }

  ghost predicate MovesWell(x: Passage, touchActive: bool, fast: bool, s: seq<Track>, table: C.Table, table': C.Table)
    requires x.f.Valid()
  {
    && Tracked(x.f, touchActive, fast, s, x.c, x.mid)
    && MatchedWell(x.f, s, x.c, x.g) && Determined(x.u, x.f, s, table, x.c, x.mid, table')
    && GuardedWell(x.u, table, x.c, x.log, table') && x.u.touchActive == touchActive && x.u.fast == fast
  }

  /** All that one frame promises, from slots s and guard table to slots t and guard table'. */
  ghost predicate Passes(x: Passage, s: State, table: C.Table, t: State, table': C.Table) {
    FrameStep(x.f, s, x.c, x.mid, t) && Moves(x, s.touchActive, FastPending(x.f, s), s.tracks, table, table')
  }

  lemma PassageComplete(x: Passage, s: State, table: C.Table, t: State, table': C.Table)
    requires s.Good() && C.IdsDistinct(table) && Moves(x, s.touchActive, FastPending(x.f, s), s.tracks, table, table')
    requires |x.mid| == |t.tracks| == MAX_TOUCH
    requires t.touchActive == Established(s.touchActive, s.touchStart, x.f.cfg, x.mid)
    requires t.touchStart == StartAfter(s.touchActive, s.touchStart, x.mid)
    requires forall i | 0 <= i < MAX_TOUCH :: t.tracks[i] == ReportedIf(x.mid[i], t.touchActive)
    requires t.fingerPresent == FingerAfter(x.f, s.fingerPresent)
    ensures Passes(x, s, table, t, table') && t.Good() && C.IdsDistinct(table')
    ensures x.f.finger == Absent ==> ReportedSlots(t.tracks, MAX_TOUCH) == 0
  {
    if x.f.finger == Absent {
      StepKeepsGood(x.f, s, x.c, x.mid, t);
      NoneReported(t.tracks, MAX_TOUCH);
    } else {
      assert Open(0);
      StepKeepsGood(x.f, s, x.c, x.mid, t);
      C.FrameTidy(table, x.log.touches);
    }
  }

  /** The matches of a frame: one to one, allowed, and best or greedy as configured. */
  ghost predicate MatchedWell(f: Frame, s: seq<Track>, c: Choice, g: seq<int>)
    requires f.Valid()
  {
    && ActiveList(s, c.active) && BySlot(c.active, g, c.matches)
    && Sound(f.cfg, s, c.active, f.det, f.contacts, g) && BestOrGreedy(f, s, c.active, g)
  }

  /** The guard's table over a frame, and whom it held back under which setting. */
  ghost predicate GuardedWell(u: Setup, table: C.Table, c: Choice, log: Log, table': C.Table)
    requires u.Valid()
  {
    && GuardStep(table, u.f.contacts, log, table') && LimitsApplied(u, log)
    && log.deferred == c.deferred && |log.touches| <= |u.f.det|
  }

  /** The set-up describes slots s under the matches m. */
  ghost predicate Describes(u: Setup, s: seq<Track>) {
    && u.Valid() && |s| == MAX_TOUCH && PriorPeaks(s, u.prior)
    && (forall i | 0 <= i < MAX_TOUCH ::
          u.kept[i] == Kept(u.f.cfg, u.touchActive, s[i], u.f.det, u.f.contacts, u.matches[i]))
    && (forall i | 0 <= i < MAX_TOUCH ::
          u.jumped[i] == (s[i].active && u.matches[i] >= 0 && Jumps(u.f.cfg, s[i], u.f.det[u.matches[i]])))
    && (forall j | 0 <= j < MAX_TOUCH ::
          u.used[j] <==> exists i :: 0 <= i < MAX_TOUCH && u.matches[i] == j && !u.jumped[i])
  }

  /** Given the matches, the frame's outcome is determined: who is held back, who gets which slot. */
  ghost predicate Determined(u: Setup, f: Frame, s: seq<Track>, table: C.Table, c: Choice, t: seq<Track>,
                             table': C.Table) {
    && Describes(u, s) && u.f == f && u.active == c.active && u.matches == c.matches && u.table == C.Unseen(table)
    && var given := GiveAll(u, |f.det|);
       t == given.tracks && c.born == given.born && c.deferred == given.deferred && table' == C.Swept(given.table)
  }

  lemma SetupDescribes(u: Setup, s: seq<Track>, s1: seq<Track>)
    requires u.Valid() && PriorPeaks(s, u.prior) && ActiveList(s, u.active)
    requires forall i | 0 <= i < MAX_TOUCH && u.matches[i] >= 0 :: i in u.active
    requires Followed(u.f, s, u.matches, s1, u.used, u.jumped) && AgedFrom(u.f, u.touchActive, s1, u.matches, u.kept)
    ensures Describes(u, s)
  {
  }

  lemma {:induction false} SamePrefix(a: seq<Track>, b: seq<Track>, k: nat)
    requires k <= |a| == |b| && forall i | 0 <= i < k :: a[i] == b[i]
    ensures ReportedSlots(a, k) == ReportedSlots(b, k)
  {
    if k > 0 {
      SamePrefix(a, b, k - 1);
    }
  }

  lemma {:induction false} NoneReported(a: seq<Track>, k: nat)
    requires k <= |a| && forall i | 0 <= i < |a| :: a[i] == EMPTY
    ensures ReportedSlots(a, k) == 0
  {
    if k > 0 {
      NoneReported(a, k - 1);
    }
  }

  /** The slots while some of them, `done`, were updated; `feeder` tells which used up a detection. */
  datatype Partway = Partway(
    tracks: seq<Track>, used: seq<bool>, jumped: seq<bool>, done: set<nat>, feeder: map<nat, nat>)
  {
    predicate Sized() { |tracks| == |used| == |jumped| == MAX_TOUCH }
  }

  ghost predicate Partly(f: Frame, s: seq<Track>, m: seq<int>, p: Partway) {
    && f.Valid() && p.Sized() && |s| == |m| == MAX_TOUCH && (forall i | i in p.done :: i < MAX_TOUCH)
    && (forall i | 0 <= i < MAX_TOUCH :: -1 <= m[i] < |f.det|)
    && (forall i | 0 <= i < MAX_TOUCH ::
          p.tracks[i] == if i in p.done then AfterMatch(f.cfg, s[i], f.det, f.contacts, m[i]) else s[i])
    && (forall i | 0 <= i < MAX_TOUCH :: p.jumped[i] == (i in p.done && m[i] >= 0 && Jumps(f.cfg, s[i], f.det[m[i]])))
    && (forall j | 0 <= j < MAX_TOUCH :: p.used[j] <==> j in p.feeder)
    && (forall j | j in p.feeder :: p.feeder[j] in p.done && m[p.feeder[j]] == j && !p.jumped[p.feeder[j]])
    && (forall i | i in p.done && m[i] >= 0 && !p.jumped[i] :: m[i] in p.feeder)
  }

  /** Sealed. */
  ghost predicate PartlyFollowed(f: Frame, s: seq<Track>, m: seq<int>, p: Partway) {
    f.Valid() && p.Sized() && |m| == MAX_TOUCH && forall o {:trigger Open(o)} :: Open(o) ==> Partly(f, s, m, p)
  }

  ghost function NextPartway(f: Frame, m: seq<int>, p: Partway, ti: nat): Partway
    requires f.Valid() && p.Sized() && |m| == MAX_TOUCH && ti < MAX_TOUCH && -1 <= m[ti] < |f.det|
  {
    var q := p.(done := p.done + {ti});
    if m[ti] < 0 then q
    else if Jumps(f.cfg, p.tracks[ti], f.det[m[ti]]) then
      q.(tracks := p.tracks[ti := EMPTY], jumped := p.jumped[ti := true])
    else
      q.(tracks := p.tracks[ti := Continued(f.cfg, p.tracks[ti], f.det[m[ti]], f.contacts, m[ti])],
         used := p.used[m[ti] := true], feeder := p.feeder[m[ti] := ti])
  }

  lemma FollowStep(f: Frame, s: seq<Track>, m: seq<int>, p: Partway, ti: nat)
    requires PartlyFollowed(f, s, m, p) && ti < MAX_TOUCH && ti !in p.done && -1 <= m[ti] < |f.det|
    ensures PartlyFollowed(f, s, m, NextPartway(f, m, p, ti))
  {
    assert Open(0);
  }

  lemma AllFollowed(f: Frame, s: seq<Track>, m: seq<int>, p: Partway)
    requires PartlyFollowed(f, s, m, p) && forall i | 0 <= i < MAX_TOUCH && m[i] >= 0 :: i in p.done
    ensures Followed(f, s, m, p.tracks, p.used, p.jumped)
  {
    assert Open(0);
    forall j | 0 <= j < MAX_TOUCH && p.used[j] ensures exists i :: 0 <= i < MAX_TOUCH && m[i] == j && !p.jumped[i] {
      assert m[p.feeder[j]] == j;
    }
  }

  /** After unmatched slots were aged. */
  ghost predicate AgedFrom(f: Frame, touchActive: bool, s1: seq<Track>, matches: seq<int>, kept: seq<Track>)
    requires f.Valid()
  {
    && |s1| == |matches| == |kept| == MAX_TOUCH
    && forall i | 0 <= i < MAX_TOUCH ::
         kept[i] == if s1[i].active && matches[i] < 0 then Aged(f.cfg, touchActive, s1[i]) else s1[i]
  }

  lemma MatchesInRange(active: seq<nat>, g: seq<int>, matches: seq<int>, d: nat)
    requires BySlot(active, g, matches) && OneToOne(g, |active|, d)
    ensures forall i | 0 <= i < MAX_TOUCH :: -1 <= matches[i] < d && (matches[i] >= 0 ==> i in active)
  {
    forall i | 0 <= i < MAX_TOUCH ensures -1 <= matches[i] < d && (matches[i] >= 0 ==> i in active) {
      if i in active {
        var r :| 0 <= r < |active| && active[r] == i;
      }
    }
  }

  lemma MatchesDistinct(active: seq<nat>, g: seq<int>, matches: seq<int>, d: nat)
    requires BySlot(active, g, matches) && OneToOne(g, |active|, d) && Distinct(active)
    ensures forall i, k | 0 <= i < k < MAX_TOUCH && matches[i] >= 0 :: matches[i] != matches[k]
  {
    forall i, k | 0 <= i < k < MAX_TOUCH && matches[i] >= 0 ensures matches[i] != matches[k] {
      if matches[k] >= 0 {
        var r :| 0 <= r < |active| && active[r] == i;
        var q :| 0 <= q < |active| && active[q] == k;
        assert r != q && g[r] == matches[i] && g[q] == matches[k];
      }
    }
  }

  lemma PhasesTracked(u: Setup, s: seq<Track>, s1: seq<Track>, g: seq<int>)
    requires u.Valid() && ActiveList(s, u.active) && BySlot(u.active, g, u.matches)
    requires OneToOne(g, |u.active|, |u.f.det|)
    requires Followed(u.f, s, u.matches, s1, u.used, u.jumped) && AgedFrom(u.f, u.touchActive, s1, u.matches, u.kept)
    ensures var given := GiveAll(u, |u.f.det|);
      Tracked(u.f, u.touchActive, u.fast, s, Choice(u.active, u.matches, given.born, given.deferred), given.tracks)
  {
    var n := |u.f.det|;
    var given := GiveAll(u, n);
    var c := Choice(u.active, u.matches, given.born, given.deferred);
    MatchesInRange(u.active, g, u.matches, n);
    MatchesDistinct(u.active, g, u.matches, n);
    GivenFresh(u, n);
    GivenComplete(u, n);
    forall i | 0 <= i < MAX_TOUCH ensures -1 <= c.born[i] < n {
      assert SlotFresh(u, given, n, i);
    }
    forall i | 0 <= i < MAX_TOUCH
      ensures u.kept[i] == Kept(u.f.cfg, u.touchActive, s[i], u.f.det, u.f.contacts, u.matches[i])
      ensures u.jumped[i] == Jumped(u.f, s, c, i)
    {
    }
    forall i | 0 <= i < MAX_TOUCH ensures given.tracks[i] == SlotAfter(u.f, u.touchActive, u.fast, s, c, i) {
      assert SlotFresh(u, given, n, i);
    }
    AllFair(u, s, given, c);
    NobodyIsTurnedAway(u, s, given, c);
  }

  /** What the set-up tells about slots s, carried on as s1 before aging, under the matches g. Sealed. */
  ghost predicate Carried(u: Setup, s: seq<Track>, s1: seq<Track>, g: seq<int>)
    requires u.Valid()
  {
    forall o {:trigger Open(o)} :: Open(o) ==>
      && PriorPeaks(s, u.prior) && ActiveList(s, u.active) && BySlot(u.active, g, u.matches)
      && Sound(u.f.cfg, s, u.active, u.f.det, u.f.contacts, g) && BestOrGreedy(u.f, s, u.active, g)
      && Followed(u.f, s, u.matches, s1, u.used, u.jumped) && AgedFrom(u.f, u.touchActive, s1, u.matches, u.kept)
  }

  /** The phases of one call add up. */
  lemma Assembled(u: Setup, s: seq<Track>, s1: seq<Track>, g: seq<int>, table: C.Table) returns (x: Passage)
    requires u.Valid() && u.f.finger != Absent && u.table == C.Unseen(table) && Carried(u, s, s1, g)
    ensures x.u == u && x.f == u.f && x.mid == GiveAll(u, |u.f.det|).tracks
    ensures x.c.deferred == GiveAll(u, |u.f.det|).deferred
    ensures Moves(x, u.touchActive, u.fast, s, table, C.Swept(GiveAll(u, |u.f.det|).table))
  {
    assert Open(0);
    var given := GiveAll(u, |u.f.det|);
    var log := GivenLog(u, |u.f.det|);
    x := Passage(u.f, Choice(u.active, u.matches, given.born, given.deferred), given.tracks, g, log, u);
    MatchesInRange(u.active, g, u.matches, |u.f.det|);
    SetupDescribes(u, s, s1);
    PhasesTracked(u, s, s1, g);
    assert MovesWell(x, u.touchActive, u.fast, s, table, C.Swept(given.table));
  }

  lemma AllFair(u: Setup, s: seq<Track>, given: Giving, c: Choice)
    requires u.Valid() && |s| == MAX_TOUCH && FreshOnly(u, given, |u.f.det|) && ChoiceFits(c, |u.f.det|)
    requires c == Choice(u.active, u.matches, given.born, given.deferred)
    requires forall i, k | 0 <= i < k < MAX_TOUCH && u.matches[i] >= 0 :: u.matches[i] != u.matches[k]
    requires forall i | 0 <= i < MAX_TOUCH ::
      && u.kept[i] == Kept(u.f.cfg, u.touchActive, s[i], u.f.det, u.f.contacts, u.matches[i])
      && u.jumped[i] == Jumped(u.f, s, c, i)
    requires forall j | 0 <= j < MAX_TOUCH ::
      u.used[j] <==> exists i :: 0 <= i < MAX_TOUCH && u.matches[i] == j && !u.jumped[i]
    ensures FairlyFed(u.f, u.touchActive, s, c)
  {
    forall i | 0 <= i < MAX_TOUCH && c.born[i] >= 0
      ensures Regular(u.f.contacts, c.born[i]) && c.born[i] !in c.deferred
      ensures !Kept(u.f.cfg, u.touchActive, s[i], u.f.det, u.f.contacts, c.matches[i]).active && !Jumped(u.f, s, c, i)
      ensures forall k | 0 <= k < MAX_TOUCH :: !Feeds(u.f, s, c, k, c.born[i])
    {
      assert SlotFresh(u, given, |u.f.det|, i);
      assert !u.used[c.born[i]];
    }
  }

  lemma UsedIsSettled(u: Setup, s: seq<Track>, c: Choice, j: nat)
    requires u.Valid() && |s| == MAX_TOUCH && ChoiceFits(c, |u.f.det|) && c.matches == u.matches && j < |u.f.det|
    requires forall i | 0 <= i < MAX_TOUCH :: u.jumped[i] == Jumped(u.f, s, c, i)
    requires u.used[j] <==> exists i :: 0 <= i < MAX_TOUCH && u.matches[i] == j && !u.jumped[i]
    ensures u.used[j] ==> Settled(u.f, s, c, j)
  {
    if u.used[j] {
      var i :| 0 <= i < MAX_TOUCH && u.matches[i] == j && !u.jumped[i];
      assert Feeds(u.f, s, c, i, j);
    }
  }

  lemma NobodyIsTurnedAway(u: Setup, s: seq<Track>, given: Giving, c: Choice)
    requires u.Valid() && |s| == MAX_TOUCH && FreshOnly(u, given, |u.f.det|) && ChoiceFits(c, |u.f.det|)
    requires NobodyLeft(u, given, |u.f.det|) && c == Choice(u.active, u.matches, given.born, given.deferred)
    requires forall i | 0 <= i < MAX_TOUCH ::
      && u.kept[i] == Kept(u.f.cfg, u.touchActive, s[i], u.f.det, u.f.contacts, u.matches[i])
      && u.jumped[i] == Jumped(u.f, s, c, i)
    requires forall j | 0 <= j < MAX_TOUCH ::
      u.used[j] <==> exists i :: 0 <= i < MAX_TOUCH && u.matches[i] == j && !u.jumped[i]
    ensures NobodyTurnedAway(u.f, u.touchActive, s, c)
  {
    forall j, i | 0 <= j < |u.f.det| && !Settled(u.f, s, c, j) && 0 <= i < MAX_TOUCH
      ensures Occupied(u.f, u.touchActive, s, c, i)
    {
      UsedIsSettled(u, s, c, j);
      assert !HasHome(u, given, j);
      assert Full(u, given);
      assert SlotFresh(u, given, |u.f.det|, i);
    }
  }

  lemma BestIsSound(f: Frame, s: seq<Track>, active: seq<nat>, g: seq<int>)
    requires f.Valid() && f.cfg.hungarian && forall r | 0 <= r < |active| :: active[r] < |s|
    requires var c := Table(f.cfg, s, active, f.det, f.contacts);
      && IsProblem(c, |active|, |f.det|, Unmatched(f.cfg)) && IsCheapest(c, |active|, |f.det|, Unmatched(f.cfg), g)
      && forall r | 0 <= r < |active| && g[r] >= 0 :: c[r][g[r]] <= Unmatched(f.cfg)
    ensures Sound(f.cfg, s, active, f.det, f.contacts, g) && BestOrGreedy(f, s, active, g)
  {
    PricedIsSound(f.cfg, s, active, f.det, f.contacts, g);
  }

  lemma GreedyIsSound(f: Frame, s: seq<Track>, active: seq<nat>, g: seq<int>)
    requires f.Valid() && !f.cfg.hungarian && forall r | 0 <= r < |active| :: active[r] < |s|
    requires IsGreedy(Table(f.cfg, s, active, f.det, f.contacts), g, |active|, |f.det|)
    ensures Sound(f.cfg, s, active, f.det, f.contacts, g) && BestOrGreedy(f, s, active, g)
  {
    var c := Table(f.cfg, s, active, f.det, f.contacts);
    GreedyIsOneToOne(c, g, |active|, |f.det|);
    forall r | 0 <= r < |active| && g[r] >= 0 ensures c[r][g[r]] < INF {
      assert GreedyChoice(c, g, |f.det|, r);
    }
    PricedIsSound(f.cfg, s, active, f.det, f.contacts, g);
  }

  lemma GreedyExtends(c: Costs, g: seq<int>, d: nat, i: nat, choice: int)
    requires |g| == i < |c| && d <= |c[i]| && -1 <= choice < d
    requires forall r | 0 <= r < i :: d <= |c[r]| && GreedyChoice(c, g, d, r)
    requires choice >= 0 ==> c[i][choice] < INF && !Taken(g, i, choice)
    requires forall j | 0 <= j < d && !Taken(g, i, j) && c[i][j] < INF ::
      choice >= 0 && (c[i][choice] < c[i][j] || (c[i][choice] == c[i][j] && choice <= j))
    ensures forall r | 0 <= r <= i :: GreedyChoice(c, g + [choice], d, r)
    ensures forall j | 0 <= j < d :: Taken(g + [choice], i + 1, j) <==> Taken(g, i, j) || choice == j
  {
    var h := g + [choice];
    forall r, j | 0 <= r <= i ensures Taken(h, r, j) <==> Taken(g, r, j) {
      if Taken(g, r, j) {
        var s :| 0 <= s < r && g[s] == j;
        assert h[s] == j;
      }
    }
    assert h[i] == choice && Taken(h, i + 1, choice);
    forall j | 0 <= j < d && Taken(g, i, j) ensures Taken(h, i + 1, j) {
      var s :| 0 <= s < i && g[s] == j;
      assert h[s] == j;
    }
    forall r | 0 <= r <= i ensures GreedyChoice(c, h, d, r) {
      if r < i {
        assert GreedyChoice(c, g, d, r);
      }
    }
  }

  /** The optimal matcher is cheapest of all; the other one is greedy, and never cheaper. */
  ghost predicate BestOrGreedy(f: Frame, s: seq<Track>, active: seq<nat>, g: seq<int>)
    requires f.Valid() && forall r | 0 <= r < |active| :: active[r] < |s|
  {
    var c, n, d, unmatched := Table(f.cfg, s, active, f.det, f.contacts), |active|, |f.det|, Unmatched(f.cfg);
    if f.cfg.hungarian then IsProblem(c, n, d, unmatched) && IsCheapest(c, n, d, unmatched, g)
    else IsGreedy(c, g, n, d)
  }
}
