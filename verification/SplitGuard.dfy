/** Holding back a detection that may be the second lobe of a finger already reported. */
module SplitGuard {
  import opened Machine
  import opened Arithmetic
  import opened Tracks
  import opened Assigner
  import opened Competition

  /** What the guard sees while new slots are created. `matches` and `prior` go by slot: the
      detection each slot was given, and the peak it followed before this frame. */
  datatype Scene = Scene(
    cfg: Config, det: seq<Pos>, contacts: seq<Contact>, tracks: seq<Track>,
    active: seq<nat>, matches: seq<int>, prior: seq<u8>)
  {
    predicate Valid() {
      && cfg.Valid() && |tracks| == |matches| == |prior| == MAX_TOUCH && |active| <= MAX_TOUCH
      && (forall i | 0 <= i < |active| :: active[i] < MAX_TOUCH)
      && (forall i | 0 <= i < MAX_TOUCH :: -1 <= matches[i] < |det|)
    }
  }

  /** Reported tracks among the first k active ones. */
  function Reported(s: Scene, k: nat): (r: nat)
    requires s.Valid() && k <= |s.active|
    ensures r <= k
  {
    if k == 0 then 0 else Reported(s, k - 1) + if s.tracks[s.active[k - 1]].reported then 1 else 0
  }

  /** How detection j relates to the i-th active track. */
  datatype Relation = Relation(sameZone: bool, handoff: bool, continuing: bool)
  {
    predicate Residual() { handoff || continuing }
    predicate Close() { sameZone || Residual() }
  }

  /** The track was reported, and continues with another detection that has a contact. */
  predicate Opposes(s: Scene, j: nat, i: nat)
    requires s.Valid() && j < |s.det| && i < |s.active|
  {
    var ti := s.active[i];
    0 <= s.matches[ti] < |s.contacts| && s.tracks[ti].reported && s.matches[ti] != j
  }

  function RelationTo(s: Scene, j: nat, i: nat, table: Table): Relation
    requires s.Valid() && j < |s.det| && j < |s.contacts| && i < |s.active| && Opposes(s, j, i)
  {
    var ti := s.active[i];
    var mine, theirs := s.contacts[j], s.contacts[s.matches[ti]];
    var k := Find(table, mine.peakId, 0);
    Relation(
      mine.zone == theirs.zone,
      s.prior[ti] != 0 && mine.peakId == s.prior[ti] && theirs.peakId != 0 && theirs.peakId != s.prior[ti],
      k < |table| && table[k].residual)
  }

  function FramesFor(cfg: Config, r: Relation): nat {
    if r.Close() then cfg.splitFrames else cfg.crossFrames
  }

  /** Detection j competes with the i-th active track. */
  predicate Competes(s: Scene, j: nat, i: nat, reported: nat, table: Table)
    requires s.Valid() && j < |s.det| && j < |s.contacts| && i < |s.active|
  {
    Opposes(s, j, i) &&
    var r := RelationTo(s, j, i, table);
    var a, b := s.det[j], s.det[s.matches[s.active[i]]];
    && (r.Close() || reported == 1)
    && FramesFor(s.cfg, r) > 1
    && (r.Residual() || Dist2(a.x, a.y, b.x, b.y) <= Max(if r.sameZone then s.cfg.splitDist2 else s.cfg.crossDist2, 1))
  }

  datatype Verdict = Verdict(table: Table, deferred: bool)

  /** Looks at the active tracks from the i-th on; the first one young enough holds j back. */
  function Judge(s: Scene, j: nat, reported: nat, i: nat, table: Table): Verdict
    requires s.Valid() && j < |s.det| && j < |s.contacts| && i <= |s.active|
    decreases |s.active| - i
  {
    if i == |s.active| then Verdict(table, false)
    else if !Competes(s, j, i, reported, table) then Judge(s, j, reported, i + 1, table)
    else
      var r := RelationTo(s, j, i, table);
      var id := s.contacts[j].peakId;
      var after := Touched(table, Touch(id, r.handoff));
      if AgeSeen(table, id) < FramesFor(s.cfg, r) then Verdict(after, true)
      else Judge(s, j, reported, i + 1, after)
  }

  /** Detection j shares a zone with the continuation of some reported track, or was left behind by
      a handoff, in this frame or an earlier one. */
  ghost predicate IsClose(s: Scene, j: nat, table: Table)
    requires s.Valid() && j < |s.det| && j < |s.contacts|
  {
    exists i :: 0 <= i < |s.active| && Opposes(s, j, i) && RelationTo(s, j, i, table).Close()
  }

  /** The frames of confirmation that detection j has to serve. */
  ghost function LimitFor(s: Scene, j: nat, table: Table): nat
    requires s.Valid() && j < |s.det| && j < |s.contacts|
  {
    if IsClose(s, j, table) then s.cfg.splitFrames else s.cfg.crossFrames
  }

  lemma {:induction false} TwoReported(s: Scene, i: nat, k: nat, n: nat)
    requires s.Valid() && i < k < n <= |s.active| && s.tracks[s.active[i]].reported && s.tracks[s.active[k]].reported
    ensures Reported(s, n) >= 2
  {
    if n - 1 > k {
      TwoReported(s, i, k, n - 1);
    } else {
      OneReported(s, i, k);
    }
  }

  lemma {:induction false} OneReported(s: Scene, i: nat, n: nat)
    requires s.Valid() && i < n <= |s.active| && s.tracks[s.active[i]].reported
    ensures Reported(s, n) >= 1
  {
    if i < n - 1 {
      OneReported(s, i, n - 1);
    }
  }

  /** The setting the i-th active track applies is the same for every track that counts. */
  lemma LimitIsApplied(s: Scene, j: nat, i: nat, table: Table)
    requires s.Valid() && j < |s.det| && j < |s.contacts| && i < |s.active|
    requires Competes(s, j, i, Reported(s, |s.active|), table)
    ensures FramesFor(s.cfg, RelationTo(s, j, i, table)) == LimitFor(s, j, table)
  {
    if !RelationTo(s, j, i, table).Close() && IsClose(s, j, table) {
      var k :| 0 <= k < |s.active| && Opposes(s, j, k) && RelationTo(s, j, k, table).Close();
      TwoReported(s, Min(i, k), Max(i, k), |s.active|);
    }
  }

  /** A look at j does not change which setting applies to it. */
  lemma LimitStays(s: Scene, j: nat, i: nat, table: Table)
    requires s.Valid() && j < |s.det| && j < |s.contacts| && i < |s.active| && Opposes(s, j, i)
    ensures var after := Touched(table, Touch(s.contacts[j].peakId, RelationTo(s, j, i, table).handoff));
      LimitFor(s, j, after) == LimitFor(s, j, table)
  {
    var id := s.contacts[j].peakId;
    var handoff := RelationTo(s, j, i, table).handoff;
    var after := Touched(table, Touch(id, handoff));
    ResidualAfter(table, id, handoff);
    if k :| 0 <= k < |s.active| && Opposes(s, j, k) && RelationTo(s, j, k, table).Close() {
      assert RelationTo(s, j, k, after).Close();
    }
    if k :| 0 <= k < |s.active| && Opposes(s, j, k) && RelationTo(s, j, k, after).Close() {
      assert RelationTo(s, j, k, table).Close() || (handoff && RelationTo(s, j, i, table).Close());
    }
  }

  lemma ResidualAfter(table: Table, id: u8, handoff: bool)
    ensures var k, after := Find(table, id, 0), Touched(table, Touch(id, handoff));
      var k' := Find(after, id, 0);
      && (k < |table| && table[k].residual ==> k' < |after| && after[k'].residual)
      && (k' < |after| && after[k'].residual ==> handoff || (k < |table| && table[k].residual))
  {
    var k, free := Find(table, id, 0), FirstFree(table, 0);
    if k < |table| {
      FindIs(Touched(table, Touch(id, handoff)), id, k);
    } else if id != 0 && free < |table| {
      FindIs(Touched(table, Touch(id, handoff)), id, free);
    }
  }

  /** However many tracks it competes with, j counts once, and is held back only while younger than
      the setting that applies to it. */
  lemma {:induction false} JudgeLooksOnce(s: Scene, j: nat, reported: nat, i: nat, table: Table)
    returns (looks: seq<Touch>)
    requires s.Valid() && j < |s.det| && j < |s.contacts| && i <= |s.active| && reported == Reported(s, |s.active|)
    ensures |looks| <= 1 && (|looks| == 1 ==> looks[0].id == s.contacts[j].peakId)
    ensures Judge(s, j, reported, i, table).table == Played(table, looks)
    ensures Judge(s, j, reported, i, table).deferred ==>
      |looks| == 1 && AgeSeen(table, s.contacts[j].peakId) < LimitFor(s, j, table)
    decreases |s.active| - i
  {
    looks := [];
    if i < |s.active| {
      if !Competes(s, j, i, reported, table) {
        looks := JudgeLooksOnce(s, j, reported, i + 1, table);
      } else {
        var r, id := RelationTo(s, j, i, table), s.contacts[j].peakId;
        var after := Touched(table, Touch(id, r.handoff));
        looks := [Touch(id, r.handoff)];
        PlayedOne(table, looks[0]);
        LimitIsApplied(s, j, i, table);
        if AgeSeen(table, id) >= FramesFor(s.cfg, r) {
          var later := JudgeLooksOnce(s, j, reported, i + 1, after);
          looks := LookedAgain(s, j, i, table, later);
        }
      }
    }
  }

  /** A further look at j in the same frame changes nothing but the handoff mark. */
  lemma LookedAgain(s: Scene, j: nat, i: nat, table: Table, later: seq<Touch>) returns (looks: seq<Touch>)
    requires s.Valid() && j < |s.det| && j < |s.contacts| && i < |s.active| && Opposes(s, j, i)
    requires |later| <= 1 && (|later| == 1 ==> later[0].id == s.contacts[j].peakId)
    ensures |looks| == 1 && looks[0].id == s.contacts[j].peakId
    ensures var after := Touched(table, Touch(s.contacts[j].peakId, RelationTo(s, j, i, table).handoff));
      && Played(after, later) == Played(table, looks) && LimitFor(s, j, after) == LimitFor(s, j, table)
      && AgeSeen(after, s.contacts[j].peakId) == AgeSeen(table, s.contacts[j].peakId)
  {
    var id, handoff := s.contacts[j].peakId, RelationTo(s, j, i, table).handoff;
    var after := Touched(table, Touch(id, handoff));
    LimitStays(s, j, i, table);
    looks := [Touch(id, handoff)];
    PlayedOne(table, looks[0]);
    TouchedTwice(table, id, handoff, false);
    if |later| == 1 {
      assert later == [later[0]];
      PlayedOne(after, later[0]);
      TouchedTwice(table, id, handoff, later[0].residual);
      looks := [Touch(id, handoff || later[0].residual)];
      PlayedOne(table, looks[0]);
    }
  }

  lemma PlayedOne(table: Table, t: Touch)
    ensures Played(table, [t]) == Touched(table, t)
  {
    assert [t][..0] == [];
    assert Played(table, []) == table;
  }

  // ----- over whole frames

  /** The looks of one frame, which contact each was taken at, the confirmation setting that applied
      to it, and who was held back. */
  datatype Log = Log(touches: seq<Touch>, who: seq<nat>, limits: seq<nat>, deferred: set<nat>)

  /** Every contact is looked at once at most, in order, and whoever is held back was seen young. */
  ghost predicate LogFits(start: Table, contacts: seq<Contact>, log: Log) {
    && |log.who| == |log.touches| == |log.limits|
    && (forall p, r | 0 <= p < r < |log.who| :: log.who[p] < log.who[r])
    && (forall p | 0 <= p < |log.who| :: log.who[p] < |contacts| && log.touches[p].id == contacts[log.who[p]].peakId)
    && (forall j | j in log.deferred :: j < |contacts| && SeenYoung(start, contacts[j].peakId, j, log))
  }

  ghost predicate SeenYoung(start: Table, id: u8, j: nat, log: Log)
    requires |log.who| == |log.touches| == |log.limits|
  {
    exists p :: 0 <= p < |log.who| && log.who[p] == j && AgeSeen(Played(start, log.touches[..p]), id) < log.limits[p]
  }

  /** One frame of the guard. */
  ghost predicate GuardStep(table: Table, contacts: seq<Contact>, log: Log, table': Table) {
    table' == AfterFrame(table, log.touches) && LogFits(Unseen(table), contacts, log)
  }

  /** Peaks have pairwise different identities, and none is 0. */
  ghost predicate PeakIdsDistinct(contacts: seq<Contact>) {
    && (forall i | 0 <= i < |contacts| :: contacts[i].peakId != 0)
    && (forall i, k | 0 <= i < k < |contacts| :: contacts[i].peakId != contacts[k].peakId)
  }

  /** No setting above c was applied to contact j. */
  ghost predicate LimitedTo(log: Log, j: nat, c: nat) {
    |log.limits| == |log.who| && forall p | 0 <= p < |log.who| && log.who[p] == j :: log.limits[p] <= c
  }

  lemma DeferredIsHeldBack(table: Table, contacts: seq<Contact>, log: Log, c: nat, j: nat) returns (p: nat)
    requires LogFits(Unseen(table), contacts, log) && PeakIdsDistinct(contacts) && j in log.deferred
    requires LimitedTo(log, j, c)
    ensures j < |contacts| && HeldBack(table, log.touches, p, contacts[j].peakId, c)
  {
    assert SeenYoung(Unseen(table), contacts[j].peakId, j, log);
    p :| 0 <= p < |log.who| && log.who[p] == j
      && AgeSeen(Played(Unseen(table), log.touches[..p]), contacts[j].peakId) < log.limits[p];
    forall i | 0 <= i < p ensures log.touches[i].id != contacts[j].peakId {
      assert log.who[i] < log.who[p];
    }
  }

  /** A frame, and in it the contact of the peak that is followed. */
  datatype GuardMoment = GuardMoment(contacts: seq<Contact>, log: Log, j: nat)

  ghost predicate IsGuardRun(tables: seq<Table>, moments: seq<GuardMoment>, q: u8, c: nat, m: nat) {
    && |tables| == |moments| + 1 && |tables[0]| == TABLE && IdsDistinct(tables[0])
    && forall i | 0 <= i < |moments| :: FollowsPeak(tables[i], moments[i], q, c, m, tables[i + 1])
  }

  ghost predicate FollowsPeak(table: Table, now: GuardMoment, q: u8, c: nat, m: nat, table': Table) {
    && GuardStep(table, now.contacts, now.log, table') && LimitedTo(now.log, now.j, c) && |now.log.touches| <= m
    && PeakIdsDistinct(now.contacts) && now.j < |now.contacts| && now.contacts[now.j].peakId == q
  }

  /** A second contact that keeps its peak identity is held back for at most m * (c - 1) frames in a
      row if at most m contacts are looked at in each: c - 1 frames when it is the only one. Here c
      is the confirmation setting applied to that contact, and the table may hold anything at first. */
  lemma DeferralIsBounded(tables: seq<Table>, moments: seq<GuardMoment>, q: u8, c: nat, m: nat)
    requires IsGuardRun(tables, moments, q, c, m) && q != 0 && 1 <= m <= TABLE && 1 <= c <= 16
    requires forall i | 0 <= i < |moments| :: moments[i].j in moments[i].log.deferred
    ensures |moments| <= m * (c - 1)
  {
    var frames := seq(|moments|, i requires 0 <= i < |moments| => moments[i].log.touches);
    var at := seq(|moments|, i requires 0 <= i < |moments| => 0);
    for n := 0 to |moments|
      invariant |at| == |moments| && forall i | 0 <= i < n :: HeldBack(tables[i], frames[i], at[i], q, c)
    {
      var now := moments[n];
      assert FollowsPeak(tables[n], now, q, c, m, tables[n + 1]);
      var p := DeferredIsHeldBack(tables[n], now.contacts, now.log, c, now.j);
      at := at[n := p];
    }
    forall i | 0 <= i < |frames| ensures |frames[i]| <= m && tables[i + 1] == AfterFrame(tables[i], frames[i]) {
      assert FollowsPeak(tables[i], moments[i], q, c, m, tables[i + 1]);
    }
    HoldingIsBounded(tables, frames, at, q, c, m);
  }

  class Guard {
    const table: array<Entry>

    constructor ()
      ensures Valid() && fresh(table) && table[..] == seq(TABLE, _ => NONE)
    {
      table := new Entry[TABLE](_ => NONE);
    }

    ghost predicate Valid() { table.Length == TABLE }

    method Clear()
      requires Valid()
      modifies table
      ensures table[..] == seq(TABLE, _ => NONE)
    {
      for k := 0 to TABLE
        invariant forall i | 0 <= i < k :: table[i] == NONE
      {
        table[k] := NONE;
      }
    }

    method BeginFrame()
      requires Valid()
      modifies table
      ensures table[..] == Unseen(old(table[..]))
    {
      for k := 0 to TABLE
        invariant forall i | 0 <= i < TABLE ::
          table[i] == if i < k then old(table[i]).(seen := false) else old(table[i])
      {
        table[k] := table[k].(seen := false);
      }
    }

    method EndFrame()
      requires Valid()
      modifies table
      ensures table[..] == Swept(old(table[..]))
    {
      for k := 0 to TABLE
        invariant forall i | 0 <= i < TABLE :: table[i] == if i < k && !old(table[i]).seen then NONE else old(table[i])
      {
        if !table[k].seen {
          table[k] := NONE;
        }
      }
    }

    /** Ages the entry of a competitor, or makes one where there is room. */
    method Look(id: u8, residual: bool) returns (age: nat)
      requires Valid()
      modifies table
      ensures table[..] == Touched(old(table[..]), Touch(id, residual))
      ensures age == AgeSeen(old(table[..]), id)
    {
      age := 1;
      var free: int := -1;
      var k := 0;
      ghost var was := table[..];
      while k < TABLE
        invariant k <= TABLE && table[..] == was
        invariant Find(was, id, 0) == Find(was, id, k)
        invariant FirstFree(was, 0) == if free >= 0 then free else FirstFree(was, k)
        invariant free < TABLE
      {
        if table[k].peakId == id && id != 0 {
          table[k] := Aged(table[k], residual);
          return table[k].age;
        }
        if free < 0 && (table[k].peakId == 0 || !table[k].seen) {
          free := k;
        }
        k := k + 1;
      }
      if id != 0 && free >= 0 {
        table[free] := Entry(id, 1, true, residual);
      }
    }

    /** Whether an earlier frame left this competitor behind in a handoff. */
    method IsResidual(id: u8) returns (r: bool)
      requires Valid()
      ensures r == (Find(table[..], id, 0) < TABLE && table[Find(table[..], id, 0)].residual)
    {
      for k := 0 to TABLE
        invariant Find(table[..], id, 0) == Find(table[..], id, k)
      {
        if id != 0 && table[k].peakId == id {
          return table[k].residual;
        }
      }
      return false;
    }

    method CountReported(s: Scene) returns (n: nat)
      requires s.Valid()
      ensures n == Reported(s, |s.active|)
    {
      n := 0;
      for i := 0 to |s.active|
        invariant n == Reported(s, i)
      {
        if s.tracks[s.active[i]].reported {
          n := n + 1;
        }
      }
    }

    /** Whether detection j competes with the i-th active track, for how many frames, and whether a
        handoff left it behind. */
    method Compare(s: Scene, j: nat, i: nat, reported: nat) returns (competes: bool, frames: nat, handoff: bool)
      requires Valid() && s.Valid() && j < |s.det| && j < |s.contacts| && i < |s.active|
      ensures competes == Competes(s, j, i, reported, table[..])
      ensures competes ==>
        var r := RelationTo(s, j, i, table[..]); frames == FramesFor(s.cfg, r) && handoff == r.handoff
    {
      frames, handoff := 0, false;
      var ti := s.active[i];
      var di := s.matches[ti];
      if di < 0 || di >= |s.contacts| || !s.tracks[ti].reported || di == j {
        return false, 0, false;
      }
      var mine, theirs := s.contacts[j], s.contacts[di];
      var sameZone := mine.zone == theirs.zone;
      handoff := s.prior[ti] != 0 && mine.peakId == s.prior[ti] && theirs.peakId != 0 && theirs.peakId != s.prior[ti];
      var continuing := IsResidual(mine.peakId);
      if !handoff && !continuing && !sameZone && reported != 1 {
        return false, 0, false;
      }
      frames := if sameZone || handoff || continuing then s.cfg.splitFrames else s.cfg.crossFrames;
      var reach := if sameZone then s.cfg.splitDist2 else s.cfg.crossDist2;
      competes := frames > 1
        && (handoff || continuing || Dist2(s.det[j].x, s.det[j].y, s.det[di].x, s.det[di].y) <= Max(reach, 1));
    }

    /** Whether detection j is held back in this frame. */
    method IsUnconfirmedSplit(s: Scene, j: nat) returns (deferred: bool, ghost looks: seq<Touch>)
      requires Valid() && s.Valid() && j < |s.det|
      modifies table
      ensures j >= |s.contacts| ==> !deferred && looks == []
      ensures j < |s.contacts| ==>
        Verdict(table[..], deferred) == Judge(s, j, Reported(s, |s.active|), 0, old(table[..]))
      ensures table[..] == Played(old(table[..]), looks)
      ensures |looks| <= 1 && (|looks| == 1 ==> j < |s.contacts| && looks[0].id == s.contacts[j].peakId)
      ensures deferred ==>
        |looks| == 1 && AgeSeen(old(table[..]), s.contacts[j].peakId) < LimitFor(s, j, old(table[..]))
    {
      looks := [];
      if j >= |s.contacts| {
        return false, [];
      }
      var reported := CountReported(s);
      looks := JudgeLooksOnce(s, j, reported, 0, table[..]);
      ghost var verdict := Judge(s, j, reported, 0, table[..]);
      for i := 0 to |s.active|
        invariant Judge(s, j, reported, i, table[..]) == verdict
      {
        var competes, frames, handoff := Compare(s, j, i, reported);
        if competes {
          var age := Look(s.contacts[j].peakId, handoff);
          if age < frames {
            return true, looks;
          }
        }
      }
      deferred := false;
    }
  }
}
