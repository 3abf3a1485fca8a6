/** How long a second contact can be kept waiting for a slot, over whole frames of the tracker. */
module Admission {
  import opened Machine
  import opened Firmware
  import opened Sealing
  import opened Assigner
  import opened MatchCosts
  import opened SplitGuard
  import opened SlotGiving
  import opened SlotCycle
  import opened Tracker
  import C = Competition
  import L = SecondLobe

  /** Frames processed one after the other, each from what the one before left. */
  ghost predicate IsTrackerRun(states: seq<State>, tables: seq<C.Table>, xs: seq<Passage>) {
    && |states| == |tables| == |xs| + 1 && C.IdsDistinct(tables[0]) && |tables[0]| == C.TABLE
    && forall i | 0 <= i < |xs| :: Passes(xs[i], states[i], tables[i], states[i + 1], tables[i + 1])
  }

  /** In this frame detection j of peak q asks for a slot, under a confirmation setting of at most c,
      and at most m contacts are looked at. */
  ghost predicate Asks(x: Passage, j: nat, q: u8, c: nat, m: nat) {
    && x.f.finger != Absent && j < |x.f.det| && j < |x.f.contacts| && Regular(x.f.contacts, j)
    && x.f.contacts[j].peakId == q && PeakIdsDistinct(x.f.contacts) && |x.log.touches| <= m
    && x.u.Valid() && x.u.f == x.f && LimitAt(x.u, j) <= c
  }

  /** Detection j continues a slot or is given one, or there is none left. */
  ghost predicate Served(s: State, x: Passage, j: nat) {
    && x.f.Valid() && ChoiceFits(x.c, |x.f.det|) && |s.tracks| == MAX_TOUCH && j !in x.c.deferred
    && ((exists i :: 0 <= i < MAX_TOUCH && (x.c.born[i] == j || Feeds(x.f, s.tracks, x.c, i, j)))
        || forall i | 0 <= i < MAX_TOUCH :: Occupied(x.f, s.touchActive, s.tracks, x.c, i))
  }

  /** What a frame with a finger tells about a detection that asks. */
  lemma AskingFrame(x: Passage, j: nat, q: u8, c: nat, m: nat, s: State, table: C.Table, t: State, table': C.Table)
    requires Passes(x, s, table, t, table') && Asks(x, j, q, c, m)
    ensures FollowsPeak(table, GuardMoment(x.f.contacts, x.log, j), q, c, m, table')
    ensures j in x.log.deferred <==> j in x.c.deferred
    ensures j !in x.c.deferred ==> Served(s, x, j)
  {
    assert Open(0);
    assert MovesWell(x, s.touchActive, FastPending(x.f, s), s.tracks, table, table');
    if j !in x.c.deferred && (forall i | 0 <= i < MAX_TOUCH :: x.c.born[i] != j && !Feeds(x.f, s.tracks, x.c, i, j)) {
      assert !Settled(x.f, s.tracks, x.c, j);
    }
  }

  /** Among any m * (c - 1) + 1 frames in a row in which a contact that keeps its peak asks for a slot,
      there is one in which it gets one, unless all ten are taken. */
  lemma AdmittedInTime(states: seq<State>, tables: seq<C.Table>, xs: seq<Passage>, js: seq<nat>, q: u8, c: nat, m: nat)
    requires IsTrackerRun(states, tables, xs) && |js| == |xs| > m * (c - 1)
    requires q != 0 && 1 <= m <= C.TABLE && 1 <= c <= 16
    requires forall i | 0 <= i < |xs| :: Asks(xs[i], js[i], q, c, m)
    ensures exists i :: 0 <= i < |xs| && Served(states[i], xs[i], js[i])
  {
    forall i | 0 <= i < |xs|
      ensures FollowsPeak(tables[i], GuardMoment(xs[i].f.contacts, xs[i].log, js[i]), q, c, m, tables[i + 1])
      ensures js[i] in xs[i].log.deferred || Served(states[i], xs[i], js[i])
    {
      AskingFrame(xs[i], js[i], q, c, m, states[i], tables[i], states[i + 1], tables[i + 1]);
    }
    if forall i | 0 <= i < |xs| :: js[i] in xs[i].log.deferred {
      var moments := seq(|xs|, i requires 0 <= i < |xs| => GuardMoment(xs[i].f.contacts, xs[i].log, js[i]));
      DeferralIsBounded(tables, moments, q, c, m);
      assert false;
    }
  }

  // ----- who is held back in a frame

  lemma {:induction false} DeferredOnVerdict(u: Setup, j: nat, n: nat)
    requires u.Valid() && n <= |u.f.det|
    ensures j in GiveAll(u, n).deferred <==> j < n && !Skipped(u, j) && VerdictOn(u, GiveAll(u, j), j).deferred
  {
    if n > 0 {
      DeferredOnVerdict(u, j, n - 1);
      DeferredHere(u, GiveAll(u, n - 1), n - 1);
    }
  }

  lemma DeferredHere(u: Setup, g: Giving, j: nat)
    requires u.Valid() && g.Sized() && j < |u.f.det|
    ensures GiveOne(u, g, j).deferred ==
      g.deferred + if !Skipped(u, j) && VerdictOn(u, g, j).deferred then {j} else {}
  {
  }

  /** What the guard judges detection j by: the slots given so far, what each slot goes on with, and the peak
      each followed before. */
  ghost predicate SceneFor(x: Passage, s: State, j: nat, scene: Scene)
    requires x.f.Valid() && x.u.Valid() && x.u.f == x.f && j < |x.f.det| && |s.tracks| == MAX_TOUCH
  {
    && scene.Valid() && scene.cfg == x.f.cfg && scene.det == x.f.det && scene.contacts == x.f.contacts
    && scene.active == x.c.active && scene.matches == x.c.matches && scene.tracks == GiveAll(x.u, j).tracks
    && forall i | 0 <= i < MAX_TOUCH :: scene.prior[i] == if s.tracks[i].active then s.tracks[i].peakId else 0
  }

  /** A detection is held back in a frame exactly when it could have had a slot of its own, continues no other,
      may be a second lobe of a touch as things stand when its turn comes, and has not been seen long enough. */
  lemma HeldBackInFrame(x: Passage, s: State, table: C.Table, t: State, table': C.Table, j: nat) returns (scene: Scene)
    requires Passes(x, s, table, t, table') && C.IdsDistinct(table) && x.f.finger != Absent
    requires j < |x.f.det| && j < |x.f.contacts|
    ensures x.u.Valid() && x.u.f == x.f && |s.tracks| == MAX_TOUCH && SceneFor(x, s, j, scene)
    ensures ChoiceFits(x.c, |x.f.det|) && (j in x.c.deferred <==>
      && Regular(x.f.contacts, j) && (forall i | 0 <= i < MAX_TOUCH :: !Feeds(x.f, s.tracks, x.c, i, j))
      && exists i :: 0 <= i < |scene.active| && L.MayBeLobe(scene, j, i, GiveAll(x.u, j).table)
           && C.AgeSeen(GiveAll(x.u, j).table, x.f.contacts[j].peakId)
                < L.ToServe(scene, j, i, GiveAll(x.u, j).table))
  {
    FrameSetUp(x, s, table, t, table');
    scene := x.u.SceneWith(GiveAll(x.u, j).tracks);
    DeferredOnVerdict(x.u, j, |x.f.det|);
    HeldBackAtTurn(x.u, table, j, scene);
    NotFed(x, s, j);
  }

  /** The parts of a frame's promise this takes. */
  lemma FrameSetUp(x: Passage, s: State, table: C.Table, t: State, table': C.Table)
    requires Passes(x, s, table, t, table') && x.f.finger != Absent
    ensures x.f.Valid() && Describes(x.u, s.tracks) && x.u.f == x.f && x.u.table == C.Unseen(table)
    ensures x.u.matches == x.c.matches && x.u.active == x.c.active && x.c.deferred == GiveAll(x.u, |x.f.det|).deferred
    ensures ActiveList(s.tracks, x.c.active) && ChoiceFits(x.c, |x.f.det|)
    ensures forall i | 0 <= i < MAX_TOUCH && i !in x.c.active :: x.c.matches[i] == -1
  {
    assert Open(0);
    assert MovesWell(x, s.touchActive, FastPending(x.f, s), s.tracks, table, table');
  }

  lemma HeldBackAtTurn(u: Setup, table: C.Table, j: nat, scene: Scene)
    requires u.Valid() && j < |u.f.det| && j < |u.f.contacts| && C.IdsDistinct(table) && u.table == C.Unseen(table)
    requires scene == u.SceneWith(GiveAll(u, j).tracks)
    ensures VerdictOn(u, GiveAll(u, j), j).deferred <==>
      exists i :: 0 <= i < |scene.active| && L.MayBeLobe(scene, j, i, GiveAll(u, j).table)
        && C.AgeSeen(GiveAll(u, j).table, u.f.contacts[j].peakId) < L.ToServe(scene, j, i, GiveAll(u, j).table)
  {
    var log := GivenLog(u, j);
    C.FrameTidy(table, log.touches);
    C.PlayedTidy(C.Unseen(table), log.touches);
    L.HeldBackExactlyWhen(scene, j, GiveAll(u, j).table);
  }

  lemma NotFed(x: Passage, s: State, j: nat)
    requires x.f.Valid() && j < |x.f.det| && |s.tracks| == MAX_TOUCH && ChoiceFits(x.c, |x.f.det|)
    requires Describes(x.u, s.tracks) && x.u.f == x.f && x.u.matches == x.c.matches && x.u.active == x.c.active
    requires ActiveList(s.tracks, x.c.active)
    requires forall i | 0 <= i < MAX_TOUCH && i !in x.c.active :: x.c.matches[i] == -1
    ensures x.u.used[j] <==> exists i :: 0 <= i < MAX_TOUCH && Feeds(x.f, s.tracks, x.c, i, j)
  {
    if i :| 0 <= i < MAX_TOUCH && x.u.matches[i] == j && !x.u.jumped[i] {
      assert Feeds(x.f, s.tracks, x.c, i, j);
    }
  }
}
