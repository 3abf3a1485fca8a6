/** Giving new slots to the detections nothing continued with, one detection after the other. */
module SlotGiving {
  import opened Machine
  import opened Sealing
  import opened Tracks
  import opened Assigner
  import opened MatchCosts
  import opened SlotCycle
  import opened SplitGuard
  import opened Competition

  /** What is fixed while slots are given out. By slot: `matches`, `prior` peak, `jumped`, and the
      slots as kept so far. By detection: `used`. */
  datatype Setup = Setup(
    f: Frame, touchActive: bool, fast: bool, active: seq<nat>, matches: seq<int>, prior: seq<u8>,
    used: seq<bool>, jumped: seq<bool>, kept: seq<Track>, table: Table)
  {
    predicate Valid() {
      && f.Valid() && |active| <= MAX_TOUCH && (forall i | 0 <= i < |active| :: active[i] < MAX_TOUCH)
      && |matches| == |prior| == |used| == |jumped| == |kept| == MAX_TOUCH
      && (forall i | 0 <= i < MAX_TOUCH :: -1 <= matches[i] < |f.det|)
    }

    function SceneWith(tracks: seq<Track>): (s: Scene)
      requires Valid() && |tracks| == MAX_TOUCH
      ensures s.Valid()
    {
      Scene(f.cfg, f.det, f.contacts, tracks, active, matches, prior)
    }
  }

  /** Slots, guard table, and who got what so far. */
  datatype Giving = Giving(tracks: seq<Track>, table: Table, born: seq<int>, deferred: set<nat>)
  {
    predicate Sized() { |tracks| == |born| == MAX_TOUCH }
  }

  /** First slot at or behind k that is free and was not released by a jump. */
  function FreeSlot(tracks: seq<Track>, jumped: seq<bool>, k: nat): (r: nat)
    requires |tracks| == |jumped| == MAX_TOUCH && k <= MAX_TOUCH
    ensures k <= r <= MAX_TOUCH && (r < MAX_TOUCH ==> !tracks[r].active && !jumped[r])
    ensures forall i | k <= i < r :: tracks[i].active || jumped[i]
    decreases MAX_TOUCH - k
  {
    if k == MAX_TOUCH || (!tracks[k].active && !jumped[k]) then k else FreeSlot(tracks, jumped, k + 1)
  }

  function VerdictOn(u: Setup, g: Giving, j: nat): Verdict
    requires u.Valid() && g.Sized() && j < |u.f.det|
  {
    if j < |u.f.contacts| then
      var s := u.SceneWith(g.tracks);
      Judge(s, j, Reported(s, |s.active|), 0, g.table)
    else Verdict(g.table, false)
  }

  /** What becomes of detection j under the guard's verdict. */
  function GiveUnder(u: Setup, g: Giving, j: nat, v: Verdict): (r: Giving)
    requires u.Valid() && g.Sized() && j < |u.f.det|
    ensures r.Sized()
  {
    var i := FreeSlot(g.tracks, u.jumped, 0);
    if v.deferred then g.(table := v.table, deferred := g.deferred + {j})
    else if i == MAX_TOUCH then g.(table := v.table)
    else Giving(g.tracks[i := Created(u.f.cfg, u.touchActive, u.fast, |u.active|, u.f.det, u.f.contacts, j)],
                v.table, g.born[i := j], g.deferred)
  }

  predicate Skipped(u: Setup, j: nat)
    requires u.Valid() && j < |u.f.det|
  {
    u.used[j] || !Regular(u.f.contacts, j)
  }

  /** What becomes of detection j. */
  function GiveOne(u: Setup, g: Giving, j: nat): (r: Giving)
    requires u.Valid() && g.Sized() && j < |u.f.det|
    ensures r.Sized()
  {
    if Skipped(u, j) then g else GiveUnder(u, g, j, VerdictOn(u, g, j))
  }

  function Nobody(u: Setup): (g: Giving)
    requires u.Valid()
    ensures g.Sized()
  {
    Giving(u.kept, u.table, seq(MAX_TOUCH, _ => -1), {})
  }

  /** After the first j detections. */
  function GiveAll(u: Setup, j: nat): (g: Giving)
    requires u.Valid() && j <= |u.f.det|
    ensures g.Sized()
  {
    if j == 0 then Nobody(u) else GiveOne(u, GiveAll(u, j - 1), j - 1)
  }

  // ----- what that amounts to

  /** Slot i is as kept, or a new one of an unused regular detection in a place that was free. */
  ghost predicate SlotFresh(u: Setup, g: Giving, j: nat, i: nat)
    requires u.Valid() && j <= |u.f.det| && g.Sized() && i < MAX_TOUCH
  {
    var b := g.born[i];
    if b < 0 then b == -1 && g.tracks[i] == u.kept[i]
    else
      && b < j && !u.used[b] && Regular(u.f.contacts, b) && b !in g.deferred && !u.kept[i].active && !u.jumped[i]
      && g.tracks[i] == Created(u.f.cfg, u.touchActive, u.fast, |u.active|, u.f.det, u.f.contacts, b)
  }

  ghost predicate BornApart(born: seq<int>) {
    forall i, k | 0 <= i < k < |born| && born[i] >= 0 :: born[i] != born[k]
  }

  ghost predicate FreshOnly(u: Setup, g: Giving, j: nat)
    requires u.Valid() && j <= |u.f.det|
  {
    && g.Sized()
    && (forall i | 0 <= i < MAX_TOUCH :: SlotFresh(u, g, j, i))
    && BornApart(g.born)
    && (forall q | q in g.deferred :: q < j)
  }

  ghost predicate HasHome(u: Setup, g: Giving, q: nat)
    requires u.Valid() && g.Sized() && q < MAX_TOUCH
  {
    u.used[q] || !Regular(u.f.contacts, q) || q in g.deferred || exists i :: 0 <= i < MAX_TOUCH && g.born[i] == q
  }

  ghost predicate Full(u: Setup, g: Giving)
    requires u.Valid() && g.Sized()
  {
    forall i | 0 <= i < MAX_TOUCH :: g.tracks[i].active || u.jumped[i]
  }

  ghost predicate NobodyLeft(u: Setup, g: Giving, j: nat)
    requires u.Valid() && g.Sized() && j <= |u.f.det|
  {
    forall q | 0 <= q < j && !HasHome(u, g, q) :: Full(u, g)
  }

  lemma {:induction false} GivenFresh(u: Setup, j: nat)
    requires u.Valid() && j <= |u.f.det|
    ensures FreshOnly(u, GiveAll(u, j), j)
  {
    if j > 0 {
      GivenFresh(u, j - 1);
      OneFresh(u, GiveAll(u, j - 1), j - 1);
    }
  }

  lemma OneFresh(u: Setup, g: Giving, j: nat)
    requires u.Valid() && j < |u.f.det| && FreshOnly(u, g, j)
    ensures FreshOnly(u, GiveOne(u, g, j), j + 1)
  {
    if Skipped(u, j) {
      var j' := j + 1;
      forall i | 0 <= i < MAX_TOUCH ensures SlotFresh(u, g, j', i) {
        assert SlotFresh(u, g, j, i);
      }
    } else {
      UnderFresh(u, g, j, VerdictOn(u, g, j));
    }
  }

  lemma UnderFresh(u: Setup, g: Giving, j: nat, v: Verdict)
    requires u.Valid() && j < |u.f.det| && FreshOnly(u, g, j) && !Skipped(u, j)
    ensures FreshOnly(u, GiveUnder(u, g, j, v), j + 1)
  {
    var r, j' := GiveUnder(u, g, j, v), j + 1;
    forall i | 0 <= i < MAX_TOUCH ensures SlotFresh(u, r, j', i) {
      UnderSlotFresh(u, g, j, v, i);
    }
    UnderApart(u, g, j, v);
  }

  lemma UnderSlotFresh(u: Setup, g: Giving, j: nat, v: Verdict, i: nat)
    requires u.Valid() && j < |u.f.det| && FreshOnly(u, g, j) && !Skipped(u, j) && i < MAX_TOUCH
    ensures SlotFresh(u, GiveUnder(u, g, j, v), j + 1, i)
  {
    assert SlotFresh(u, g, j, i);
  }

  lemma UnderApart(u: Setup, g: Giving, j: nat, v: Verdict)
    requires u.Valid() && j < |u.f.det| && FreshOnly(u, g, j) && !Skipped(u, j)
    ensures BornApart(GiveUnder(u, g, j, v).born)
  {
    forall i | 0 <= i < MAX_TOUCH ensures g.born[i] < j {
      assert SlotFresh(u, g, j, i);
    }
  }

  lemma {:induction false} GivenComplete(u: Setup, j: nat)
    requires u.Valid() && j <= |u.f.det|
    ensures NobodyLeft(u, GiveAll(u, j), j)
  {
    if j > 0 {
      GivenComplete(u, j - 1);
      GivenFresh(u, j - 1);
      OneComplete(u, GiveAll(u, j - 1), j - 1);
    }
  }

  lemma OneComplete(u: Setup, g: Giving, j: nat)
    requires u.Valid() && j < |u.f.det| && FreshOnly(u, g, j) && NobodyLeft(u, g, j)
    ensures NobodyLeft(u, GiveOne(u, g, j), j + 1)
  {
    if Skipped(u, j) {
      assert HasHome(u, g, j);
    } else {
      UnderComplete(u, g, j, VerdictOn(u, g, j));
    }
  }

  lemma UnderComplete(u: Setup, g: Giving, j: nat, v: Verdict)
    requires u.Valid() && j < |u.f.det| && FreshOnly(u, g, j) && NobodyLeft(u, g, j) && !Skipped(u, j)
    ensures NobodyLeft(u, GiveUnder(u, g, j, v), j + 1)
  {
    var r, s := GiveUnder(u, g, j, v), FreeSlot(g.tracks, u.jumped, 0);
    forall q | 0 <= q < j && HasHome(u, g, q) ensures HasHome(u, r, q) {
      HomesStay(u, g, j, v, q);
    }
    if Full(u, g) {
      assert Full(u, r);
    }
    if v.deferred {
      assert HasHome(u, r, j);
    } else if s < MAX_TOUCH {
      assert r.born[s] == j;
    } else {
      assert Full(u, g);
    }
  }

  lemma HomesStay(u: Setup, g: Giving, j: nat, v: Verdict, q: nat)
    requires u.Valid() && j < |u.f.det| && FreshOnly(u, g, j) && q < j && HasHome(u, g, q)
    ensures HasHome(u, GiveUnder(u, g, j, v), q)
  {
    var r, s := GiveUnder(u, g, j, v), FreeSlot(g.tracks, u.jumped, 0);
    if i :| 0 <= i < MAX_TOUCH && g.born[i] == q {
      assert SlotFresh(u, g, j, i);
      assert r.born[i] == q;
    }
  }

  /** Every look was taken at a detection that asks for a slot, and applied the setting that belongs to
      it at that point of the frame. Sealed. */
  ghost predicate LimitsApplied(u: Setup, log: Log)
    requires u.Valid()
  {
    forall o {:trigger Open(o)} :: Open(o) ==>
      && |log.limits| == |log.who|
      && forall p | 0 <= p < |log.who| ::
           && log.who[p] < |u.f.det| && log.who[p] < |u.f.contacts| && !Skipped(u, log.who[p])
           && log.limits[p] == LimitAt(u, log.who[p])
  }

  /** The setting for contact j when its turn comes. */
  ghost function LimitAt(u: Setup, j: nat): nat
    requires u.Valid() && j < |u.f.det| && j < |u.f.contacts|
  {
    LimitFor(u.SceneWith(GiveAll(u, j).tracks), j, GiveAll(u, j).table)
  }

  /** The log tells how the guard's table came about over the first j detections. */
  ghost predicate Accounts(u: Setup, j: nat, log: Log)
    requires u.Valid() && j <= |u.f.det|
  {
    var g := GiveAll(u, j);
    && g.table == Played(u.table, log.touches) && log.deferred == g.deferred && |log.touches| <= j
    && LogFits(u.table, u.f.contacts, log) && LimitsApplied(u, log)
    && forall p | 0 <= p < |log.who| :: log.who[p] < j
  }

  lemma {:induction false} GivenLog(u: Setup, j: nat) returns (log: Log)
    requires u.Valid() && j <= |u.f.det|
    ensures Accounts(u, j, log)
  {
    if j > 0 {
      var before := GivenLog(u, j - 1);
      log := OneLog(u, j - 1, before);
    } else {
      log := Log([], [], [], {});
    }
  }

  lemma OneLog(u: Setup, j: nat, log: Log) returns (log': Log)
    requires u.Valid() && j < |u.f.det| && Accounts(u, j, log)
    ensures Accounts(u, j + 1, log')
  {
    log' := log;
    if !Skipped(u, j) && j < |u.f.contacts| {
      var g := GiveAll(u, j);
      var s := u.SceneWith(g.tracks);
      var looks := JudgeLooksOnce(s, j, Reported(s, |s.active|), 0, g.table);
      if |looks| == 1 {
        assert looks == [looks[0]];
        PlayedOne(g.table, looks[0]);
        log' := LookLogged(u, j, log, looks[0]);
      }
    }
  }

  lemma OneGiven(u: Setup, j: nat)
    requires u.Valid() && j < |u.f.det| && !Skipped(u, j)
    ensures var g, v := GiveAll(u, j), VerdictOn(u, GiveAll(u, j), j);
      && GiveAll(u, j + 1).table == v.table
      && GiveAll(u, j + 1).deferred == if v.deferred then g.deferred + {j} else g.deferred
  {
  }

  /** One more look, at contact j. */
  lemma LookLogged(u: Setup, j: nat, log: Log, t: Touch) returns (log': Log)
    requires u.Valid() && j < |u.f.det| && j < |u.f.contacts| && !Skipped(u, j) && Accounts(u, j, log)
    requires var v := VerdictOn(u, GiveAll(u, j), j);
      && v.table == Touched(GiveAll(u, j).table, t) && t.id == u.f.contacts[j].peakId
      && (v.deferred ==> AgeSeen(GiveAll(u, j).table, t.id) < LimitAt(u, j))
    ensures Accounts(u, j + 1, log')
  {
    var c, deferred := LimitAt(u, j), VerdictOn(u, GiveAll(u, j), j).deferred;
    OneGiven(u, j);
    log' := Logged(u.table, u.f.contacts, log, c, j, t, deferred);
    LimitsExtend(u, log, log', j);
    TableLogged(u.table, log.touches, t);
  }

  lemma TableLogged(start: Table, touches: seq<Touch>, t: Touch)
    ensures Played(start, touches + [t]) == Touched(Played(start, touches), t)
  {
    assert (touches + [t])[..|touches|] == touches;
  }

  lemma LimitsExtend(u: Setup, log: Log, log': Log, j: nat)
    requires u.Valid() && LimitsApplied(u, log) && j < |u.f.det| && j < |u.f.contacts| && !Skipped(u, j)
    requires log'.who == log.who + [j] && log'.limits == log.limits + [LimitAt(u, j)]
    ensures LimitsApplied(u, log')
  {
    assert Open(0);
  }

  /** The log with that look behind all others. */
  lemma Logged(start: Table, contacts: seq<Contact>, log: Log, c: nat, j: nat, t: Touch, deferred: bool)
    returns (log': Log)
    requires LogFits(start, contacts, log) && (forall p | 0 <= p < |log.who| :: log.who[p] < j)
    requires j < |contacts| && t.id == contacts[j].peakId
    requires deferred ==> AgeSeen(Played(start, log.touches), t.id) < c
    ensures log' == Log(log.touches + [t], log.who + [j], log.limits + [c],
                        if deferred then log.deferred + {j} else log.deferred)
    ensures LogFits(start, contacts, log')
  {
    log' := Log(log.touches + [t], log.who + [j], log.limits + [c],
        if deferred then log.deferred + {j} else log.deferred);
    var n := |log.touches|;
    assert log'.touches[..n] == log.touches;
    if deferred {
      assert log'.who[n] == j && SeenYoung(start, contacts[j].peakId, j, log');
    }
    forall q | q in log.deferred ensures q < |contacts| && SeenYoung(start, contacts[q].peakId, q, log') {
      YoungStays(start, contacts[q].peakId, q, log, log');
    }
  }

  lemma YoungStays(start: Table, id: u8, q: nat, log: Log, log': Log)
    requires |log.who| == |log.touches| == |log.limits| && |log'.who| == |log'.touches| == |log'.limits|
    requires log.who <= log'.who && log.touches <= log'.touches && log.limits <= log'.limits
    requires SeenYoung(start, id, q, log)
    ensures SeenYoung(start, id, q, log')
  {
    var p :| 0 <= p < |log.who| && log.who[p] == q && AgeSeen(Played(start, log.touches[..p]), id) < log.limits[p];
    assert log'.who[p] == q && log'.touches[..p] == log.touches[..p];
  }
}
