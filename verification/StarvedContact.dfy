/** The run of `HoldingLimit` as whole frames of the tracker: frames of contacts in each of which the guard
    holds back a second contact, as long as the bound allows. The contacts and their peak names are the
    tracker's input; that the stages before it would name the peaks so is not shown. */
module StarvedContact {
  import opened Machine
  import opened Arithmetic
  import opened Firmware
  import opened Tracks
  import opened Assigner
  import opened Competition
  import opened HoldingLimit
  import opened SplitGuard
  import opened SlotCycle
  import opened SlotGiving
  import opened Sealing
  import opened Hungarian
  import M = MatchCosts
  import opened Tracker
  import opened Admission

  /** The driver's defaults, but for the frames of confirmation. */
  function Defaults(c: nat): Config {
    Config(420 * 420, 4, 1, true, true, 1, 0, true, 1, 1, 3000, true, c, 90000, 4, 32400, 1600, true, 64, 224, 24)
  }

  /** The peak of the touch that is already reported. */
  const LEADER: u8 := 6

  /** The reported touch, k newcomers, and the contact that is followed, all in one zone. */
  function PeakIn(base: u8, k: nat, j: nat): u8
    requires base in {ODD, EVEN} && k < TABLE && j < k + 2
  {
    if j == 0 then LEADER else if j <= k then base + j - 1 else HELD
  }

  function ContactsIn(base: u8, k: nat): (r: seq<Contact>)
    requires base in {ODD, EVEN} && k < TABLE
    ensures |r| == k + 2
    ensures forall j | 0 <= j < k + 2 :: r[j] == Contact(5000, false, false, PeakIn(base, k, j), 1, 0, false, -1)
  {
    seq(k + 2, j requires 0 <= j < k + 2 => Contact(5000, false, false, PeakIn(base, k, j), 1, 0, false, -1))
  }

  function PlacesIn(k: nat): (r: seq<Pos>)
    ensures |r| == k + 2 && forall j | 0 <= j < k + 2 :: r[j] == Pos(100 + j, 100)
  {
    seq(k + 2, j requires 0 <= j < k + 2 => Pos(100 + j, 100))
  }

  /** A touch that has been reported for long and does not move. */
  predicate Long(t: Track) {
    && t.active && t.reported && t.age == 255 && t.missed == t.debounce == 0 && t.peakId == LEADER && t.peakAge == 1
    && t.x == t.y == 100 && t.fx == t.fy == 25600 && t.vx == t.vy == t.derivX == t.derivY == 0 && t.signalSum == 5000
  }

  /** It rests in slot 0, and all other slots are free. */
  predicate AtRest(slots: seq<Track>) {
    |slots| == MAX_TOUCH && Long(slots[0]) && forall i | 1 <= i < MAX_TOUCH :: slots[i] == EMPTY
  }

  /** That touch is established, and the finger was there before. */
  function Leading(slots: seq<Track>): (s: State)
    requires AtRest(slots)
    ensures s.Good()
  {
    State(slots, true, 0, true)
  }

  function FrameOf(c: nat, base: u8, k: nat): Frame
    requires base in {ODD, EVEN} && k < TABLE
  {
    Frame(Defaults(c), Present, PlacesIn(k), ContactsIn(base, k))
  }

  /** The reported touch continues with detection 0; every other detection asks for a slot. */
  function SetupOf(c: nat, base: u8, k: nat, slots: seq<Track>, table: Table): (u: Setup)
    requires AtRest(slots) && base in {ODD, EVEN} && k + 2 <= MAX_TOUCH && 1 <= c <= 16
    ensures u.Valid()
  {
    var f, matches := FrameOf(c, base, k), [0] + seq(MAX_TOUCH - 1, _ => -1);
    Setup(f, true, false, [0], matches, [LEADER] + seq(MAX_TOUCH - 1, _ => 0),
          [true] + seq(MAX_TOUCH - 1, _ => false), seq(MAX_TOUCH, _ => false),
          slots, Unseen(table))
  }

  /** What is used of that set-up. */
  ghost predicate Fits(u: Setup, c: nat, base: u8, k: nat) {
    && base in {ODD, EVEN} && k + 2 <= MAX_TOUCH && 2 <= c <= 16
    && u.Valid() && u.f.cfg.splitFrames == c && u.f.cfg.splitDist2 == 90000
    && u.f.finger == Present && u.f.cfg.hungarian && u.f.cfg.jumpDist2 == 0 && u.touchActive && !u.fast
    && u.active == [0] && u.prior[0] == LEADER && u.kept[0].reported
    && (forall i | 0 <= i < MAX_TOUCH :: u.matches[i] == (if i == 0 then 0 else -1) && !u.jumped[i])
    && (forall i | 0 <= i < MAX_TOUCH :: u.used[i] == (i == 0) && (i > 0 ==> u.prior[i] == 0))
    && |u.f.det| == |u.f.contacts| == k + 2
    && (forall j | 0 <= j < k + 2 ::
          && u.f.contacts[j] == Contact(5000, false, false, PeakIn(base, k, j), 1, 0, false, -1)
          && u.f.det[j] == Pos(100 + j, 100))
  }

  lemma SetupFits(c: nat, base: u8, k: nat, slots: seq<Track>, table: Table)
    requires AtRest(slots) && base in {ODD, EVEN} && k + 2 <= MAX_TOUCH && 2 <= c <= 16
    ensures Fits(SetupOf(c, base, k, slots, table), c, base, k)
  {
  }

  /** The matches and what follows from them, up to the free slots. */
  lemma LeaderCarried(u: Setup, c: nat, base: u8, k: nat, slots: seq<Track>)
    requires Fits(u, c, base, k) && AtRest(slots) && u.kept == slots
    ensures Carried(u, slots, slots, [0]) && PeakIdsDistinct(u.f.contacts)
  {
    LeaderFollowed(u, c, base, k, slots);
    LeaderMatches(u.f, slots);
  }

  lemma LeaderFollowed(u: Setup, c: nat, base: u8, k: nat, slots: seq<Track>)
    requires Fits(u, c, base, k) && AtRest(slots) && u.kept == slots
    ensures Followed(u.f, slots, u.matches, slots, u.used, u.jumped)
  {
    forall j | 0 <= j < MAX_TOUCH
      ensures u.used[j] <==> exists i :: 0 <= i < MAX_TOUCH && u.matches[i] == j && !u.jumped[i]
    {
      if j == 0 {
        assert u.matches[0] == 0 && !u.jumped[0];
      }
    }
    LeaderStays(u.f, slots[0]);
  }

  /** The reported touch rests where it is. */
  lemma LeaderStays(f: Frame, t: Track)
    requires Long(t) && f.Valid() && |f.det| > 0 && |f.contacts| > 0 && f.cfg.jumpDist2 == 0
    requires f.det[0] == Pos(100, 100) && f.contacts[0] == Contact(5000, false, false, LEADER, 1, 0, false, -1)
    ensures AfterMatch(f.cfg, t, f.det, f.contacts, 0) == t
    ensures !Jumps(f.cfg, t, f.det[0])
  {
    FilterRests(f.cfg, t, f.det[0]);
  }

  lemma FilterRests(cfg: Config, t: Track, p: Pos)
    requires cfg.Valid() && t.x == p.x && t.y == p.y && t.fx == p.x * 256 && t.fy == p.y * 256
    requires t.vx == t.vy == t.derivX == t.derivY == 0
    ensures Filtered(cfg, t, p) == t
  {
    BlendAtTarget(Alpha(cfg, 0), t.fx);
    BlendAtTarget(Alpha(cfg, 0), t.fy);
    BlendAtTarget(Alpha(cfg, 0), 0);
  }

  lemma BlendAtTarget(alpha: int, x: int)
    ensures Blend(alpha, x, x) == x
  {
    assert alpha * (x - x) == 0;
  }

  /** Continuing it costs nothing, so it is matched. */
  lemma LeaderMatches(f: Frame, slots: seq<Track>)
    requires AtRest(slots) && f.Valid() && f.cfg.hungarian && |f.det| > 0 && |f.contacts| > 0
    requires f.det[0] == Pos(100, 100) && f.contacts[0] == Contact(5000, false, false, LEADER, 1, 0, false, -1)
    ensures M.Sound(f.cfg, slots, [0], f.det, f.contacts, [0]) && BestOrGreedy(f, slots, [0], [0])
  {
    M.TableIsProblem(f.cfg, slots, [0], f.det, f.contacts);
    LeaderMayContinue(f, slots[0]);
    FreeIsCheapest(M.Table(f.cfg, slots, [0], f.det, f.contacts), |f.det|, M.Unmatched(f.cfg));
  }

  lemma LeaderIsFree(cfg: Config, t: Track, p: Pos, contacts: seq<Contact>, regular: bool, own: bool)
    requires cfg.Valid() && t.x == p.x && t.y == p.y && t.vx == t.vy == 0 && t.missed == 0
    requires |contacts| > 0 && !contacts[0].continuationOnly && contacts[0].peakId == t.peakId
    ensures M.InGate(cfg, t, p) && M.PriceOf(cfg, 0, t, p, contacts, 0, regular, own) == 0
  {
    assert Dist2Predicted(p, t) == 0;
    assert M.Gate2(cfg, t) == Max(cfg.dist2Max, 1);
  }

  lemma LeaderMayContinue(f: Frame, t: Track)
    requires Long(t) && f.Valid() && |f.det| > 0 && |f.contacts| > 0
    requires f.det[0] == Pos(100, 100) && f.contacts[0] == Contact(5000, false, false, LEADER, 1, 0, false, -1)
    ensures M.MayContinue(f.cfg, 0, t, f.det, f.contacts, 0) && M.PairPrice(f.cfg, 0, t, f.det, f.contacts, 0) == 0
  {
    LeaderIsFree(f.cfg, t, f.det[0], f.contacts,
                 M.RegularInGate(f.cfg, t, f.det, f.contacts, |f.det|),
                 M.OwnPeakInGate(f.cfg, t, f.det, f.contacts, |f.det|));
  }

  lemma FreeIsCheapest(costs: Costs, d: nat, unmatched: int)
    requires IsProblem(costs, 1, d, unmatched) && d > 0 && costs[0][0] == 0
    ensures IsCheapest(costs, 1, d, unmatched, [0])
  {
    forall other | OneToOne(other, 1, d)
      ensures TotalPrice(costs, unmatched, [0], 1) <= TotalPrice(costs, unmatched, other, 1)
    {
      assert TotalPrice(costs, unmatched, [0], 0) == TotalPrice(costs, unmatched, other, 0) == 0;
    }
  }

  /** A detection in the zone of the reported touch is judged by its age alone. */
  lemma JudgedByAge(u: Setup, c: nat, base: u8, k: nat, g: Giving, j: nat)
    requires Fits(u, c, base, k) && 1 <= j < k + 2 && g.tracks == u.kept && |g.born| == MAX_TOUCH
    requires forall i | 0 <= i < |g.table| :: !g.table[i].residual
    requires AgeSeen(g.table, PeakIn(base, k, j)) < c
    ensures VerdictOn(u, g, j) == Verdict(Touched(g.table, Touch(PeakIn(base, k, j), false)), true)
  {
    var s := u.SceneWith(u.kept);
    OneIsReported(s);
    assert Opposes(s, j, 0);
    var r := RelationTo(s, j, 0, g.table);
    assert r.sameZone && !r.handoff && !r.continuing;
    assert Square(j) <= 81 by {
      SquareBound(j, 9);
    }
    assert Competes(s, j, 0, 1, g.table);
  }

  lemma OneIsReported(s: Scene)
    requires s.Valid() && s.active == [0] && s.tracks[0].reported
    ensures Reported(s, |s.active|) == 1
  {
    assert Reported(s, 0) == 0;
  }

  /** Detections 1 to j - 1. */
  ghost function Preceding(j: nat): set<nat> { if j <= 1 then {} else Preceding(j - 1) + {j - 1} }

  /** After the first j detections: nobody got a slot, everybody but the first was held back. */
  ghost function HeldSoFar(u: Setup, base: u8, k: nat, j: nat): Giving
    requires base in {ODD, EVEN} && k + 2 <= MAX_TOUCH && 1 <= j <= k + 2
  {
    Giving(u.kept, Played(u.table, Looks(base, k)[..j - 1]), seq(MAX_TOUCH, _ => -1), Preceding(j))
  }

  /** The guard goes through the newcomers and the followed contact, and holds all of them back. */
  lemma {:induction false} AllHeldBack(u: Setup, c: nat, base: u8, k: nat, a: nat, table: Table, j: nat)
    requires Fits(u, c, base, k) && 1 <= a < c && 1 <= j <= k + 2 && u.table == Unseen(table)
    requires Before(table, k, a) && Unnamed(table, base) && forall i | 0 <= i < TABLE :: !table[i].residual
    ensures GiveAll(u, j) == HeldSoFar(u, base, k, j)
  {
    if j == 1 {
      assert GiveAll(u, 0) == Nobody(u) && Skipped(u, 0);
      assert Looks(base, k)[..0] == [];
    } else {
      AllHeldBack(u, c, base, k, a, table, j - 1);
      LookedAtYoung(c, base, k, a, table, j - 1);
      OneHeldBack(u, c, base, k, j - 1);
    }
  }

  lemma OneHeldBack(u: Setup, c: nat, base: u8, k: nat, j: nat)
    requires Fits(u, c, base, k) && 1 <= j < k + 2
    requires var now := Played(u.table, Looks(base, k)[..j - 1]);
      AgeSeen(now, PeakIn(base, k, j)) < c && forall i | 0 <= i < |now| :: !now[i].residual
    requires Looks(base, k)[j - 1] == Touch(PeakIn(base, k, j), false)
    ensures GiveOne(u, HeldSoFar(u, base, k, j), j) == HeldSoFar(u, base, k, j + 1)
  {
    var looks := Looks(base, k);
    assert looks[..j][..j - 1] == looks[..j - 1];
    JudgedByAge(u, c, base, k, HeldSoFar(u, base, k, j), j);
    assert !Skipped(u, j);
  }

  /** Every contact of the frame is looked at while young, and nothing is marked as left behind. */
  lemma LookedAtYoung(c: nat, base: u8, k: nat, a: nat, table: Table, j: nat)
    requires base in {ODD, EVEN} && k + 2 <= MAX_TOUCH && 2 <= c <= 16 && 1 <= a < c && 1 <= j < k + 2
    requires Before(table, k, a) && Unnamed(table, base) && forall i | 0 <= i < TABLE :: !table[i].residual
    ensures var now := Played(Unseen(table), Looks(base, k)[..j - 1]);
      AgeSeen(now, PeakIn(base, k, j)) < c && forall i | 0 <= i < |now| :: !now[i].residual
    ensures Looks(base, k)[j - 1] == Touch(PeakIn(base, k, j), false)
  {
    assert Looks(base, k)[..j - 1] == Newcomers(base, j - 1);
    NewcomersTakeOver(Unseen(table), base, j - 1);
    NothingLeftBehind(table, base, j - 1);
    if j <= k {
      NewcomerTakes(Unseen(table), base, j - 1);
    } else {
      HeldIsLookedAt(table, base, k, a);
    }
  }

  lemma NothingLeftBehind(table: Table, base: u8, k: nat)
    requires base in {ODD, EVEN} && k <= |table| <= TABLE && forall i | 0 <= i < |table| :: !table[i].residual
    ensures forall i | 0 <= i < |table| :: !Taken(Unseen(table), base, k)[i].residual
  {
  }

  // ----- frames and runs

  /** A frame that leaves the slots as they are and holds the followed contact back, while it asks for a
      slot and at most m contacts are looked at. */
  ghost predicate Starves(slots: seq<Track>, table: Table, x: Passage, j: nat, table': Table, c: nat, m: nat) {
    && AtRest(slots) && Passes(x, Leading(slots), table, Leading(slots), table')
    && Asks(x, j, HELD, c, m) && j in x.c.deferred
  }

  lemma FrameStarves(slots: seq<Track>, table: Table, base: u8, k: nat, a: nat, c: nat, m: nat)
    returns (x: Passage, j: nat)
    requires AtRest(slots) && base in {ODD, EVEN} && k < m && k + 2 <= MAX_TOUCH && 2 <= c <= 16 && 1 <= a < c
    requires Before(table, k, a) && Unnamed(table, base) && forall i | 0 <= i < TABLE :: !table[i].residual
    ensures Starves(slots, table, x, j, AfterFrame(table, Looks(base, k)), c, m)
  {
    SetupFits(c, base, k, slots, table);
    x, j := SetupStarves(SetupOf(c, base, k, slots, table), slots, table, base, k, a, c, m);
  }

  lemma SetupStarves(u: Setup, slots: seq<Track>, table: Table, base: u8, k: nat, a: nat, c: nat, m: nat)
    returns (x: Passage, j: nat)
    requires Fits(u, c, base, k) && AtRest(slots) && u.kept == slots && k < m && 1 <= a < c && u.table == Unseen(table)
    requires Before(table, k, a) && Unnamed(table, base) && forall i | 0 <= i < TABLE :: !table[i].residual
    ensures Starves(slots, table, x, j, AfterFrame(table, Looks(base, k)), c, m)
  {
    x := HeldPassage(u, slots, table, base, k, a, c);
    j := k + 1;
    LeadingAgain(x, slots, table, AfterFrame(table, Looks(base, k)));
    HeldLimit(u, c, base, k, a, table);
    FewLooks(x, slots, table, AfterFrame(table, Looks(base, k)), k + 2);
  }

  /** What the tracker does in that frame. */
  lemma HeldPassage(u: Setup, slots: seq<Track>, table: Table, base: u8, k: nat, a: nat, c: nat) returns (x: Passage)
    requires Fits(u, c, base, k) && AtRest(slots) && u.kept == slots && 1 <= a < c && u.table == Unseen(table)
    requires Before(table, k, a) && Unnamed(table, base) && forall i | 0 <= i < TABLE :: !table[i].residual
    ensures Moves(x, true, false, slots, table, AfterFrame(table, Looks(base, k))) && x.mid == slots
    ensures x.u == u && x.f == u.f && k + 1 in x.c.deferred && PeakIdsDistinct(u.f.contacts)
  {
    AllHeldBack(u, c, base, k, a, table, k + 2);
    LeaderCarried(u, c, base, k, slots);
    x := Assembled(u, slots, slots, [0], table);
    assert Looks(base, k)[..k + 1] == Looks(base, k);
    assert k + 1 in Preceding(k + 2);
  }

  /** The setting for the followed contact. */
  lemma HeldLimit(u: Setup, c: nat, base: u8, k: nat, a: nat, table: Table)
    requires Fits(u, c, base, k) && 1 <= a < c && u.table == Unseen(table)
    requires Before(table, k, a) && Unnamed(table, base) && forall i | 0 <= i < TABLE :: !table[i].residual
    ensures LimitAt(u, k + 1) == c
  {
    AllHeldBack(u, c, base, k, a, table, k + 1);
    SameZoneLimit(u, c, base, k, GiveAll(u, k + 1), k + 1);
  }

  /** Nothing changes but the guard's table. */
  lemma LeadingAgain(x: Passage, slots: seq<Track>, table: Table, table': Table)
    requires AtRest(slots) && Moves(x, true, false, slots, table, table') && x.mid == slots && x.f.finger == Present
    ensures Passes(x, Leading(slots), table, Leading(slots), table')
  {
    assert !FastPending(x.f, Leading(slots));
    assert Tracked(x.f, true, false, slots, x.c, x.mid) by {
      assert Open(0);
      assert MovesWell(x, true, false, slots, table, table');
    }
    StillReported(x.f.cfg, slots);
  }

  lemma StillReported(cfg: Config, slots: seq<Track>)
    requires AtRest(slots)
    ensures Established(true, 0, cfg, slots) && StartAfter(true, 0, slots) == 0
    ensures forall i | 0 <= i < MAX_TOUCH :: ReportedIf(slots[i], true) == slots[i]
  {
    assert Stable(slots[0]);
  }

  /** Only detections that ask are looked at: all but the first. */
  lemma FewLooks(x: Passage, slots: seq<Track>, table: Table, table': Table, n: nat)
    requires Moves(x, true, false, slots, table, table') && x.f.finger == Present
    requires |x.f.contacts| == n >= 1 && x.u.Valid() && x.u.f == x.f && x.u.used[0]
    ensures |x.log.touches| <= n - 1
  {
    assert Open(0);
    Climbing(x.log.who, |x.log.who|);
  }

  lemma {:induction false} Climbing(who: seq<nat>, k: nat)
    requires k <= |who| && (forall p, r | 0 <= p < r < |who| :: who[p] < who[r])
    requires forall p | 0 <= p < |who| :: who[p] >= 1
    ensures forall p | 0 <= p < k :: who[p] >= p + 1
  {
    if k > 1 {
      Climbing(who, k - 1);
      assert who[k - 1] > who[k - 2] >= k - 1;
    }
  }

  lemma SameZoneLimit(u: Setup, c: nat, base: u8, k: nat, g: Giving, j: nat)
    requires Fits(u, c, base, k) && 1 <= j < k + 2 && g.tracks == u.kept
    ensures LimitFor(u.SceneWith(g.tracks), j, g.table) == c
  {
    var s := u.SceneWith(g.tracks);
    assert Opposes(s, j, 0) && RelationTo(s, j, 0, g.table).Close();
  }

  lemma StepStarves(slots: seq<Track>, table: Table, frame: seq<Touch>, p: nat, table': Table, c: nat, m: nat)
    returns (x: Passage, j: nat)
    requires AtRest(slots) && IsStep(table, frame, p, table', c, m) && table' == AfterFrame(table, frame)
    requires m < MAX_TOUCH
    ensures Starves(slots, table, x, j, table', c, m)
  {
    var base, k, a :| StepsWith(table, frame, p, table', c, m, base, k, a);
    x, j := FrameStarves(slots, table, base, k, a, c, m);
  }

  /** The first frames of a run, as many as there are passages. Sealed. */
  ghost predicate AllStarve(slots: seq<Track>, tables: seq<Table>, xs: seq<Passage>, js: seq<nat>, c: nat, m: nat) {
    && |xs| == |js| < |tables|
    && forall o {:trigger Open(o)} :: Open(o) ==>
         forall i | 0 <= i < |xs| :: Starves(slots, tables[i], xs[i], js[i], tables[i + 1], c, m)
  }

  /** One frame more. Sealed. */
  ghost predicate NextStarves(slots: seq<Track>, tables: seq<Table>, n: nat, x: Passage, j: nat, c: nat, m: nat) {
    && n + 1 < |tables|
    && forall o {:trigger Open(o)} :: Open(o) ==> Starves(slots, tables[n], x, j, tables[n + 1], c, m)
  }

  /** The run the frames are made for. Sealed. */
  ghost predicate Prepared(slots: seq<Track>, tables: seq<Table>, frames: seq<seq<Touch>>, at: seq<nat>, c: nat,
                           m: nat) {
    && |at| == |frames| && |tables| == |frames| + 1
    && forall o {:trigger Open(o)} :: Open(o) ==>
         && AtRest(slots) && Competition.IsRun(tables, frames, m) && m < MAX_TOUCH
         && forall i | 0 <= i < |frames| :: IsStep(tables[i], frames[i], at[i], tables[i + 1], c, m)
  }

  lemma FrameOfRunStarves(slots: seq<Track>, tables: seq<Table>, frames: seq<seq<Touch>>, at: seq<nat>, c: nat, m: nat,
                          n: nat) returns (x: Passage, j: nat)
    requires Prepared(slots, tables, frames, at, c, m) && n < |frames|
    ensures NextStarves(slots, tables, n, x, j, c, m)
  {
    assert Open(0);
    RunStep(tables, frames, m, n);
    x, j := StepStarves(slots, tables[n], frames[n], at[n], tables[n + 1], c, m);
  }

  lemma OneMoreStarves(slots: seq<Track>, tables: seq<Table>, xs: seq<Passage>, js: seq<nat>, x: Passage, j: nat,
                       c: nat, m: nat)
    requires AllStarve(slots, tables, xs, js, c, m) && NextStarves(slots, tables, |xs|, x, j, c, m)
    ensures AllStarve(slots, tables, xs + [x], js + [j], c, m)
  {
    assert Open(0);
  }

  lemma StarveOnce(slots: seq<Track>, tables: seq<Table>, frames: seq<seq<Touch>>, at: seq<nat>, c: nat, m: nat,
                   xs0: seq<Passage>, js0: seq<nat>) returns (xs: seq<Passage>, js: seq<nat>)
    requires Prepared(slots, tables, frames, at, c, m) && AllStarve(slots, tables, xs0, js0, c, m) && |xs0| < |frames|
    ensures |xs| == |xs0| + 1 && AllStarve(slots, tables, xs, js, c, m)
  {
    var x, j := FrameOfRunStarves(slots, tables, frames, at, c, m, |xs0|);
    OneMoreStarves(slots, tables, xs0, js0, x, j, c, m);
    xs, js := xs0 + [x], js0 + [j];
  }

  lemma RunStarves(slots: seq<Track>, tables: seq<Table>, frames: seq<seq<Touch>>, at: seq<nat>, c: nat, m: nat)
    returns (xs: seq<Passage>, js: seq<nat>)
    requires Prepared(slots, tables, frames, at, c, m)
    ensures |xs| == |js| == |frames| && |tables| == |frames| + 1 && AllStarve(slots, tables, xs, js, c, m)
  {
    xs, js := [], [];
    for n := 0 to |frames|
      invariant |xs| == n && AllStarve(slots, tables, xs, js, c, m)
    {
      xs, js := StarveOnce(slots, tables, frames, at, c, m, xs, js);
    }
  }

  /** Beside one reported touch, newcomers that keep asking for slots hold a second contact back for
      m * (c - 1) frames, when at most m contacts are looked at in each. */
  lemma NewcomersStarveAContact(slots: seq<Track>, c: nat, m: nat)
    returns (tables: seq<Table>, xs: seq<Passage>, js: seq<nat>)
    requires AtRest(slots) && 1 <= c <= 16 && 1 <= m < MAX_TOUCH
    ensures |xs| == |js| == m * (c - 1) && |tables| == |xs| + 1 && tables[0] == seq(TABLE, _ => NONE)
    ensures forall i | 0 <= i < |xs| :: Starves(slots, tables[i], xs[i], js[i], tables[i + 1], c, m)
  {
    var frames, at;
    tables, frames, at := BoundIsAttained(c, m);
    assert Prepared(slots, tables, frames, at, c, m);
    xs, js := RunStarves(slots, tables, frames, at, c, m);
    assert Open(0);
  }

  /** n frames in a row in which the contact of a peak asks for a slot. */
  ghost predicate AskingRun(states: seq<State>, tables: seq<Table>, xs: seq<Passage>, js: seq<nat>, q: u8, c: nat,
                            m: nat) {
    && IsTrackerRun(states, tables, xs) && states[0].Good() && |js| == |xs|
    && forall i | 0 <= i < |xs| :: Asks(xs[i], js[i], q, c, m)
  }

  /** In every run of n frames in which a contact keeps asking it gets a slot, or finds all ten taken. */
  ghost predicate AdmittedWithin(n: nat, c: nat, m: nat) {
    forall states: seq<State>, tables: seq<Table>, xs: seq<Passage>, js: seq<nat>, q: u8
      | q != 0 && |xs| == n && AskingRun(states, tables, xs, js, q, c, m) ::
      exists i :: 0 <= i < n && Served(states[i], xs[i], js[i])
  }

  lemma NeverServed(slots: seq<Track>, tables: seq<Table>, xs: seq<Passage>, js: seq<nat>, n: nat, c: nat, m: nat)
    requires AtRest(slots) && |xs| == |js| == n && |tables| == n + 1 && |tables[0]| == TABLE && IdsDistinct(tables[0])
    requires forall i | 0 <= i < n :: Starves(slots, tables[i], xs[i], js[i], tables[i + 1], c, m)
    ensures !AdmittedWithin(n, c, m)
  {
    var states := seq(n + 1, _ => Leading(slots));
    forall i | 0 <= i < n
      ensures Passes(xs[i], states[i], tables[i], states[i + 1], tables[i + 1])
      ensures Asks(xs[i], js[i], HELD, c, m) && !Served(states[i], xs[i], js[i])
    {
      assert Starves(slots, tables[i], xs[i], js[i], tables[i + 1], c, m);
    }
    assert AskingRun(states, tables, xs, js, HELD, c, m);
  }

  /** Exactly from m * (c - 1) + 1 frames on, every contact that keeps its peak and keeps asking is
      admitted, or all slots are taken. */
  lemma AdmittedExactlyFrom(n: nat, c: nat, m: nat)
    requires 1 <= c <= 16 && 1 <= m < MAX_TOUCH
    ensures AdmittedWithin(n, c, m) <==> n > m * (c - 1)
  {
    if n > m * (c - 1) {
      forall states: seq<State>, tables: seq<Table>, xs: seq<Passage>, js: seq<nat>, q: u8
        | q != 0 && |xs| == n && AskingRun(states, tables, xs, js, q, c, m)
        ensures exists i :: 0 <= i < n && Served(states[i], xs[i], js[i])
      {
        AdmittedInTime(states, tables, xs, js, q, c, m);
      }
    } else {
      var slots := [Track(true, true, 255, 0, 0, 100, 100, 0, 0, 25600, 25600, 0, 0, LEADER, 1, 5000)]
        + seq(MAX_TOUCH - 1, _ => EMPTY);
      var tables, xs, js := NewcomersStarveAContact(slots, c, m);
      NeverServed(slots, tables[..n + 1], xs[..n], js[..n], n, c, m);
    }
  }
}
