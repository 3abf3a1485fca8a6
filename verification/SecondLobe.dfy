/** When the guard holds a detection back, in zones, peaks, distances and ages. */
module SecondLobe {
  import opened Machine
  import opened Arithmetic
  import opened Competition
  import opened SplitGuard

  /** Active slot i is reported and goes on with another detection than j, one that has a contact. */
  predicate GoesOn(s: Scene, j: nat, i: nat)
    requires s.Valid() && i < |s.active|
  {
    var slot := s.active[i];
    s.tracks[slot].reported && s.matches[slot] != j && 0 <= s.matches[slot] < |s.contacts|
  }

  /** Detection j carries the peak that slot followed so far, while the slot has gone on to another peak. */
  predicate LeftBehind(s: Scene, j: nat, i: nat)
    requires s.Valid() && j < |s.contacts| && i < |s.active| && GoesOn(s, j, i)
  {
    var former, now := s.prior[s.active[i]], s.contacts[s.matches[s.active[i]]].peakId;
    former != 0 && s.contacts[j].peakId == former && now != 0 && now != former
  }

  /** The guard remembers j's peak as left behind. */
  ghost predicate Remembered(s: Scene, j: nat, table: Table)
    requires j < |s.contacts|
  {
    exists k :: 0 <= k < |table| && table[k].peakId == s.contacts[j].peakId != 0 && table[k].residual
  }

  predicate SameZone(s: Scene, j: nat, i: nat)
    requires s.Valid() && j < |s.contacts| && i < |s.active| && GoesOn(s, j, i)
  {
    s.contacts[j].zone == s.contacts[s.matches[s.active[i]]].zone
  }

  /** Squared distance between detection j and the one the slot goes on with. */
  function Gap(s: Scene, j: nat, i: nat): int
    requires s.Valid() && j < |s.det| && i < |s.active| && GoesOn(s, j, i)
  {
    var dx, dy := s.det[j].x - s.det[s.matches[s.active[i]]].x, s.det[j].y - s.det[s.matches[s.active[i]]].y;
    dx * dx + dy * dy
  }

  /** Slot i is the only active slot that is reported. */
  ghost predicate OnlyReported(s: Scene) {
    s.Valid() && exists i :: IsOnlyReported(s, i)
  }

  ghost predicate IsOnlyReported(s: Scene, i: nat)
    requires s.Valid()
  {
    i < |s.active| && forall k | 0 <= k < |s.active| :: s.tracks[s.active[k]].reported <==> k == i
  }

  /** Detection j may be a second lobe of the finger in active slot i. In the same zone, or left behind by it,
      it takes the longer confirmation; in another zone the shorter one, and only beside a single touch.
      What was left behind counts at any distance, everything else only nearby. */
  ghost predicate MayBeLobe(s: Scene, j: nat, i: nat, table: Table)
    requires s.Valid() && j < |s.det| && j < |s.contacts| && i < |s.active|
  {
    GoesOn(s, j, i) &&
    var left := LeftBehind(s, j, i) || Remembered(s, j, table);
    if SameZone(s, j, i) || left then
      s.cfg.splitFrames > 1 && (left || Gap(s, j, i) <= Max(s.cfg.splitDist2, 1))
    else OnlyReported(s) && s.cfg.crossFrames > 1 && Gap(s, j, i) <= Max(s.cfg.crossDist2, 1)
  }

  /** Frames of confirmation it has to serve. */
  ghost function ToServe(s: Scene, j: nat, i: nat, table: Table): nat
    requires s.Valid() && j < |s.det| && j < |s.contacts| && i < |s.active| && GoesOn(s, j, i)
  {
    if SameZone(s, j, i) || LeftBehind(s, j, i) || Remembered(s, j, table) then s.cfg.splitFrames else s.cfg.crossFrames
  }

  // ----- these are the guard's own conditions

  lemma {:induction false} NoneReported(s: Scene, k: nat)
    requires s.Valid() && k <= |s.active|
    ensures Reported(s, k) == 0 <==> forall i | 0 <= i < k :: !s.tracks[s.active[i]].reported
  {
    if k > 0 {
      NoneReported(s, k - 1);
    }
  }

  lemma {:induction false} OneReportedExactlyWhen(s: Scene, k: nat)
    requires s.Valid() && k <= |s.active|
    ensures Reported(s, k) == 1 <==> exists i: nat :: SoleBefore(s, k, i)
  {
    if k > 0 {
      OneReportedExactlyWhen(s, k - 1);
      NoneReported(s, k - 1);
      if s.tracks[s.active[k - 1]].reported {
        if Reported(s, k) == 1 {
          assert SoleBefore(s, k, k - 1);
        }
        if i: nat :| SoleBefore(s, k, i) {
          assert i == k - 1;
        }
      } else {
        var init := k - 1;
        if i: nat :| SoleBefore(s, init, i) {
          assert SoleBefore(s, k, i);
        }
        if i: nat :| SoleBefore(s, k, i) {
          assert SoleBefore(s, init, i);
        }
      }
    }
  }

  ghost predicate SoleBefore(s: Scene, k: nat, i: nat)
    requires s.Valid() && k <= |s.active|
  {
    i < k && forall m | 0 <= m < k :: s.tracks[s.active[m]].reported <==> m == i
  }

  lemma OnlyReportedIsOne(s: Scene)
    requires s.Valid()
    ensures OnlyReported(s) <==> Reported(s, |s.active|) == 1
  {
    OneReportedExactlyWhen(s, |s.active|);
    forall i: nat ensures SoleBefore(s, |s.active|, i) <==> IsOnlyReported(s, i) {
    }
  }

  /** With one entry per peak the first one found is the one there is. */
  lemma RememberedIsFound(s: Scene, j: nat, table: Table)
    requires j < |s.contacts| && IdsDistinct(table)
    ensures Remembered(s, j, table) <==>
      Find(table, s.contacts[j].peakId, 0) < |table| && table[Find(table, s.contacts[j].peakId, 0)].residual
  {
    if k :| 0 <= k < |table| && table[k].peakId == s.contacts[j].peakId != 0 && table[k].residual {
      FindIs(table, s.contacts[j].peakId, k);
    }
  }

  lemma RelationMeans(s: Scene, j: nat, i: nat, table: Table)
    requires s.Valid() && j < |s.det| && j < |s.contacts| && i < |s.active| && IdsDistinct(table)
    ensures Opposes(s, j, i) <==> GoesOn(s, j, i)
    ensures GoesOn(s, j, i) ==>
      var r := RelationTo(s, j, i, table);
      && (r.sameZone <==> SameZone(s, j, i))
      && (r.handoff || r.continuing <==> LeftBehind(s, j, i) || Remembered(s, j, table))
  {
    RememberedIsFound(s, j, table);
  }

  lemma CompetesExactlyWhen(s: Scene, j: nat, i: nat, table: Table)
    requires s.Valid() && j < |s.det| && j < |s.contacts| && i < |s.active| && IdsDistinct(table)
    ensures Competes(s, j, i, Reported(s, |s.active|), table) <==> MayBeLobe(s, j, i, table)
    ensures MayBeLobe(s, j, i, table) ==> FramesFor(s.cfg, RelationTo(s, j, i, table)) == ToServe(s, j, i, table)
  {
    RelationMeans(s, j, i, table);
    OnlyReportedIsOne(s);
  }

  lemma {:induction false} JudgePasses(s: Scene, j: nat, reported: nat, i: nat, k: nat, table: Table)
    requires s.Valid() && j < |s.det| && j < |s.contacts| && i <= k <= |s.active|
    requires forall m | i <= m < k :: !Competes(s, j, m, reported, table)
    ensures Judge(s, j, reported, i, table) == Judge(s, j, reported, k, table)
    decreases k - i
  {
    if i < k {
      JudgePasses(s, j, reported, i + 1, k, table);
    }
  }

  lemma FirstCompeting(s: Scene, j: nat, reported: nat, table: Table, n: nat) returns (k: nat)
    requires s.Valid() && j < |s.det| && j < |s.contacts| && n < |s.active| && Competes(s, j, n, reported, table)
    ensures k < |s.active| && Competes(s, j, k, reported, table)
    ensures forall m | 0 <= m < k :: !Competes(s, j, m, reported, table)
  {
    k := 0;
    while !Competes(s, j, k, reported, table)
      invariant k <= n && forall m | 0 <= m < k :: !Competes(s, j, m, reported, table)
      decreases n - k
    {
      k := k + 1;
    }
  }

  /** A detection is held back exactly when it may be a second lobe of some touch and has not yet been seen
      for the frames of confirmation. */
  lemma HeldBackExactlyWhen(s: Scene, j: nat, table: Table)
    requires s.Valid() && j < |s.det| && j < |s.contacts| && IdsDistinct(table)
    ensures Judge(s, j, Reported(s, |s.active|), 0, table).deferred <==>
      exists i :: 0 <= i < |s.active| && MayBeLobe(s, j, i, table)
        && AgeSeen(table, s.contacts[j].peakId) < ToServe(s, j, i, table)
  {
    var reported := Reported(s, |s.active|);
    forall i | 0 <= i < |s.active|
      ensures Competes(s, j, i, reported, table) <==> MayBeLobe(s, j, i, table)
      ensures MayBeLobe(s, j, i, table) ==> ToServe(s, j, i, table) == LimitFor(s, j, table)
    {
      CompetesExactlyWhen(s, j, i, table);
      if Competes(s, j, i, reported, table) {
        LimitIsApplied(s, j, i, table);
      }
    }
    var looks := JudgeLooksOnce(s, j, reported, 0, table);
    if n: nat :| n < |s.active| && Competes(s, j, n, reported, table) {
      var k := FirstCompeting(s, j, reported, table, n);
      JudgePasses(s, j, reported, 0, k, table);
      assert MayBeLobe(s, j, k, table) && FramesFor(s.cfg, RelationTo(s, j, k, table)) == LimitFor(s, j, table) by {
        LimitIsApplied(s, j, k, table);
      }
    } else {
      JudgePasses(s, j, reported, 0, |s.active|, table);
    }
  }

  /** How long its peak has been competing, this frame included. */
  lemma AgeIsFramesSeen(table: Table, id: u8, k: nat)
    requires IdsDistinct(table) && id != 0
    ensures k < |table| && table[k].peakId == id ==>
      AgeSeen(table, id) == if table[k].seen || table[k].age == 255 then table[k].age as int else table[k].age + 1
    ensures (forall i | 0 <= i < |table| :: table[i].peakId != id) ==> AgeSeen(table, id) == 1
  {
    if k < |table| && table[k].peakId == id {
      FindIs(table, id, k);
    }
  }

  // ----- what the guard notes down

  /** Slot i has left the peak of detection j behind, and that has to be confirmed. */
  predicate HandsOff(s: Scene, j: nat, i: nat)
    requires s.Valid() && j < |s.contacts| && i < |s.active|
  {
    GoesOn(s, j, i) && LeftBehind(s, j, i) && s.cfg.splitFrames > 1
  }

  lemma HandOffCompetes(s: Scene, j: nat, i: nat, reported: nat, table: Table)
    requires s.Valid() && j < |s.det| && j < |s.contacts| && i < |s.active|
    ensures HandsOff(s, j, i) ==> Competes(s, j, i, reported, table)
    ensures Competes(s, j, i, reported, table) ==> (RelationTo(s, j, i, table).handoff <==> HandsOff(s, j, i))
  {
  }

  ghost predicate CompetesFrom(s: Scene, j: nat, i: nat, table: Table)
    requires s.Valid() && j < |s.det| && j < |s.contacts|
  {
    exists k :: i <= k < |s.active| && Competes(s, j, k, Reported(s, |s.active|), table)
  }

  ghost predicate HandsOffFrom(s: Scene, j: nat, i: nat)
    requires s.Valid() && j < |s.contacts|
  {
    exists k :: i <= k < |s.active| && HandsOff(s, j, k)
  }

  lemma {:induction false} JudgeNotes(s: Scene, j: nat, i: nat, table: Table) returns (left: bool)
    requires s.Valid() && j < |s.det| && j < |s.contacts| && i <= |s.active|
    ensures var v := Judge(s, j, Reported(s, |s.active|), i, table);
      && v.table == (if CompetesFrom(s, j, i, table) then Touched(table, Touch(s.contacts[j].peakId, left)) else table)
      && (left ==> HandsOffFrom(s, j, i)) && (!v.deferred && HandsOffFrom(s, j, i) ==> left)
    decreases |s.active| - i
  {
    left := false;
    if i < |s.active| {
      var reported, id := Reported(s, |s.active|), s.contacts[j].peakId;
      HandOffCompetes(s, j, i, reported, table);
      if !Competes(s, j, i, reported, table) {
        left := JudgeNotes(s, j, i + 1, table);
        NotFromHere(s, j, i, table);
      } else {
        left := HandsOff(s, j, i);
        if AgeSeen(table, id) >= FramesFor(s.cfg, RelationTo(s, j, i, table)) {
          left := NotesOn(s, j, i, table);
        }
      }
    }
  }

  lemma NotFromHere(s: Scene, j: nat, i: nat, table: Table)
    requires s.Valid() && j < |s.det| && j < |s.contacts| && i < |s.active|
    requires !Competes(s, j, i, Reported(s, |s.active|), table)
    ensures CompetesFrom(s, j, i, table) <==> CompetesFrom(s, j, i + 1, table)
    ensures HandsOffFrom(s, j, i) <==> HandsOffFrom(s, j, i + 1)
  {
    HandOffCompetes(s, j, i, Reported(s, |s.active|), table);
  }

  /** Once it has been seen long enough the guard looks at the other slots too. */
  lemma {:induction false} NotesOn(s: Scene, j: nat, i: nat, table: Table) returns (left: bool)
    requires s.Valid() && j < |s.det| && j < |s.contacts| && i < |s.active|
    requires Competes(s, j, i, Reported(s, |s.active|), table)
    requires AgeSeen(table, s.contacts[j].peakId) >= FramesFor(s.cfg, RelationTo(s, j, i, table))
    ensures var v := Judge(s, j, Reported(s, |s.active|), i, table);
      v.table == Touched(table, Touch(s.contacts[j].peakId, left)) && (left <==> HandsOffFrom(s, j, i))
    decreases |s.active| - i, 0
  {
    var reported, id, handoff := Reported(s, |s.active|), s.contacts[j].peakId, HandsOff(s, j, i);
    var after := Touched(table, Touch(id, handoff));
    HandOffCompetes(s, j, i, reported, table);
    LimitIsApplied(s, j, i, table);
    var later := JudgeNotes(s, j, i + 1, after);
    var looks := JudgeLooksOnce(s, j, reported, i + 1, after);
    looks := LookedAgain(s, j, i, table, looks);
    assert !Judge(s, j, reported, i + 1, after).deferred;
    TouchedTwice(table, id, handoff, later);
    left := handoff || (CompetesFrom(s, j, i + 1, after) && later);
    if k :| i + 1 <= k < |s.active| && HandsOff(s, j, k) {
      HandOffCompetes(s, j, k, reported, after);
      assert CompetesFrom(s, j, i + 1, after);
    }
    if HandsOffFrom(s, j, i) && !handoff {
      assert HandsOffFrom(s, j, i + 1);
    }
  }

  /** The guard notes a detection down exactly when it may be a second lobe; as left behind only if some slot
      left its peak behind, and in any case then when it lets the detection pass. */
  lemma NotedExactlyWhen(s: Scene, j: nat, table: Table) returns (left: bool)
    requires s.Valid() && j < |s.det| && j < |s.contacts| && IdsDistinct(table)
    ensures var v := Judge(s, j, Reported(s, |s.active|), 0, table);
      && v.table == (if exists i :: 0 <= i < |s.active| && MayBeLobe(s, j, i, table)
                     then Touched(table, Touch(s.contacts[j].peakId, left)) else table)
      && (left ==> HandsOffFrom(s, j, 0)) && (!v.deferred && HandsOffFrom(s, j, 0) ==> left)
  {
    left := JudgeNotes(s, j, 0, table);
    forall i | 0 <= i < |s.active|
      ensures Competes(s, j, i, Reported(s, |s.active|), table) <==> MayBeLobe(s, j, i, table)
    {
      CompetesExactlyWhen(s, j, i, table);
    }
  }

  predicate Needed(e: Entry) { e.peakId != 0 && e.seen }

  ghost predicate Stranger(table: Table, id: u8) { forall i | 0 <= i < |table| :: table[i].peakId != id }

  ghost predicate FirstToGive(table: Table, k: nat) {
    k < |table| && !Needed(table[k]) && forall i | 0 <= i < k :: Needed(table[i])
  }

  /** Noting a peak down ages its entry once a frame and remembers for good that it was left behind; a peak
      without entry takes the first one that is empty or was not needed yet in this frame. */
  lemma NotedAs(table: Table, t: Touch, k: nat)
    requires IdsDistinct(table) && t.id != 0 && k < |table|
    ensures table[k].peakId == t.id ==> Touched(table, t) == table[k := Entry(t.id,
      if table[k].seen || table[k].age == 255 then table[k].age else table[k].age + 1, true,
      table[k].residual || t.residual)]
    ensures Stranger(table, t.id) && FirstToGive(table, k) ==>
      Touched(table, t) == table[k := Entry(t.id, 1, true, t.residual)]
    ensures Stranger(table, t.id) && (forall i | 0 <= i < |table| :: Needed(table[i])) ==> Touched(table, t) == table
  {
    if table[k].peakId == t.id {
      FindIs(table, t.id, k);
    }
  }
}
