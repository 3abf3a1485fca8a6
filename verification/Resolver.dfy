/** Region growing, centroids and coordinates as the driver runs them, over its owner map and queue. */
module Resolver {
  import opened Machine
  import opened Arithmetic
  import opened Grid
  import opened Pigeonhole
  import opened Sealing
  import opened Components
  import opened Zones
  import opened Peaks
  import opened PeakFilters
  import opened Centroids
  import opened Regions
  import opened Tables
  import Assigner
  import Tracks

  ghost function Unvisited(): (vis: seq<bool>)
    ensures |vis| == PIXELS && forall i | 0 <= i < PIXELS :: !vis[i]
  {
    seq(PIXELS, _ => false)
  }

  /** The cells of q, as a visited map. */
  ghost function Visited(q: seq<nat>): (vis: seq<bool>)
    ensures |vis| == PIXELS && forall i | 0 <= i < PIXELS :: vis[i] == (i in q)
  {
    seq(PIXELS, i requires 0 <= i < PIXELS => i in q)
  }

  /** The region of p grows in `room`; q is everything enqueued, the first `head` of it expanded. Sealed. */
  ghost predicate Growing(room: Frame, seed: nat, owner: seq<nat>, taken: seq<nat>, id: nat, q: seq<nat>, head: nat) {
    |owner| == |taken| == PIXELS && head <= |q| <= PIXELS
    && forall o {:trigger Open(o)} :: Open(o) ==> GrowFacts(room, seed, owner, taken, id, q, head)
  }

  ghost predicate GrowFacts(room: Frame, seed: nat, owner: seq<nat>, taken: seq<nat>, id: nat, q: seq<nat>, head: nat) {
    && Flooding(room, 1, Unvisited(), seed, Visited(q), q, head) && OwnedBy(owner, taken, q, id)
    && (forall i | 0 <= i < PIXELS :: owner[i] < id)
  }

  lemma GrowStarts(room: Frame, seed: nat, owner: seq<nat>, id: nat)
    requires seed < PIXELS && room[seed] >= 1 && |owner| == PIXELS && forall i | 0 <= i < PIXELS :: owner[i] < id
    ensures Growing(room, seed, owner, owner[seed := id], id, [seed], 0)
  {
    FloodStarts(room, 1, Unvisited(), seed);
    assert Unvisited()[seed := true] == Visited([seed]);
  }

  lemma GrowJoins(room: Frame, seed: nat, owner: seq<nat>, taken: seq<nat>, id: nat, q: seq<nat>, head: nat, b: nat)
    requires Growing(room, seed, owner, taken, id, q, head) && head < |q|
    requires b < PIXELS && taken[b] == 0 && id > 0 && room[b] >= 1 && Adjacent(q[head], b)
    ensures Growing(room, seed, owner, taken[b := id], id, q + [b], head) && |q| < PIXELS
  {
    assert Open(0);
    FloodGrows(room, 1, Unvisited(), seed, Visited(q), q, head, b);
    assert Visited(q)[b := true] == Visited(q + [b]);
  }

  lemma GrowExpanded(room: Frame, seed: nat, owner: seq<nat>, taken: seq<nat>, id: nat, q: seq<nat>, head: nat)
    requires Growing(room, seed, owner, taken, id, q, head) && head < |q|
    requires AllTried(room, Visited(q), q[head], 8)
    ensures Growing(room, seed, owner, taken, id, q, head + 1)
  {
    assert Open(0);
    FloodExpanded(room, 1, Unvisited(), seed, Visited(q), q, head);
  }

  lemma GrowEnds(room: Frame, seed: nat, owner: seq<nat>, taken: seq<nat>, id: nat, q: seq<nat>)
    requires Growing(room, seed, owner, taken, id, q, |q|)
    ensures IsComponent(room, 1, q, seed) && OwnedBy(owner, taken, q, id) && forall k | 0 <= k < |q| :: q[k] < PIXELS
  {
    assert Open(0);
    assert Closed(room, 1, Marked(Unvisited()));
    FloodEnds(room, 1, Unvisited(), seed, Visited(q), q);
  }

  lemma HeadOnGrid(room: Frame, seed: nat, owner: seq<nat>, taken: seq<nat>, id: nat, q: seq<nat>, head: nat)
    requires Growing(room, seed, owner, taken, id, q, head) && head < |q|
    ensures q[head] < PIXELS && InGrid(Row(q[head]), Col(q[head])) && Cell(Row(q[head]), Col(q[head])) == q[head]
  {
    assert Open(0);
    CellOfRowCol(q[head]);
  }

  class Resolver {
    const frame: array<s16>
    const owner: array<nat>
    const queue: array<nat>
    const spots: array<Spot>
    const pos: array<Tracks.Pos>
    var count: nat

    constructor (samples: array<s16>)
      requires samples.Length == PIXELS
      ensures Valid() && fresh(owner) && fresh(queue) && fresh(spots) && fresh(pos) && frame == samples
    {
      frame := samples;
      owner, queue := new nat[PIXELS], new nat[PIXELS];
      spots := new Spot[MAX_PEAKS](_ => Spot(0, 0, 0, 0, Tracks.Contact(0, false, false, 0, 0, 0, false, 0)));
      pos := new Tracks.Pos[Assigner.MAX_TOUCH](_ => Tracks.Pos(0, 0));
      count := 0;
    }

    ghost predicate Valid()
      reads this
    {
      && frame.Length == owner.Length == queue.Length == PIXELS && owner != queue
      && spots.Length == MAX_PEAKS && pos.Length == Assigner.MAX_TOUCH && count <= MAX_PEAKS
    }

    method CountSupport(r: int, c: int, t: int) returns (n: int)
      requires Valid()
      ensures n == Support(frame[..], r, c, t, 9)
    {
      n := 0;
      for dr: int := -1 to 2
        invariant n == Support(frame[..], r, c, t, 3 * (dr + 1))
      {
        for dc: int := -1 to 2
          invariant n == Support(frame[..], r, c, t, 3 * (dr + 1) + dc + 1)
        {
          NextSupport(frame[..], r, c, t, dr, dc);
          if dr != 0 || dc != 0 {
            var v := SampleAt(frame, r + dr, c + dc);
            if v >= t {
              n := n + 1;
            }
          }
        }
      }
    }

    method DoesJoin(cfg: ResolveConfig, p: Peak, t: int, r: nat, c: nat) returns (joins: bool)
      requires Valid()
      ensures joins == Joins(cfg, frame[..], p, t, r, c)
    {
      var v := SampleAt(frame, r, c);
      if v < t {
        return false;
      }
      if cfg.maxRadius != 0 && (Abs(r - p.r) > cfg.maxRadius || Abs(c - p.c) > cfg.maxRadius) {
        return false;
      }
      if cfg.cleanup {
        var n := CountSupport(r, c, t);
        if n < 2 {
          return false;
        }
      }
      return true;
    }

    /** Looks one step in direction d from the cell at the head. */
    method Look(cfg: ResolveConfig, p: Peak, t: int, id: nat, ci: nat, d: nat, tail0: nat, ghost room: Frame,
                ghost owner0: seq<nat>, ghost head: nat)
      returns (tail: nat, quiet: bool)
      requires Valid() && OnGrid(p) && 0 < id && head < tail0 <= PIXELS && ci == queue[head] < PIXELS && d < 8
      requires |owner0| == PIXELS && room == Room(cfg, frame[..], p, t, owner0)
      requires Growing(room, CellOf(p), owner0, owner[..], id, queue[..tail0], head)
      modifies owner, queue
      ensures tail0 <= tail <= PIXELS && queue[..tail0] == old(queue[..tail0])
      ensures Growing(room, CellOf(p), owner0, owner[..], id, queue[..tail], head)
      ensures Tried(room, 1, Visited(queue[..tail]), ci, d)
      ensures quiet == Quiet(owner0, CellOf(p), ci, d)
    {
      tail, quiet := tail0, true;
      var nr, nc := Row(ci) + DR[d], Col(ci) + DC[d];
      ghost var q, taken := queue[..tail], owner[..];
      if InGrid(nr, nc) {
        var ni := Cell(nr, nc);
        MemberOwned(room, CellOf(p), owner0, taken, id, q, head, ni);
        if owner[ni] != 0 {
          quiet := owner[ni] == id;
        } else {
          var joins := DoesJoin(cfg, p, t, nr, nc);
          if joins {
            NeighbourIsAdjacent(ci, d);
            GrowJoins(room, CellOf(p), owner0, taken, id, q, head, ni);
            owner[ni] := id;
            queue[tail] := ni;
            tail := tail + 1;
            assert queue[..tail] == q + [ni] && owner[..] == taken[ni := id];
          }
        }
      }
    }

    /** Enqueues the free neighbours of the cell at the head that join. */
    method Spread(cfg: ResolveConfig, p: Peak, t: int, id: nat, ci: nat, tail0: nat, ghost room: Frame,
                  ghost owner0: seq<nat>, ghost head: nat)
      returns (tail: nat, quiet: bool)
      requires Valid() && OnGrid(p) && 0 < id && head < tail0 <= PIXELS && ci == queue[head] < PIXELS
      requires |owner0| == PIXELS && room == Room(cfg, frame[..], p, t, owner0)
      requires Growing(room, CellOf(p), owner0, owner[..], id, queue[..tail0], head)
      modifies owner, queue
      ensures tail0 <= tail <= PIXELS && queue[..tail0] == old(queue[..tail0])
      ensures Growing(room, CellOf(p), owner0, owner[..], id, queue[..tail], head + 1)
      ensures quiet <==> forall d | 0 <= d < 8 :: Quiet(owner0, CellOf(p), ci, d)
    {
      tail, quiet := tail0, true;
      ghost var f := frame[..];
      for d := 0 to 8
        invariant tail0 <= tail <= PIXELS && queue[..tail0] == old(queue[..tail0]) && frame[..] == f
        invariant Growing(room, CellOf(p), owner0, owner[..], id, queue[..tail], head)
        invariant AllTried(room, Visited(queue[..tail]), ci, d)
        invariant quiet <==> forall e | 0 <= e < d :: Quiet(owner0, CellOf(p), ci, e)
      {
        assert ci == queue[..tail0][head];
        ghost var q := queue[..tail];
        var calm;
        tail, calm := Look(cfg, p, t, id, ci, d, tail, room, owner0, head);
        NextTried(room, q, queue[..tail], ci, d);
        quiet := quiet && calm;
      }
      assert ci == queue[..tail0][head];
      GrowExpanded(room, CellOf(p), owner0, owner[..], id, queue[..tail], head);
    }

    /** The region starts with the peak's own cell, whoever it belonged to. */
    method Begin(cfg: ResolveConfig, p: Peak, t: int, id: nat)
      requires Valid() && OnGrid(p) && 0 < id && forall i | 0 <= i < PIXELS :: owner[i] < id
      modifies owner, queue
      ensures Growing(Room(cfg, frame[..], p, t, old(owner[..])), CellOf(p), old(owner[..]), owner[..],
                      id, queue[..1], 0)
    {
      ghost var owner0 := owner[..];
      var seed := CellOf(p);
      GrowStarts(Room(cfg, frame[..], p, t, owner0), seed, owner0, id);
      owner[seed] := id;
      queue[0] := seed;
      assert owner[..] == owner0[seed := id] && queue[..1] == [seed];
    }

    /** Expands the cell at the head of the queue and adds it to the sums. */
    method Expand(cfg: ResolveConfig, p: Peak, t: int, id: nat, head: nat, tail0: nat, total0: int, wCol0: int,
                  wRow0: int, ghost owner0: seq<nat>)
      returns (tail: nat, total: int, wCol: int, wRow: int, quiet: bool)
      requires Valid() && OnGrid(p) && 0 < id && head < tail0 <= PIXELS && |owner0| == PIXELS
      requires Growing(Room(cfg, frame[..], p, t, owner0), CellOf(p), owner0, owner[..], id, queue[..tail0], head)
      requires Summed(frame[..], queue[..head], total0, wCol0, wRow0)
      modifies owner, queue
      ensures tail0 <= tail <= PIXELS && queue[..head + 1] == old(queue[..head]) + [old(queue[head])]
      ensures Growing(Room(cfg, frame[..], p, t, owner0), CellOf(p), owner0, owner[..], id, queue[..tail], head + 1)
      ensures Summed(frame[..], queue[..head + 1], total, wCol, wRow)
      ensures quiet <==> forall d | 0 <= d < 8 :: Quiet(owner0, CellOf(p), old(queue[head]), d)
    {
      ghost var done, was := queue[..head], queue[..tail0];
      var ci := queue[head];
      HeadOnGrid(Room(cfg, frame[..], p, t, owner0), CellOf(p), owner0, owner[..], id, was, head);
      assert was[..head] == done && was[head] == ci;
      total, wCol, wRow := AddCell(Row(ci), Col(ci), total0, wCol0, wRow0, done);
      tail, quiet := Spread(cfg, p, t, id, ci, tail0, Room(cfg, frame[..], p, t, owner0), owner0, head);
      HeadStays(was, queue[..tail], done, ci, head);
      assert queue[..head + 1] == queue[..tail][..head + 1];
    }

    /** Grows the region of p from its cell and sums it up. */
    method Grow(cfg: ResolveConfig, p: Peak, t: int, id: nat)
      returns (total: int, wCol: int, wRow: int, area: nat, clean: bool, ghost q: seq<nat>)
      requires Valid() && OnGrid(p) && 0 < id && forall i | 0 <= i < PIXELS :: owner[i] < id
      modifies owner, queue
      ensures (forall k | 0 <= k < |q| :: q[k] < PIXELS) && OwnedBy(old(owner[..]), owner[..], q, id)
      ensures IsComponent(Room(cfg, frame[..], p, t, old(owner[..])), 1, q, CellOf(p))
      ensures Summed(frame[..], q, total, wCol, wRow) && area == |q|
      ensures clean <==> QuietUpTo(old(owner[..]), CellOf(p), q, |q|)
    {
      ghost var owner0, f, seed := owner[..], frame[..], CellOf(p);
      ghost var room := Room(cfg, f, p, t, owner0);
      Begin(cfg, p, t, id);
      var head, tail := 0, 1;
      total, wCol, wRow, area, clean := 0, 0, 0, 0, true;
      while head != tail
        invariant head <= tail <= PIXELS && tail > 0
        invariant Growing(room, seed, owner0, owner[..], id, queue[..tail], head)
        invariant Summed(f, queue[..head], total, wCol, wRow) && area == head
        invariant clean <==> QuietUpTo(owner0, seed, queue[..head], head)
        decreases PIXELS - head
      {
        OneMoreQuiet(owner0, seed, queue[..head], queue[head]);
        var calm;
        tail, total, wCol, wRow, calm := Expand(cfg, p, t, id, head, tail, total, wCol, wRow, owner0);
        clean := clean && calm;
        head, area := head + 1, area + 1;
      }
      q := queue[..tail];
      GrowEnds(room, seed, owner0, owner[..], id, q);
    }

    /** Adds one cell to the sums. */
    method AddCell(r: nat, c: nat, total0: int, wCol0: int, wRow0: int, ghost cells: seq<nat>)
      returns (total: int, wCol: int, wRow: int)
      requires Valid() && InGrid(r, c) && Summed(frame[..], cells, total0, wCol0, wRow0)
      ensures Summed(frame[..], cells + [Cell(r, c)], total, wCol, wRow)
    {
      var sig := SampleAt(frame, r, c);
      OneMoreSummed(frame[..], cells, Cell(r, c), total0, wCol0, wRow0, sig);
      total, wCol, wRow := total0 + sig, wCol0 + c * 128 * sig, wRow0 + r * 128 * sig;
    }

    /** Adds the cell at (r, c) if it carries signal. */
    method AddPositive(r: int, c: int, total0: int, wCol0: int, wRow0: int, area0: nat, ghost cells: seq<nat>)
      returns (total: int, wCol: int, wRow: int, area: nat)
      requires Valid() && Summed(frame[..], cells, total0, wCol0, wRow0) && area0 == |cells|
      ensures var w := cells + PositiveCell(frame[..], r, c); Summed(frame[..], w, total, wCol, wRow) && area == |w|
    {
      total, wCol, wRow, area := total0, wCol0, wRow0, area0;
      var sig := SampleAt(frame, r, c);
      if sig > 0 {
        total, wCol, wRow := AddCell(r, c, total, wCol, wRow, cells);
        area := area + 1;
      } else {
        assert cells + PositiveCell(frame[..], r, c) == cells;
      }
    }

    /** One more cell of a row of the window. */
    method AddNext(r: int, c: int, n: nat, total0: int, wCol0: int, wRow0: int, area0: nat, ghost cells: seq<nat>)
      returns (total: int, wCol: int, wRow: int, area: nat)
      requires Valid() && forall i | 0 <= i < |cells| :: cells[i] < PIXELS
      requires var w := WithRow(cells, frame[..], r, c, n); Summed(frame[..], w, total0, wCol0, wRow0) && area0 == |w|
      ensures var w := WithRow(cells, frame[..], r, c, n + 1); Summed(frame[..], w, total, wCol, wRow) && area == |w|
    {
      NextInRow(cells, frame[..], r, c, n);
      total, wCol, wRow, area :=
        AddPositive(r, c + n - 1, total0, wCol0, wRow0, area0, WithRow(cells, frame[..], r, c, n));
    }

    method SumRow(r: int, c: int, total0: int, wCol0: int, wRow0: int, area0: nat, ghost cells: seq<nat>)
      returns (total: int, wCol: int, wRow: int, area: nat)
      requires Valid() && Summed(frame[..], cells, total0, wCol0, wRow0) && area0 == |cells|
      requires forall i | 0 <= i < |cells| :: cells[i] < PIXELS
      ensures var w := WithRow(cells, frame[..], r, c, 3); Summed(frame[..], w, total, wCol, wRow) && area == |w|
    {
      ghost var f, w := frame[..], cells;
      total, wCol, wRow, area := total0, wCol0, wRow0, area0;
      for n := 0 to 3
        invariant w == WithRow(cells, f, r, c, n) && Summed(f, w, total, wCol, wRow) && area == |w|
      {
        total, wCol, wRow, area := AddNext(r, c, n, total, wCol, wRow, area, cells);
        w := WithRow(cells, f, r, c, n + 1);
      }
    }

    /** One more row of the window. */
    method SumNextRow(p: Peak, m: nat, total0: int, wCol0: int, wRow0: int, area0: nat)
      returns (total: int, wCol: int, wRow: int, area: nat)
      requires Valid() && OnGrid(p)
      requires var w := Window(frame[..], p.r, p.c, m); Summed(frame[..], w, total0, wCol0, wRow0) && area0 == |w|
      ensures var w := Window(frame[..], p.r, p.c, m + 1); Summed(frame[..], w, total, wCol, wRow) && area == |w|
    {
      NextRow(frame[..], p.r, p.c, m);
      total, wCol, wRow, area :=
        SumRow(p.r + m - 1, p.c, total0, wCol0, wRow0, area0, Window(frame[..], p.r, p.c, m));
    }

    /** Sums up the positive cells of the 3 by 3 window. */
    method SumWindow(p: Peak) returns (total: int, wCol: int, wRow: int, area: nat)
      requires Valid() && OnGrid(p)
      ensures var w := Window(frame[..], p.r, p.c, 3); Summed(frame[..], w, total, wCol, wRow) && area == |w|
    {
      total, wCol, wRow, area := 0, 0, 0, 0;
      ghost var f, w: seq<nat> := frame[..], [];
      for m := 0 to 3
        invariant w == Window(f, p.r, p.c, m) && Summed(f, w, total, wCol, wRow) && area == |w|
      {
        total, wCol, wRow, area := SumNextRow(p, m, total, wCol, wRow, area);
        w := Window(f, p.r, p.c, m + 1);
      }
    }

    /** The contact of one peak. */
    method ResolvePeak(cfg: ResolveConfig, p: Peak, index: nat) returns (s: Spot, ghost q: seq<nat>)
      requires Valid() && cfg.Valid() && OnGrid(p) && p.zoneIndex < 0x100
      requires OwnedBelow(owner[..], index + 1)
      modifies owner, queue
      ensures Resolves(cfg, frame[..], p, index, old(owner[..]), q, s)
      ensures OwnedBy(old(owner[..]), owner[..], q, index + 1)
    {
      var total, wCol, wRow, clean, area;
      ghost var owner0 := owner[..];
      var t := Threshold(cfg.peakThreshold, cfg.numer, cfg.shift, p.z);
      total, wCol, wRow, area, clean, q := Grow(cfg, p, t, index + 1);
      if !clean {
        total, wCol, wRow, area := SumWindow(p);
      }
      ghost var cells := CellsUsed(frame[..], p, owner0, q);
      CellsOnGrid(cells);
      SumsAre(frame[..], cells, total, wCol, wRow);
      WeightedBetween(frame[..], cells, true, 0, 59);
      s := Spot(CentroidOf(wCol, total, p.c), CentroidOf(wRow, total, p.r), area, index, ContactOf(p, total));
      assert s == SpotOver(frame[..], p, index, cells);
      if s.contact.isEdge {
        s := s.(x := Compensated(cfg.edge, 59, s.x), y := Compensated(cfg.edge, 39, s.y));
      }
    }

    /** Every peak's contact, in table order; earlier peaks own their cells first. */
    method ResolveAll(cfg: ResolveConfig, peaks: seq<Peak>) returns (ghost work: Work)
      requires Valid() && cfg.Valid() && |peaks| <= MAX_PEAKS && AllOnGrid(peaks)
      modifies owner, queue, spots, `count
      ensures Valid() && count == |peaks| && Resolved(cfg, frame[..], peaks, work, spots[..count])
    {
      ClearOwners();
      count := 0;
      ghost var f := frame[..];
      work := Work([owner[..]], []);
      NothingResolved(cfg, f, owner[..]);
      assert peaks[..0] == [] && spots[..0] == [];
      for i := 0 to |peaks|
        invariant Valid() && count == i && frame[..] == f && OwnedBelow(owner[..], i + 1)
        invariant Resolved(cfg, f, peaks[..i], work, spots[..count]) && work.owners[i] == owner[..]
      {
        work := ResolveNext(cfg, peaks, i, work);
      }
      assert peaks[..|peaks|] == peaks;
    }

    method ResolveNext(cfg: ResolveConfig, peaks: seq<Peak>, i: nat, ghost work: Work) returns (ghost work': Work)
      requires Valid() && cfg.Valid() && i < |peaks| <= MAX_PEAKS && AllOnGrid(peaks) && count == i
      requires OwnedBelow(owner[..], i + 1)
      requires Resolved(cfg, frame[..], peaks[..i], work, spots[..count]) && work.owners[i] == owner[..]
      modifies owner, queue, spots, `count
      ensures Valid() && count == i + 1 && OwnedBelow(owner[..], i + 2)
      ensures Resolved(cfg, frame[..], peaks[..i + 1], work', spots[..count]) && work'.owners[i + 1] == owner[..]
    {
      ghost var before, done := owner[..], spots[..count];
      var s;
      ghost var q;
      s, q := ResolvePeak(cfg, peaks[i], i);
      spots[count] := s;
      count := count + 1;
      assert spots[..count] == done + [s];
      OneMoreResolved(cfg, frame[..], peaks, i, work, done, before, owner[..], q, s);
      work' := Work(work.owners + [owner[..]], work.regions + [q]);
    }

    method ClearOwners()
      requires Valid()
      modifies owner
      ensures forall k | 0 <= k < PIXELS :: owner[k] == 0
    {
      for i := 0 to PIXELS
        invariant forall k | 0 <= k < i :: owner[k] == 0
      {
        owner[i] := 0;
      }
    }

    /** More contacts than slots: the strongest stay. */
    method Cut() returns (ghost dropped: multiset<Spot>)
      requires Valid()
      modifies spots, `count
      ensures Valid() && count == Min(old(count), Assigner.MAX_TOUCH)
      ensures KeepsStrongest(SumOf(), multiset(old(spots[..count])), spots[..count], dropped)
      ensures old(count) <= Assigner.MAX_TOUCH ==> spots[..count] == old(spots[..count])
    {
      dropped := multiset{};
      ghost var was := spots[..count];
      if count > Assigner.MAX_TOUCH {
        SelectionSort(spots, count, SumOf());
        ghost var sorted := spots[..count];
        CutKeepsStrongest(SumOf(), multiset(was), sorted, Assigner.MAX_TOUCH);
        dropped := multiset(sorted[Assigner.MAX_TOUCH..]);
        count := Assigner.MAX_TOUCH;
        assert spots[..count] == sorted[..Assigner.MAX_TOUCH];
      }
    }

    method PlaceOne(cfg: ResolveConfig, i: nat, cnt0: nat, ghost was: seq<Spot>) returns (cnt: nat)
      requires Valid() && cnt0 <= i < |was| == count <= Assigner.MAX_TOUCH && spots[i] == was[i]
      requires spots[..cnt0] == Filter(was[..i], Accepted(cfg))
      requires forall k | 0 <= k < cnt0 :: pos[k] == ScreenOf(spots[k])
      modifies spots, pos
      ensures cnt <= i + 1 && forall k | i < k < count :: spots[k] == old(spots[k])
      ensures spots[..cnt] == Filter(was[..i + 1], Accepted(cfg))
      ensures forall k | 0 <= k < cnt :: pos[k] == ScreenOf(spots[k])
    {
      cnt := cnt0;
      assert was[..i + 1][..i] == was[..i];
      var rejects, place := Locate(cfg, spots[i]);
      if !rejects {
        spots[cnt], pos[cnt] := spots[i], place;
        cnt := cnt + 1;
      }
    }

    /** Where a contact lies on the screen, and whether it is too weak for the border there. */
    method Locate(cfg: ResolveConfig, s: Spot) returns (rejects: bool, place: Tracks.Pos)
      ensures rejects == !Accepted(cfg)(s) && place == ScreenOf(s)
    {
      var x, y := ScreenX(s.x), ScreenY(s.y);
      var nearEdge := x < cfg.rejectMargin || x > 2560 - cfg.rejectMargin
        || y < cfg.rejectMargin || y > 1600 - cfg.rejectMargin;
      rejects, place := cfg.rejectEnabled && nearEdge && s.contact.signalSum < cfg.rejectMinSignal, Tracks.Pos(x, y);
    }

    /** Screen coordinates; weak contacts at the border are dropped. */
    method Place(cfg: ResolveConfig)
      requires Valid() && count <= Assigner.MAX_TOUCH
      modifies spots, pos, `count
      ensures Valid() && count <= old(count) && spots[..count] == Filter(old(spots[..count]), Accepted(cfg))
      ensures forall k | 0 <= k < count :: pos[k] == ScreenOf(spots[k])
    {
      ghost var was := spots[..count];
      var n, cnt := count, 0;
      for i := 0 to n
        invariant count == n && 0 <= cnt <= i && (forall k | i <= k < n :: spots[k] == was[k])
        invariant spots[..cnt] == Filter(was[..i], Accepted(cfg))
        invariant forall k | 0 <= k < cnt :: pos[k] == ScreenOf(spots[k])
      {
        cnt := PlaceOne(cfg, i, cnt, was);
      }
      assert was[..n] == was;
      count := cnt;
    }

    /** The contacts of all peaks, or the strongest of them. */
    method Choose(cfg: ResolveConfig, peaks: seq<Peak>)
      returns (ghost work: Work, ghost all: seq<Spot>, ghost kept: seq<Spot>, ghost dropped: multiset<Spot>)
      requires Valid() && cfg.Valid() && |peaks| <= MAX_PEAKS && AllOnGrid(peaks)
      modifies owner, queue, spots, `count
      ensures Valid() && count <= Assigner.MAX_TOUCH && kept == spots[..count] && HandedOn(peaks, kept)
      ensures Resolved(cfg, frame[..], peaks, work, all) && KeepsStrongest(SumOf(), multiset(all), kept, dropped)
      ensures FillsSlots(all, kept)
    {
      work := ResolveAll(cfg, peaks);
      all := spots[..count];
      dropped := Cut();
      kept := spots[..count];
      AllHandedOn(cfg, frame[..], peaks, work, all);
      KeptOutrankDropped(SumOf(), multiset(all), kept, dropped);
      PartHandedOn(peaks, all, kept);
    }

    /** The contacts handed to the tracker: at most one per peak, the strongest ones, on the screen. */
    method Resolve(cfg: ResolveConfig, peaks: seq<Peak>)
      returns (ghost work: Work, ghost all: seq<Spot>, ghost kept: seq<Spot>, ghost dropped: multiset<Spot>)
      requires Valid() && cfg.Valid() && |peaks| <= MAX_PEAKS && AllOnGrid(peaks)
      modifies owner, queue, spots, pos, `count
      ensures Valid() && count <= Assigner.MAX_TOUCH
      ensures Resolved(cfg, frame[..], peaks, work, all) && KeepsStrongest(SumOf(), multiset(all), kept, dropped)
      ensures FillsSlots(all, kept)
      ensures spots[..count] == Filter(kept, Accepted(cfg)) && HandedOn(peaks, spots[..count])
      ensures forall k | 0 <= k < count :: pos[k] == ScreenOf(spots[k]) && Tracks.OnScreen(pos[k])
    {
      work, all, kept, dropped := Choose(cfg, peaks);
      Place(cfg);
      FilterCounts(kept, Accepted(cfg));
      PartHandedOn(peaks, kept, spots[..count]);
      forall k | 0 <= k < count ensures Tracks.OnScreen(pos[k]) {
        assert spots[..count][k] == spots[k];
        SensorOnScreen(spots[k].x, spots[k].y);
      }
    }
  }

  /** As many contacts as there are slots for, all of them if they fit. */
  ghost predicate FillsSlots(all: seq<Spot>, kept: seq<Spot>) {
    |kept| == Min(|all|, Assigner.MAX_TOUCH) && (|all| <= Assigner.MAX_TOUCH ==> kept == all)
  }

  ghost predicate AllOnGrid(peaks: seq<Peak>) {
    forall k | 0 <= k < |peaks| :: OnGrid(peaks[k]) && peaks[k].zoneIndex < 0x100
  }

  /** The owner map before each peak and after the last, and the region of each. */
  datatype Work = Work(owners: seq<seq<nat>>, regions: seq<seq<nat>>)

  /** Contact k comes from peak k, over the region it found free. */
  ghost predicate ResolvedAt(cfg: ResolveConfig, f: Frame, peaks: seq<Peak>, w: Work, s: seq<Spot>, k: nat)
    requires cfg.Valid() && AllOnGrid(peaks) && k < |peaks| == |s| == |w.regions| && |w.owners| == |peaks| + 1
  {
    && |w.owners[k]| == PIXELS && Resolves(cfg, f, peaks[k], k, w.owners[k], w.regions[k], s[k])
    && OwnedBy(w.owners[k], w.owners[k + 1], w.regions[k], k + 1)
  }

  /** All contacts, starting from an empty owner map. Sealed. */
  ghost predicate Resolved(cfg: ResolveConfig, f: Frame, peaks: seq<Peak>, w: Work, s: seq<Spot>)
    requires cfg.Valid() && AllOnGrid(peaks)
  {
    && |s| == |w.regions| == |peaks| && |w.owners| == |peaks| + 1
    && forall o {:trigger Open(o)} :: Open(o) ==>
         && |w.owners[0]| == PIXELS && (forall i | 0 <= i < PIXELS :: w.owners[0][i] == 0)
         && forall k | 0 <= k < |peaks| :: ResolvedAt(cfg, f, peaks, w, s, k)
  }

  lemma NothingResolved(cfg: ResolveConfig, f: Frame, owner: seq<nat>)
    requires cfg.Valid() && |owner| == PIXELS && forall i | 0 <= i < PIXELS :: owner[i] == 0
    ensures Resolved(cfg, f, [], Work([owner], []), []) && OwnedBelow(owner, 1)
  {
  }

  /** Only peaks before this number own cells. */
  ghost predicate OwnedBelow(owner: seq<nat>, id: nat) {
    |owner| == PIXELS && forall k | 0 <= k < PIXELS :: owner[k] < id
  }

  lemma OneMoreResolved(cfg: ResolveConfig, f: Frame, peaks: seq<Peak>, i: nat, w: Work, done: seq<Spot>,
                        before: seq<nat>, after: seq<nat>, q: seq<nat>, s: Spot)
    requires cfg.Valid() && AllOnGrid(peaks) && i < |peaks| && Resolved(cfg, f, peaks[..i], w, done)
    requires w.owners[i] == before
    requires OwnedBelow(before, i + 1) && Resolves(cfg, f, peaks[i], i, before, q, s)
    requires OwnedBy(before, after, q, i + 1)
    ensures Resolved(cfg, f, peaks[..i + 1], Work(w.owners + [after], w.regions + [q]), done + [s])
    ensures OwnedBelow(after, i + 2)
  {
    assert Open(0);
    var w', n := Work(w.owners + [after], w.regions + [q]), i + 1;
    var front, spots := peaks[..n], done + [s];
    forall k | 0 <= k < n ensures ResolvedAt(cfg, f, front, w', spots, k) {
      if k < i {
        assert ResolvedAt(cfg, f, peaks[..i], w, done, k);
        StillResolved(cfg, f, peaks, i, w, done, after, q, s, k);
      }
    }
  }

  lemma StillResolved(cfg: ResolveConfig, f: Frame, peaks: seq<Peak>, i: nat, w: Work, done: seq<Spot>,
                      after: seq<nat>, q: seq<nat>, s: Spot, k: nat)
    requires cfg.Valid() && AllOnGrid(peaks) && k < i < |peaks|
    requires |done| == |w.regions| == i && |w.owners| == i + 1 && ResolvedAt(cfg, f, peaks[..i], w, done, k)
    ensures ResolvedAt(cfg, f, peaks[..i + 1], Work(w.owners + [after], w.regions + [q]), done + [s], k)
  {
  }

  /** Contacts of different peaks, on the sensor, with their peak's identity. */
  ghost predicate HandedOn(peaks: seq<Peak>, s: seq<Spot>) {
    && KeysApart(IndexOf(), s)
    && forall k | 0 <= k < |s| ::
         s[k].peakIndex < |peaks| && s[k].contact.peakId == peaks[s[k].peakIndex].id && OnSensor(s[k])
  }

  lemma AllHandedOn(cfg: ResolveConfig, f: Frame, peaks: seq<Peak>, w: Work, s: seq<Spot>)
    requires cfg.Valid() && AllOnGrid(peaks) && Resolved(cfg, f, peaks, w, s)
    ensures HandedOn(peaks, s)
  {
    assert Open(0);
    forall k | 0 <= k < |s| ensures s[k].peakIndex == k && s[k].contact.peakId == peaks[k].id && OnSensor(s[k]) {
      assert ResolvedAt(cfg, f, peaks, w, s, k);
      ResolvedOnSensor(cfg, f, peaks[k], k, w.owners[k], w.regions[k], s[k]);
    }
  }

  lemma PartHandedOn(peaks: seq<Peak>, s: seq<Spot>, t: seq<Spot>)
    requires HandedOn(peaks, s) && multiset(t) <= multiset(s)
    ensures HandedOn(peaks, t)
  {
    PartKeysApart(IndexOf(), s, t);
  }

  /** Distinct peak identities stay distinct on the contacts handed on. */
  lemma ContactIdsDistinct(peaks: seq<Peak>, s: seq<Spot>)
    requires HandedOn(peaks, s) && (forall i | 0 <= i < |peaks| :: peaks[i].id != 0)
    requires forall i, k | 0 <= i < k < |peaks| :: peaks[i].id != peaks[k].id
    ensures forall i | 0 <= i < |s| :: s[i].contact.peakId != 0
    ensures forall i, k | 0 <= i < k < |s| :: s[i].contact.peakId != s[k].contact.peakId
  {
    forall i, k | 0 <= i < k < |s| ensures s[i].contact.peakId != s[k].contact.peakId {
      assert IndexOf()(s[i]) != IndexOf()(s[k]);
      assert peaks[s[i].peakIndex].id != peaks[s[k].peakIndex].id;
    }
  }

  /** Expanding leaves the front of the queue alone. */
  lemma HeadStays(was: seq<nat>, now: seq<nat>, done: seq<nat>, ci: nat, head: nat)
    requires head < |was| <= |now| && now[..|was|] == was && was[..head] == done && was[head] == ci
    ensures now[..head + 1] == done + [ci]
  {
    assert now[..head + 1] == now[..|was|][..head + 1];
  }

  /** Signal and weighted coordinates summed over a list of cells. Sealed. */
  ghost predicate Summed(f: Frame, cells: seq<nat>, total: int, wCol: int, wRow: int) {
    forall o {:trigger Open(o)} :: Open(o) ==> SumsUp(f, cells, total, wCol, wRow)
  }

  ghost predicate SumsUp(f: Frame, cells: seq<nat>, total: int, wCol: int, wRow: int) {
    && (forall k | 0 <= k < |cells| :: cells[k] < PIXELS) && total == Signal(f, cells)
    && wCol == 128 * Weighted(f, cells, true) && wRow == 128 * Weighted(f, cells, false)
  }

  lemma SumsAre(f: Frame, cells: seq<nat>, total: int, wCol: int, wRow: int)
    requires Summed(f, cells, total, wCol, wRow)
    ensures SumsUp(f, cells, total, wCol, wRow)
  {
    assert Open(0);
  }

  lemma OneMoreSummed(f: Frame, cells: seq<nat>, cell: nat, total: int, wCol: int, wRow: int, sig: int)
    requires Summed(f, cells, total, wCol, wRow) && cell < PIXELS && sig == Max(f[cell], 0)
    ensures Summed(f, cells + [cell], total + sig, wCol + Col(cell) * 128 * sig, wRow + Row(cell) * 128 * sig)
  {
    assert Open(0);
    var all := cells + [cell];
    assert all[..|all| - 1] == cells;
    Scaled(Col(cell), sig, Weighted(f, cells, true));
    Scaled(Row(cell), sig, Weighted(f, cells, false));
  }

  lemma Scaled(x: int, sig: int, w: int)
    ensures 128 * w + x * 128 * sig == 128 * (w + x * sig)
  {
  }

  lemma OneMoreQuiet(owner: seq<nat>, seed: nat, cells: seq<nat>, cell: nat)
    requires |owner| == PIXELS
    ensures QuietUpTo(owner, seed, cells + [cell], |cells| + 1)
      <==> QuietUpTo(owner, seed, cells, |cells|) && forall d | 0 <= d < 8 :: Quiet(owner, seed, cell, d)
  {
    var all, n := cells + [cell], |cells|;
    assert all[n] == cell;
    if QuietUpTo(owner, seed, all, n + 1) {
      forall i, d | 0 <= i < n && 0 <= d < 8 ensures Quiet(owner, seed, cells[i], d) {
        assert Quiet(owner, seed, all[i], d);
      }
      forall d | 0 <= d < 8 ensures Quiet(owner, seed, cell, d) {
        assert Quiet(owner, seed, all[n], d);
      }
    }
  }

  lemma NextInRow(before: seq<nat>, f: Frame, r: int, c: int, n: nat)
    requires forall i | 0 <= i < |before| :: before[i] < PIXELS
    ensures WithRow(before, f, r, c, n + 1) == WithRow(before, f, r, c, n) + PositiveCell(f, r, c + n - 1)
  {
  }

  lemma NextRow(f: Frame, r: int, c: int, m: nat)
    ensures Window(f, r, c, m + 1) == WithRow(Window(f, r, c, m), f, r + m - 1, c, 3)
  {
  }

  lemma NextSupport(f: Frame, r: int, c: int, t: int, dr: int, dc: int)
    requires -1 <= dr <= 1 && -1 <= dc <= 1
    ensures Support(f, r, c, t, 3 * (dr + 1) + dc + 2)
      == Support(f, r, c, t, 3 * (dr + 1) + dc + 1)
        + if (dr != 0 || dc != 0) && FrameAt(f, r + dr, c + dc) >= t then 1 else 0
  {
    var k := 3 * (dr + 1) + dc + 1;
    assert k / 3 == dr + 1 && k % 3 == dc + 1;
  }

  /** A cell belongs to the region exactly when it was enqueued, the seed from the start, others
      only when there was room. */
  lemma MemberOwned(room: Frame, seed: nat, owner: seq<nat>, taken: seq<nat>, id: nat, q: seq<nat>, head: nat, b: nat)
    requires Growing(room, seed, owner, taken, id, q, head) && b < PIXELS
    ensures seed in q && seed < PIXELS && taken[b] == (if b in q then id else owner[b]) && owner[b] < id
    ensures b in q ==> room[b] >= 1
  {
    assert Open(0);
  }

  /** The first d directions from cell a were tried. */
  ghost predicate AllTried(room: Frame, vis: seq<bool>, a: nat, d: nat)
    requires |vis| == PIXELS && d <= 8
  {
    forall e | 0 <= e < d :: Tried(room, 1, vis, a, e)
  }

  lemma NextTried(room: Frame, q: seq<nat>, q': seq<nat>, a: nat, d: nat)
    requires |q| <= |q'| && q'[..|q|] == q && d < 8
    requires AllTried(room, Visited(q), a, d) && Tried(room, 1, Visited(q'), a, d)
    ensures AllTried(room, Visited(q'), a, d + 1)
  {
    VisitedGrows(q, q');
    forall e | 0 <= e < d ensures Tried(room, 1, Visited(q'), a, e) {
      TriedStays(room, 1, Visited(q), Visited(q'), a, e);
    }
  }

  lemma VisitedGrows(q: seq<nat>, q': seq<nat>)
    requires |q| <= |q'| && q'[..|q|] == q
    ensures Grown(Visited(q), Visited(q'))
  {
    forall i | 0 <= i < PIXELS && i in q ensures i in q' {
      assert q' == q'[..|q|] + q'[|q|..];
    }
  }
}
