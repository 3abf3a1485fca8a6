/** Macro-zone detection: breadth-first floods into a shared arena, then the strongest-first table. */
module ZoneDetector {
  import opened Machine
  import opened Grid
  import opened Components
  import opened Zones
  import opened Tables
  import opened Pigeonhole
  import opened Sealing

  /** Zones found so far tile arena[..used] from the left, one whole component each. */
  ghost predicate Tiles(f: Frame, t: int, arena: seq<nat>, found: seq<Zone>, used: nat) {
    && used <= |arena|
    && (found == [] ==> used == 0)
    && (found != [] ==> found[0].start == 0 && found[|found| - 1].start + found[|found| - 1].area == used)
    && (forall k | 0 < k < |found| :: Abut(found, k))
    && (forall k | 0 <= k < |found| :: IsZone(f, t, arena, found[k]))
  }

  /** Zone k starts where its predecessor ends. */
  ghost predicate Abut(found: seq<Zone>, k: nat)
    requires 0 < k < |found|
  {
    found[k - 1].start + found[k - 1].area == found[k].start
  }

  /** The zone's arena slice is a whole component, and its record describes that slice. Sealed. */
  ghost predicate IsZone(f: Frame, t: int, arena: seq<nat>, z: Zone) {
    && z.area > 0 && z.start + z.area <= |arena|
    && forall k {:trigger Open(k)} :: Open(k) ==>
         && IsComponent(f, t, arena[z.start..z.start + z.area], arena[z.start])
         && Describes(f, z, arena[z.start..z.start + z.area])
  }

  /** The scan so far: everything visited lies in the arena, once, and no component is cut. */
  ghost predicate ScanFacts(f: Frame, t: int, vis: seq<bool>, arena: seq<nat>, found: seq<Zone>, used: nat)
    requires |vis| == PIXELS && used <= |arena|
  {
    CellFacts(f, t, vis, arena[..used]) && Closed(f, t, Marked(vis)) && Tiles(f, t, arena, found, used)
  }

  /** `cells` lists the visited cells, once each, all at or above the threshold. */
  ghost predicate CellFacts(f: Frame, t: int, vis: seq<bool>, cells: seq<nat>)
    requires |vis| == PIXELS
  {
    && Distinct(cells)
    && (forall i | 0 <= i < PIXELS :: vis[i] <==> i in cells)
    && (forall k | 0 <= k < |cells| :: cells[k] < PIXELS && f[cells[k]] >= t)
  }

  /** Sealed. */
  ghost predicate Scanned(f: Frame, t: int, vis: seq<bool>, arena: seq<nat>, found: seq<Zone>, used: nat) {
    && |vis| == PIXELS && used <= |arena|
    && forall k {:trigger Open(k)} :: Open(k) ==> ScanFacts(f, t, vis, arena, found, used)
  }

  lemma {:induction false} TileBefore(f: Frame, t: int, arena: seq<nat>, found: seq<Zone>, used: nat, k: nat)
    requires Tiles(f, t, arena, found, used) && k < |found|
    ensures found[k].start + found[k].area <= used
    decreases |found| - k
  {
    if k < |found| - 1 {
      TileBefore(f, t, arena, found, used, k + 1);
      assert Abut(found, k + 1);
    }
  }

  /** A zone only depends on its own slice of the arena. */
  lemma ZoneKept(f: Frame, t: int, arena: seq<nat>, arena': seq<nat>, z: Zone, used: nat)
    requires IsZone(f, t, arena, z) && z.start + z.area <= used <= |arena| && |arena'| == |arena|
    requires arena'[..used] == arena[..used]
    ensures IsZone(f, t, arena', z)
  {
    assert Open(0);
    var lo, hi := z.start, z.start + z.area;
    SliceKept(arena, arena', used, lo, hi);
  }

  lemma SliceKept(a: seq<nat>, b: seq<nat>, n: nat, lo: nat, hi: nat)
    requires lo < hi <= n <= |a| == |b| && b[..n] == a[..n]
    ensures b[lo..hi] == a[lo..hi] && b[lo] == a[lo]
  {
    forall i | lo <= i < hi ensures b[i] == a[i] {
      assert b[..n][i] == a[..n][i];
    }
  }

  lemma CloseZone(f: Frame, t: int, arena: seq<nat>, zone: Zone, q: seq<nat>)
    requires zone.area > 0 && zone.start + zone.area <= |arena| && arena[zone.start..zone.start + zone.area] == q
    requires IsComponent(f, t, q, arena[zone.start]) && Describes(f, zone, q)
    ensures IsZone(f, t, arena, zone)
  {
  }

  /** What was just flooded is a zone. */
  lemma FloodIsZone(f: Frame, t: int, before: seq<bool>, vis: seq<bool>, arena: seq<nat>, used: nat, seed: nat,
                    q: seq<nat>)
    requires Flooding(f, t, before, seed, vis, q, |q|) && Closed(f, t, Marked(before))
    requires q != [] && q[0] == seed && used + |q| <= |arena| && arena[used..used + |q|] == q
    ensures var zone := Summary(f, used, seed, q);
      IsZone(f, t, arena, zone) && zone.start == used && zone.area == |q|
  {
    var zone := Summary(f, used, seed, q);
    assert zone.start == used && zone.area == |q| && Describes(f, zone, q) by {
      assert q[0] in q;
      SummaryDescribes(f, used, seed, q);
    }
    assert arena[used] == arena[used..used + |q|][0];
    assert IsComponent(f, t, q, seed) by {
      FloodEnds(f, t, before, seed, vis, q);
    }
    CloseZone(f, t, arena, zone, q);
  }

  lemma TilesGrow(f: Frame, t: int, arena: seq<nat>, arena': seq<nat>, found: seq<Zone>, used: nat, zone: Zone)
    requires Tiles(f, t, arena, found, used) && |arena'| == |arena| && arena'[..used] == arena[..used]
    requires IsZone(f, t, arena', zone) && zone.start == used
    ensures Tiles(f, t, arena', found + [zone], used + zone.area)
  {
    forall k | 0 <= k < |found| ensures IsZone(f, t, arena', found[k]) {
      TileBefore(f, t, arena, found, used, k);
      ZoneKept(f, t, arena, arena', found[k], used);
    }
    forall k | 0 < k < |found + [zone]| ensures Abut(found + [zone], k) {
      if k < |found| {
        assert Abut(found, k);
      }
    }
  }

  lemma CellsGrow(f: Frame, t: int, before: seq<bool>, vis: seq<bool>, cells: seq<nat>, seed: nat, q: seq<nat>)
    requires Flooding(f, t, before, seed, vis, q, |q|) && CellFacts(f, t, before, cells)
    ensures CellFacts(f, t, vis, cells + q)
  {
    assert Open(0);
    assert forall k | 0 <= k < |q| :: q[k] !in cells;
  }

  lemma OpenScan(f: Frame, t: int, vis: seq<bool>, arena: seq<nat>, found: seq<Zone>, used: nat)
    requires Scanned(f, t, vis, arena, found, used)
    ensures CellFacts(f, t, vis, arena[..used]) && Closed(f, t, Marked(vis)) && Tiles(f, t, arena, found, used)
  {
    assert Open(0);
  }

  /** A finished flood of `q`, stored in the arena behind everything found before. */
  ghost predicate Flooded(f: Frame, t: int, before: seq<bool>, vis: seq<bool>, arena: seq<nat>, arena': seq<nat>,
                          found: seq<Zone>, used: nat, seed: nat, q: seq<nat>) {
    && Scanned(f, t, before, arena, found, used) && |arena'| == |arena|
    && Flooding(f, t, before, seed, vis, q, |q|) && q != [] && q[0] == seed
    && used + |q| <= |arena| && arena'[..used] == arena[..used] && arena'[used..used + |q|] == q
  }

  lemma FloodedZone(f: Frame, t: int, before: seq<bool>, vis: seq<bool>, arena: seq<nat>, arena': seq<nat>,
                    found: seq<Zone>, used: nat, seed: nat, q: seq<nat>)
    requires Flooded(f, t, before, vis, arena, arena', found, used, seed, q)
    ensures var zone := Summary(f, used, seed, q);
      IsZone(f, t, arena', zone) && zone.start == used && zone.area == |q|
    ensures Closed(f, t, Marked(vis))
  {
    assert Closed(f, t, Marked(before)) by {
      OpenScan(f, t, before, arena, found, used);
    }
    FloodIsZone(f, t, before, vis, arena', used, seed, q);
    FloodEnds(f, t, before, seed, vis, q);
  }

  lemma FloodedTiles(f: Frame, t: int, before: seq<bool>, vis: seq<bool>, arena: seq<nat>, arena': seq<nat>,
                     found: seq<Zone>, used: nat, seed: nat, q: seq<nat>)
    requires Flooded(f, t, before, vis, arena, arena', found, used, seed, q)
    ensures Tiles(f, t, arena', found + [Summary(f, used, seed, q)], used + |q|)
  {
    OpenScan(f, t, before, arena, found, used);
    FloodedZone(f, t, before, vis, arena, arena', found, used, seed, q);
    TilesGrow(f, t, arena, arena', found, used, Summary(f, used, seed, q));
  }

  lemma FloodedCells(f: Frame, t: int, before: seq<bool>, vis: seq<bool>, arena: seq<nat>, arena': seq<nat>,
                     found: seq<Zone>, used: nat, seed: nat, q: seq<nat>)
    requires Flooded(f, t, before, vis, arena, arena', found, used, seed, q)
    ensures CellFacts(f, t, vis, arena'[..used + |q|])
  {
    OpenScan(f, t, before, arena, found, used);
    CellsGrow(f, t, before, vis, arena[..used], seed, q);
    assert arena'[..used + |q|] == arena[..used] + q;
  }

  /** A finished flood adds one tile and keeps the scan invariant. */
  lemma ScanGrows(f: Frame, t: int, before: seq<bool>, vis: seq<bool>, arena: seq<nat>, arena': seq<nat>,
                  found: seq<Zone>, used: nat, seed: nat, q: seq<nat>)
    requires Flooded(f, t, before, vis, arena, arena', found, used, seed, q)
    ensures var zone := Summary(f, used, seed, q);
      Scanned(f, t, vis, arena', found + [zone], used + |q|) && IsZone(f, t, arena', zone)
  {
    FloodedZone(f, t, before, vis, arena, arena', found, used, seed, q);
    assert Tiles(f, t, arena', found + [Summary(f, used, seed, q)], used + |q|) by {
      FloodedTiles(f, t, before, vis, arena, arena', found, used, seed, q);
    }
    assert CellFacts(f, t, vis, arena'[..used + |q|]) by {
      FloodedCells(f, t, before, vis, arena, arena', found, used, seed, q);
    }
    CloseScan(f, t, vis, arena', found + [Summary(f, used, seed, q)], used + |q|);
  }

  lemma CloseScan(f: Frame, t: int, vis: seq<bool>, arena: seq<nat>, found: seq<Zone>, used: nat)
    requires |vis| == PIXELS && used <= |arena| && ScanFacts(f, t, vis, arena, found, used)
    ensures Scanned(f, t, vis, arena, found, used)
  {
  }

  /** Finished zones and the running queue never overlap, so the arena cannot run out. */
  lemma ArenaHasRoom(f: Frame, t: int, before: seq<bool>, vis: seq<bool>, arena: seq<nat>, found: seq<Zone>, used: nat,
                     seed: nat, q: seq<nat>, head: nat)
    requires Scanned(f, t, before, arena, found, used) && Flooding(f, t, before, seed, vis, q, head)
    ensures used + |q| <= PIXELS
  {
    assert Open(0);
    var cells := arena[..used];
    assert forall k | 0 <= k < |q| :: q[k] !in cells;
    DistinctBounded(cells + q, PIXELS);
  }

  function SumOf(z: Zone): int { z.sum }

  /** The whole frame is accounted for: `found` tiles the arena with whole components, and the
      arena lists every cell at or above the threshold exactly once. */
  ghost predicate Complete(f: Frame, t: int, arena: seq<nat>, found: seq<Zone>, used: nat) {
    && used <= |arena| && Distinct(arena[..used])
    && (forall i :: i in arena[..used] <==> 0 <= i < PIXELS && f[i] >= t)
    && Tiles(f, t, arena, found, used)
  }

  lemma ScanCompletes(f: Frame, t: int, vis: seq<bool>, arena: seq<nat>, found: seq<Zone>, used: nat)
    requires Scanned(f, t, vis, arena, found, used)
    requires forall i | 0 <= i < PIXELS && f[i] >= t :: vis[i]
    ensures Complete(f, t, arena, found, used)
  {
    assert Open(0);
    var cells := arena[..used];
    forall i | i in cells ensures 0 <= i < PIXELS && f[i] >= t {
      var k :| 0 <= k < |cells| && cells[k] == i;
      assert arena[k] == i;
    }
  }

  lemma ScanStarts(f: Frame, t: int, vis: seq<bool>, arena: seq<nat>)
    requires |vis| == PIXELS && forall i | 0 <= i < PIXELS :: !vis[i]
    ensures Scanned(f, t, vis, arena, [], 0)
  {
  }

  lemma {:induction false} TileOf(f: Frame, t: int, arena: seq<nat>, found: seq<Zone>, used: nat, i: nat, k: nat)
    returns (z: nat)
    requires Tiles(f, t, arena, found, used) && i < used && k < |found| && found[k].start <= i
    ensures k <= z < |found| && found[z].start <= i < found[z].start + found[z].area
    decreases |found| - k
  {
    if i < found[k].start + found[k].area {
      z := k;
    } else {
      if k + 1 < |found| {
        assert Abut(found, k + 1);
      }
      z := TileOf(f, t, arena, found, used, i, k + 1);
    }
  }

  lemma {:induction false} TilesOrdered(f: Frame, t: int, arena: seq<nat>, found: seq<Zone>, used: nat, a: nat, b: nat)
    requires Tiles(f, t, arena, found, used) && a < b < |found|
    ensures found[a].start + found[a].area <= found[b].start
    decreases b
  {
    if a + 1 < b {
      TilesOrdered(f, t, arena, found, used, a, b - 1);
      assert IsZone(f, t, arena, found[b - 1]);
    }
    assert Abut(found, b);
  }

  /** Cell i is listed in the zone's slice of the arena. */
  ghost predicate InZone(arena: seq<nat>, z: Zone, i: nat) {
    exists x :: z.start <= x < z.start + z.area && x < |arena| && arena[x] == i
  }

  lemma CellHasZone(f: Frame, t: int, arena: seq<nat>, found: seq<Zone>, used: nat, i: nat) returns (k: nat)
    requires Complete(f, t, arena, found, used) && i < PIXELS && f[i] >= t
    ensures k < |found| && InZone(arena, found[k], i)
  {
    assert i in arena[..used];
    var at :| 0 <= at < used && arena[..used][at] == i;
    assert arena[at] == i;
    k := TileOf(f, t, arena, found, used, at, 0);
  }

  lemma ZoneCellsReach(f: Frame, t: int, arena: seq<nat>, found: seq<Zone>, used: nat, k: nat, i: nat)
    requires Complete(f, t, arena, found, used) && k < |found| && InZone(arena, found[k], i)
    ensures i < PIXELS && f[i] >= t
  {
    TileBefore(f, t, arena, found, used, k);
    var x :| found[k].start <= x < found[k].start + found[k].area && x < |arena| && arena[x] == i;
    var cells := arena[..used];
    assert x < used && cells[x] == i;
    assert i in cells;
  }

  lemma ZonesDisjoint(f: Frame, t: int, arena: seq<nat>, found: seq<Zone>, used: nat, a: nat, b: nat, i: nat)
    requires Complete(f, t, arena, found, used) && a < b < |found|
    ensures !(InZone(arena, found[a], i) && InZone(arena, found[b], i))
  {
    TilesOrdered(f, t, arena, found, used, a, b);
    TileBefore(f, t, arena, found, used, b);
    forall x, y | found[a].start <= x < found[a].start + found[a].area
                 && found[b].start <= y < found[b].start + found[b].area
      ensures arena[x] != arena[y]
    {
      var cells := arena[..used];
      assert cells[x] == arena[x] && cells[y] == arena[y];
    }
  }

  /** Every cell at or above the threshold lies in exactly one zone, and no other cell in any. */
  lemma ZonesPartitionTheFrame(f: Frame, t: int, arena: seq<nat>, found: seq<Zone>, used: nat, i: nat)
    requires Complete(f, t, arena, found, used) && i < PIXELS
    ensures f[i] >= t <==> exists k :: 0 <= k < |found| && InZone(arena, found[k], i)
    ensures forall a, b | 0 <= a < b < |found| :: !(InZone(arena, found[a], i) && InZone(arena, found[b], i))
  {
    if f[i] >= t {
      var k := CellHasZone(f, t, arena, found, used, i);
    }
    forall k | 0 <= k < |found| && InZone(arena, found[k], i) ensures f[i] >= t {
      ZoneCellsReach(f, t, arena, found, used, k, i);
    }
    forall a, b | 0 <= a < b < |found|
      ensures !(InZone(arena, found[a], i) && InZone(arena, found[b], i))
    {
      ZonesDisjoint(f, t, arena, found, used, a, b, i);
    }
  }

  lemma InZoneIsMember(arena: seq<nat>, z: Zone, i: nat)
    requires z.start + z.area <= |arena|
    ensures InZone(arena, z, i) <==> i in arena[z.start..z.start + z.area]
  {
    var cells := arena[z.start..z.start + z.area];
    if InZone(arena, z, i) {
      var x :| z.start <= x < z.start + z.area && x < |arena| && arena[x] == i;
      assert cells[x - z.start] == i;
    }
    if i in cells {
      var x :| 0 <= x < |cells| && cells[x] == i;
      assert arena[z.start + x] == i;
    }
  }

  /** Two cells share a zone exactly when a walk above the threshold joins them. */
  lemma ZonesAreComponents(f: Frame, t: int, arena: seq<nat>, found: seq<Zone>, used: nat, k: nat, a: nat, b: nat)
    requires Complete(f, t, arena, found, used) && k < |found| && InZone(arena, found[k], a)
    ensures InZone(arena, found[k], b) <==> Connected(f, t, a, b)
  {
    var z := found[k];
    assert IsZone(f, t, arena, z);
    InZoneIsMember(arena, z, a);
    InZoneIsMember(arena, z, b);
    ZoneIsComponent(f, t, arena, z, a, b);
  }

  lemma ZoneIsComponent(f: Frame, t: int, arena: seq<nat>, z: Zone, a: nat, b: nat)
    requires IsZone(f, t, arena, z) && a in arena[z.start..z.start + z.area]
    ensures b in arena[z.start..z.start + z.area] <==> Connected(f, t, a, b)
  {
    var cells := arena[z.start..z.start + z.area];
    assert IsComponent(f, t, cells, arena[z.start]) by {
      assert Open(0);
    }
    ComponentOfMember(f, t, cells, arena[z.start], a, b);
  }

  /** The slice behind a zone record, as a list of distinct cells above the threshold. */
  lemma ZoneSlice(f: Frame, t: int, arena: seq<nat>, found: seq<Zone>, used: nat, k: nat, cells: seq<nat>)
    requires Complete(f, t, arena, found, used) && k < |found|
    requires found[k].start + found[k].area <= |arena|
    requires cells == arena[found[k].start..found[k].start + found[k].area]
    ensures IsZone(f, t, arena, found[k])
    ensures forall x | 0 <= x < |cells| :: cells[x] < PIXELS && f[cells[x]] >= t
  {
    var z := found[k];
    forall x | 0 <= x < |cells| ensures cells[x] < PIXELS && f[cells[x]] >= t {
      assert arena[z.start + x] == cells[x] && InZone(arena, z, cells[x]);
      ZoneCellsReach(f, t, arena, found, used, k, cells[x]);
    }
  }

  lemma ZoneSum(f: Frame, t: int, arena: seq<nat>, z: Zone)
    requires IsZone(f, t, arena, z)
    ensures Distinct(arena[z.start..z.start + z.area])
    ensures var cells := arena[z.start..z.start + z.area]; forall x | 0 <= x < |cells| :: cells[x] < PIXELS
    ensures z.sum == Signal(f, arena[z.start..z.start + z.area])
  {
    assert Open(0);
  }

  /** Every zone carries positive signal, and its sum fits 32 bits. */
  lemma ZoneSignal(f: Frame, t: int, arena: seq<nat>, found: seq<Zone>, used: nat, k: nat)
    requires Complete(f, t, arena, found, used) && k < |found| && t >= 1
    requires forall i | 0 <= i < PIXELS :: f[i] < 0x8000
    ensures found[k].area <= found[k].sum < 0x8000_0000
  {
    var z := found[k];
    TileBefore(f, t, arena, found, used, k);
    var cells := arena[z.start..z.start + z.area];
    ZoneSlice(f, t, arena, found, used, k, cells);
    ZoneSum(f, t, arena, z);
    SignalRange(f, cells);
    DistinctBounded(cells, PIXELS);
  }

  class ZoneDetector {
    const frame: array<s16>
    const visited: array<bool>
    const queue: array<nat>
    const arena: array<nat>
    const zones: array<Zone>
    var used: nat
    var count: nat

    constructor ()
      ensures Valid() && used == 0 && count == 0
      ensures fresh(frame) && fresh(visited) && fresh(queue) && fresh(arena) && fresh(zones)
    {
      frame := new s16[PIXELS];
      visited := new bool[PIXELS];
      queue := new nat[PIXELS];
      arena := new nat[PIXELS];
      zones := new Zone[MAX_ZONES](_ => Seeded(0, 0));
      used, count := 0, 0;
    }

    ghost predicate Valid()
      reads this
    {
      && frame.Length == visited.Length == queue.Length == arena.Length == 2400
      && zones.Length == MAX_ZONES && queue != arena && used <= PIXELS && count <= MAX_ZONES
    }

    /** Looks one step in direction d from cell ci. */
    method Look(t: s16, ci: nat, d: nat, tail0: nat, ghost before: seq<bool>, ghost seed: nat, ghost head: nat)
      returns (tail: nat)
      requires Valid() && head < tail0 <= PIXELS && ci == queue[head] && d < 8
      requires Flooding(frame[..], t, before, seed, visited[..], queue[..tail0], head)
      modifies visited, queue
      ensures tail0 <= tail <= PIXELS && queue[..tail0] == old(queue[..tail0])
      ensures Flooding(frame[..], t, before, seed, visited[..], queue[..tail], head)
      ensures Grown(old(visited[..]), visited[..]) && Tried(frame[..], t, visited[..], ci, d)
    {
      tail := tail0;
      var nr, nc := Row(ci) + DR[d], Col(ci) + DC[d];
      if InGrid(nr, nc) {
        var ni := Cell(nr, nc);
        if !visited[ni] && frame[ni] >= t {
          NeighbourIsAdjacent(ci, d);
          ghost var vis, q := visited[..], queue[..tail];
          FloodGrows(frame[..], t, before, seed, vis, q, head, ni);
          visited[ni] := true;
          queue[tail] := ni;
          tail := tail + 1;
          assert queue[..tail] == q + [ni] && visited[..] == vis[ni := true];
        }
      }
    }

    /** Enqueues the unvisited neighbours of cell ci that reach the threshold. */
    method Spread(t: s16, ci: nat, tail0: nat, ghost before: seq<bool>, ghost seed: nat, ghost head: nat)
      returns (tail: nat)
      requires Valid() && head < tail0 <= PIXELS && ci == queue[head]
      requires Flooding(frame[..], t, before, seed, visited[..], queue[..tail0], head)
      modifies visited, queue
      ensures tail0 <= tail <= PIXELS && queue[..tail0] == old(queue[..tail0])
      ensures Flooding(frame[..], t, before, seed, visited[..], queue[..tail], head + 1)
    {
      tail := tail0;
      for d := 0 to 8
        invariant tail0 <= tail <= PIXELS && queue[..tail0] == old(queue[..tail0])
        invariant Flooding(frame[..], t, before, seed, visited[..], queue[..tail], head)
        invariant forall e | 0 <= e < d :: Tried(frame[..], t, visited[..], ci, e)
      {
        assert ci == queue[..tail0][head];
        ghost var vis := visited[..];
        tail := Look(t, ci, d, tail, before, seed, head);
        forall e | 0 <= e < d ensures Tried(frame[..], t, visited[..], ci, e) {
          TriedStays(frame[..], t, vis, visited[..], ci, e);
        }
      }
      assert ci == queue[..tail0][head];
      FloodExpanded(frame[..], t, before, seed, visited[..], queue[..tail], head);
    }

    /** Appends a cell to the arena, which always has room for it. */
    method Store(ci: nat, ghost start: nat, ghost head: nat)
      requires Valid() && head < PIXELS && ci == queue[head] && used == start + head < PIXELS
      requires arena[start..used] == queue[..head]
      modifies `used, arena
      ensures Valid() && used == start + head + 1 && arena[start..used] == queue[..head + 1]
      ensures arena[..start] == old(arena[..start])
    {
      if used < PIXELS {
        arena[used] := ci;
        used := used + 1;
      }
      assert arena[start..used] == arena[start..start + head] + [ci];
    }

    /** Stores the cell at the head of the queue in the arena and expands it. */
    method Expand(t: s16, seed: nat, zone0: Zone, head: nat, tail0: nat, ghost before: seq<bool>, ghost start: nat)
      returns (zone: Zone, tail: nat)
      requires Valid() && head < tail0 && start + tail0 <= PIXELS && queue[0] == seed
      requires Flooding(frame[..], t, before, seed, visited[..], queue[..tail0], head)
      requires used == start + head && arena[start..used] == queue[..head]
      requires zone0 == Summary(frame[..], start, seed, queue[..head])
      modifies this`used, visited, queue, arena
      ensures Valid() && tail0 <= tail <= PIXELS && queue[0] == seed
      ensures Flooding(frame[..], t, before, seed, visited[..], queue[..tail], head + 1)
      ensures used == start + head + 1 && arena[start..used] == queue[..head + 1]
      ensures arena[..start] == old(arena[..start])
      ensures zone == Summary(frame[..], start, seed, queue[..head + 1])
    {
      var ci := queue[head];
      Store(ci, start, head);
      zone := Absorb(frame[..], zone0, ci);
      ghost var done := queue[..head + 1];
      assert done[..head] == queue[..head];
      assert done == queue[..tail0][..head + 1] && queue[0] == queue[..tail0][0];
      tail := Spread(t, ci, tail0, before, seed, head);
      assert queue[..head + 1] == queue[..tail0][..head + 1] && queue[0] == queue[..tail0][0];
    }

    /** Expands queued cells until none is left. */
    method Drain(t: s16, seed: nat, ghost before: seq<bool>, ghost arena0: seq<nat>, ghost found: seq<Zone>)
      returns (zone: Zone, ghost tail: nat)
      requires Valid() && queue[0] == seed < PIXELS
      requires Scanned(frame[..], t, before, arena0, found, used) && arena[..] == arena0
      requires Flooding(frame[..], t, before, seed, visited[..], queue[..1], 0)
      modifies this`used, visited, queue, arena
      ensures Valid() && 0 < tail && old(used) + tail <= PIXELS && queue[0] == seed
      ensures Flooding(frame[..], t, before, seed, visited[..], queue[..tail], tail)
      ensures used == old(used) + tail && arena[old(used)..used] == queue[..tail]
      ensures arena[..old(used)] == arena0[..old(used)]
      ensures zone == Summary(frame[..], old(used), seed, queue[..tail])
    {
      ghost var start := used;
      zone := Seeded(used, seed);
      var head, last := 0, 1;
      ArenaHasRoom(frame[..], t, before, visited[..], arena0, found, start, seed, queue[..last], head);
      while head != last
        invariant Valid() && head <= last && start + last <= PIXELS && last > 0 && queue[0] == seed
        invariant Flooding(frame[..], t, before, seed, visited[..], queue[..last], head)
        invariant used == start + head && arena[start..used] == queue[..head]
        invariant arena[..start] == arena0[..start]
        invariant zone == Summary(frame[..], start, seed, queue[..head])
        decreases PIXELS - head
      {
        zone, last := Expand(t, seed, zone, head, last, before, start);
        head := head + 1;
        ArenaHasRoom(frame[..], t, before, visited[..], arena0, found, start, seed, queue[..last], head);
      }
      tail := last;
    }

    /** Enqueues the seed alone. */
    method Begin(t: s16, seed: nat)
      requires Valid() && seed < PIXELS && frame[seed] >= t && !visited[seed]
      modifies visited, queue
      ensures queue[0] == seed
      ensures Flooding(frame[..], t, old(visited[..]), seed, visited[..], queue[..1], 0)
    {
      FloodStarts(frame[..], t, visited[..], seed);
      queue[0] := seed;
      visited[seed] := true;
      assert queue[..1] == [seed] && visited[..] == old(visited[..])[seed := true];
    }

    /** Floods the component of `seed` into the arena and summarises it. */
    method Flood(t: s16, seed: nat, ghost found: seq<Zone>) returns (zone: Zone)
      requires Valid() && seed < PIXELS && frame[seed] >= t && !visited[seed]
      requires Scanned(frame[..], t, visited[..], arena[..], found, used)
      modifies this`used, visited, queue, arena
      ensures Valid() && IsZone(frame[..], t, arena[..], zone)
      ensures Scanned(frame[..], t, visited[..], arena[..], found + [zone], used)
      ensures visited[seed] && forall i | 0 <= i < PIXELS && old(visited[i]) :: visited[i]
    {
      ghost var before, arena0, start := visited[..], arena[..], used;
      Begin(t, seed);
      ghost var tail;
      zone, tail := Drain(t, seed, before, arena0, found);
      ghost var q, vis, stored := queue[..tail], visited[..], arena[..];
      assert q != [] && q[0] == seed && stored[..start] == arena0[..start] && stored[start..start + tail] == q;
      ScanGrows(frame[..], t, before, vis, arena0, stored, found, start, seed, q);
      FloodVisits(frame[..], t, before, seed, vis, q, tail);
      assert forall i | 0 <= i < PIXELS && before[i] :: vis[i];
    }

    /** Opens a new zone at cell idx unless the cell is weak or already taken. */
    method ScanCell(t: s16, idx: nat, ghost found: seq<Zone>, ghost dropped: multiset<Zone>)
      returns (ghost found': seq<Zone>, ghost dropped': multiset<Zone>)
      requires Valid() && idx < PIXELS
      requires Scanned(frame[..], t, visited[..], arena[..], found, used)
      requires KeepsStrongest(SumOf, multiset(found), zones[..count], dropped)
      requires count < MAX_ZONES ==> dropped == multiset{}
      modifies this`used, this`count, visited, queue, arena, zones
      ensures Valid() && Scanned(frame[..], t, visited[..], arena[..], found', used)
      ensures KeepsStrongest(SumOf, multiset(found'), zones[..count], dropped')
      ensures count < MAX_ZONES ==> dropped' == multiset{}
      ensures frame[idx] >= t ==> visited[idx]
      ensures forall i | 0 <= i < PIXELS && old(visited[i]) :: visited[i]
    {
      found', dropped' := found, dropped;
      if !visited[idx] && frame[idx] >= t {
        var candidate := Flood(t, idx, found);
        assert multiset(found + [candidate]) == multiset(found) + multiset{candidate};
        count, dropped' := Insert(zones, count, candidate, SumOf, multiset(found), dropped);
        found' := found + [candidate];
      }
    }

    /** Scans one row, left to right. */
    method ScanRow(t: s16, r: nat, ghost found0: seq<Zone>, ghost dropped0: multiset<Zone>)
      returns (ghost found: seq<Zone>, ghost dropped: multiset<Zone>)
      requires Valid() && r < 40
      requires Scanned(frame[..], t, visited[..], arena[..], found0, used)
      requires KeepsStrongest(SumOf, multiset(found0), zones[..count], dropped0)
      requires count < MAX_ZONES ==> dropped0 == multiset{}
      modifies this`used, this`count, visited, queue, arena, zones
      ensures Valid() && Scanned(frame[..], t, visited[..], arena[..], found, used)
      ensures KeepsStrongest(SumOf, multiset(found), zones[..count], dropped)
      ensures count < MAX_ZONES ==> dropped == multiset{}
      ensures forall i | r * 60 <= i < r * 60 + 60 && frame[i] >= t :: visited[i]
      ensures forall i | 0 <= i < PIXELS && old(visited[i]) :: visited[i]
    {
      found, dropped := found0, dropped0;
      for c := 0 to 60
        invariant Valid() && Scanned(frame[..], t, visited[..], arena[..], found, used)
        invariant KeepsStrongest(SumOf, multiset(found), zones[..count], dropped)
        invariant count < MAX_ZONES ==> dropped == multiset{}
        invariant forall i | r * 60 <= i < r * 60 + c && frame[i] >= t :: visited[i]
        invariant forall i | 0 <= i < PIXELS && old(visited[i]) :: visited[i]
      {
        found, dropped := ScanCell(t, Cell(r, c), found, dropped);
      }
    }

    /** Scans the frame row by row. */
    method Scan(t: s16) returns (ghost found: seq<Zone>, ghost dropped: multiset<Zone>)
      requires Valid()
      modifies this`used, this`count, visited, queue, arena, zones
      ensures Valid() && Complete(frame[..], t, arena[..], found, used)
      ensures KeepsStrongest(SumOf, multiset(found), zones[..count], dropped)
      ensures count < MAX_ZONES ==> dropped == multiset{}
    {
      for i := 0 to PIXELS
        invariant forall k | 0 <= k < i :: !visited[k]
      {
        visited[i] := false;
      }
      count, used := 0, 0;
      found, dropped := [], multiset{};
      ScanStarts(frame[..], t, visited[..], arena[..]);
      NothingSeen(SumOf);
      for r := 0 to 40
        invariant Valid() && Scanned(frame[..], t, visited[..], arena[..], found, used)
        invariant forall i | 0 <= i < r * 60 && frame[i] >= t :: visited[i]
        invariant KeepsStrongest(SumOf, multiset(found), zones[..count], dropped)
        invariant count < MAX_ZONES ==> dropped == multiset{}
      {
        found, dropped := ScanRow(t, r, found, dropped);
      }
      ScanCompletes(frame[..], t, visited[..], arena[..], found, used);
    }

    /** Finds every macro zone of the frame and leaves the strongest, strongest first. */
    method Detect(t: s16) returns (ghost found: seq<Zone>, ghost dropped: multiset<Zone>)
      requires Valid()
      modifies this`used, this`count, visited, queue, arena, zones
      ensures Valid() && Complete(frame[..], t, arena[..], found, used)
      ensures KeepsStrongest(SumOf, multiset(found), zones[..count], dropped)
      ensures count < MAX_ZONES ==> dropped == multiset{}
      ensures Descending(SumOf, zones[..count])
    {
      found, dropped := Scan(t);
      ghost var kept := zones[..count];
      SelectionSort(zones, count, SumOf);
      PermutedKeepsStrongest(SumOf, multiset(found), kept, zones[..count], dropped);
    }
  }
}
