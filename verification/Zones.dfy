/** What a macro zone records about its cells, and the keep-the-strongest table of zones. */
module Zones {
  import opened Arithmetic
  import opened Grid
  import opened Components

  const MAX_ZONES := 20

  datatype Zone = Zone(start: nat, area: nat, sum: int, minR: nat, maxR: nat, minC: nat, maxC: nat)

  /** The zone record after one more cell. */
  function Absorb(f: Frame, z: Zone, cell: nat): Zone
    requires cell < PIXELS
  {
    Zone(z.start, z.area + 1, z.sum + Max(f[cell], 0),
         Min(Row(cell), z.minR), Max(Row(cell), z.maxR), Min(Col(cell), z.minC), Max(Col(cell), z.maxC))
  }

  function Seeded(start: nat, seed: nat): Zone {
    Zone(start, 0, 0, Row(seed), Row(seed), Col(seed), Col(seed))
  }

  function Summary(f: Frame, start: nat, seed: nat, cells: seq<nat>): Zone
    requires forall k | 0 <= k < |cells| :: cells[k] < PIXELS
  {
    if cells == [] then Seeded(start, seed)
    else Absorb(f, Summary(f, start, seed, cells[..|cells| - 1]), cells[|cells| - 1])
  }

  /** Total of the positive signal. */
  ghost function Signal(f: Frame, cells: seq<nat>): int
    requires forall k | 0 <= k < |cells| :: cells[k] < PIXELS
  {
    if cells == [] then 0 else Signal(f, cells[..|cells| - 1]) + Max(f[cells[|cells| - 1]], 0)
  }

  /** The record is the area, the signal and the tight bounding box of the listed cells. */
  ghost predicate Describes(f: Frame, z: Zone, cells: seq<nat>) {
    && (forall k | 0 <= k < |cells| :: cells[k] < PIXELS)
    && z.area == |cells| && z.sum == Signal(f, cells)
    && (forall k | 0 <= k < |cells| :: z.minR <= Row(cells[k]) <= z.maxR && z.minC <= Col(cells[k]) <= z.maxC)
    && (exists k :: 0 <= k < |cells| && Row(cells[k]) == z.minR)
    && (exists k :: 0 <= k < |cells| && Row(cells[k]) == z.maxR)
    && (exists k :: 0 <= k < |cells| && Col(cells[k]) == z.minC)
    && (exists k :: 0 <= k < |cells| && Col(cells[k]) == z.maxC)
  }

  lemma {:induction false} SummaryBounds(f: Frame, start: nat, seed: nat, cells: seq<nat>)
    requires forall k | 0 <= k < |cells| :: cells[k] < PIXELS
    ensures var z := Summary(f, start, seed, cells);
      && z.start == start && z.area == |cells| && z.sum == Signal(f, cells)
      && z.minR <= Row(seed) <= z.maxR && z.minC <= Col(seed) <= z.maxC
      && (forall k | 0 <= k < |cells| :: z.minR <= Row(cells[k]) <= z.maxR && z.minC <= Col(cells[k]) <= z.maxC)
  {
    if cells != [] {
      SummaryBounds(f, start, seed, cells[..|cells| - 1]);
    }
  }

  lemma {:induction false} SummaryTight(f: Frame, start: nat, seed: nat, cells: seq<nat>)
    requires forall k | 0 <= k < |cells| :: cells[k] < PIXELS
    ensures var z := Summary(f, start, seed, cells);
      && (z.minR == Row(seed) || exists k :: 0 <= k < |cells| && Row(cells[k]) == z.minR)
      && (z.maxR == Row(seed) || exists k :: 0 <= k < |cells| && Row(cells[k]) == z.maxR)
      && (z.minC == Col(seed) || exists k :: 0 <= k < |cells| && Col(cells[k]) == z.minC)
      && (z.maxC == Col(seed) || exists k :: 0 <= k < |cells| && Col(cells[k]) == z.maxC)
  {
    if cells != [] {
      var n, init := |cells| - 1, cells[..|cells| - 1];
      SummaryTight(f, start, seed, init);
      var z := Summary(f, start, seed, init);
      assert Row(cells[n]) == Row(cells[|cells| - 1]);
      if k :| 0 <= k < n && Row(init[k]) == z.minR { assert Row(cells[k]) == z.minR; }
      if k :| 0 <= k < n && Row(init[k]) == z.maxR { assert Row(cells[k]) == z.maxR; }
      if k :| 0 <= k < n && Col(init[k]) == z.minC { assert Col(cells[k]) == z.minC; }
      if k :| 0 <= k < n && Col(init[k]) == z.maxC { assert Col(cells[k]) == z.maxC; }
    }
  }

  /** The record built cell by cell describes the component it was built from. */
  lemma SummaryDescribes(f: Frame, start: nat, seed: nat, cells: seq<nat>)
    requires (forall k | 0 <= k < |cells| :: cells[k] < PIXELS) && seed in cells
    ensures Describes(f, Summary(f, start, seed, cells), cells)
    ensures Summary(f, start, seed, cells).start == start
  {
    SummaryBounds(f, start, seed, cells);
    SummaryTight(f, start, seed, cells);
    var k :| 0 <= k < |cells| && cells[k] == seed;
    assert Row(cells[k]) == Row(seed) && Col(cells[k]) == Col(seed);
  }

  /** Positive cells carry signal, bounded by the largest sample. */
  lemma {:induction false} SignalRange(f: Frame, cells: seq<nat>)
    requires forall k | 0 <= k < |cells| :: cells[k] < PIXELS && 1 <= f[cells[k]] < 0x8000
    ensures |cells| <= Signal(f, cells) <= |cells| * 0x7fff
  {
    if cells != [] {
      SignalRange(f, cells[..|cells| - 1]);
    }
  }
}
