/** Connected regions of a frame: the meaning of a macro zone, independent of any search. */
module Components {
  import opened Grid
  import opened Pigeonhole
  import opened Sealing

  type Frame = f: seq<int> | |f| == 2400 witness seq(2400, _ => 0)

  /** A walk over cells at or above threshold, one neighbour at a time. */
  ghost predicate Path(f: Frame, t: int, p: seq<nat>) {
    && p != []
    && (forall i | 0 <= i < |p| :: p[i] < PIXELS && f[p[i]] >= t)
    && (forall i | 0 <= i < |p| - 1 :: Adjacent(p[i], p[i + 1]))
  }

  ghost predicate Walk(f: Frame, t: int, p: seq<nat>, a: nat, b: nat) {
    Path(f, t, p) && p[0] == a && p[|p| - 1] == b
  }

  ghost predicate Connected(f: Frame, t: int, a: nat, b: nat) {
    exists p :: Walk(f, t, p, a, b)
  }

  /** `cells` lists, without repeats, exactly the cells connected to `seed`. */
  ghost predicate IsComponent(f: Frame, t: int, cells: seq<nat>, seed: nat) {
    && Distinct(cells)
    && forall b :: b in cells <==> Connected(f, t, seed, b)
  }

  lemma ConnectedSelf(f: Frame, t: int, a: nat)
    requires a < PIXELS && f[a] >= t
    ensures Connected(f, t, a, a)
  {
    assert Walk(f, t, [a], a, a);
  }

  lemma ConnectedStep(f: Frame, t: int, a: nat, b: nat, c: nat)
    requires Connected(f, t, a, b) && Adjacent(b, c) && c < PIXELS && f[c] >= t
    ensures Connected(f, t, a, c)
  {
    var p :| Walk(f, t, p, a, b);
    assert Walk(f, t, p + [c], a, c);
  }

  lemma ConnectedTransitive(f: Frame, t: int, a: nat, b: nat, c: nat)
    requires Connected(f, t, a, b) && Connected(f, t, b, c)
    ensures Connected(f, t, a, c)
  {
    var p :| Walk(f, t, p, a, b);
    var q :| Walk(f, t, q, b, c);
    assert Walk(f, t, p + q[1..], a, c);
  }

  lemma ConnectedSymmetric(f: Frame, t: int, a: nat, b: nat)
    requires Connected(f, t, a, b)
    ensures Connected(f, t, b, a)
  {
    var p :| Walk(f, t, p, a, b);
    var n := |p|;
    var q := seq(n, i requires 0 <= i < n => p[n - 1 - i]);
    forall i | 0 <= i < n - 1 ensures Adjacent(q[i], q[i + 1]) {
      assert Adjacent(p[n - 2 - i], p[n - 2 - i + 1]);
    }
    assert Walk(f, t, q, b, a);
  }

  /** A component is the same whichever of its cells it is grown from. */
  lemma ComponentOfMember(f: Frame, t: int, cells: seq<nat>, seed: nat, a: nat, b: nat)
    requires IsComponent(f, t, cells, seed) && a in cells
    ensures b in cells <==> Connected(f, t, a, b)
  {
    if Connected(f, t, a, b) {
      ConnectedTransitive(f, t, seed, a, b);
    }
    if Connected(f, t, seed, b) {
      ConnectedSymmetric(f, t, seed, a);
      ConnectedTransitive(f, t, a, seed, b);
    }
  }

  /** A set of cells that no step can leave. */
  ghost predicate Closed(f: Frame, t: int, cells: iset<nat>) {
    forall a: nat, b: nat | a in cells && b < PIXELS && f[b] >= t && Adjacent(a, b) :: b in cells
  }

  lemma {:induction false} ClosedHoldsWalk(f: Frame, t: int, cells: iset<nat>, p: seq<nat>, k: nat)
    requires Closed(f, t, cells) && Path(f, t, p) && p[0] in cells && k < |p|
    ensures p[k] in cells
  {
    if k > 0 {
      ClosedHoldsWalk(f, t, cells, p, k - 1);
      assert Adjacent(p[k - 1], p[k - 1 + 1]);
    }
  }

  /** Everything connected to a member of a closed set is a member. */
  lemma ClosedHoldsConnected(f: Frame, t: int, cells: iset<nat>, a: nat, b: nat)
    requires Closed(f, t, cells) && a in cells && Connected(f, t, a, b)
    ensures b in cells
  {
    var p :| Walk(f, t, p, a, b);
    ClosedHoldsWalk(f, t, cells, p, |p| - 1);
  }

  // ----- one flood fill

  ghost function Marked(vis: seq<bool>): iset<nat> {
    iset i: nat | i < |vis| && vis[i]
  }

  /** A breadth-first search in progress: `q` is everything enqueued, the first `head` of it
      expanded; `before` was already visited when the search began. Sealed. */
  ghost predicate Flooding(f: Frame, t: int, before: seq<bool>, seed: nat, vis: seq<bool>, q: seq<nat>, head: nat) {
    && |before| == PIXELS && |vis| == PIXELS && head <= |q|
    && (forall k | 0 <= k < |q| :: q[k] < PIXELS)
    && forall k {:trigger Open(k)} :: Open(k) ==> FloodFacts(f, t, before, seed, vis, q, head)
  }

  ghost predicate FloodFacts(f: Frame, t: int, before: seq<bool>, seed: nat, vis: seq<bool>, q: seq<nat>, head: nat) {
    && |before| == PIXELS && |vis| == PIXELS && head <= |q|
    && Distinct(q) && seed in q
    && (forall k | 0 <= k < |q| :: q[k] < PIXELS && f[q[k]] >= t && !before[q[k]])
    && (forall k | 0 <= k < |q| :: Connected(f, t, seed, q[k]))
    && (forall i | 0 <= i < PIXELS :: vis[i] <==> before[i] || i in q)
    && (forall k, b | 0 <= k < head && 0 <= b < PIXELS && Adjacent(q[k], b) && f[b] >= t :: vis[b])
  }

  lemma FloodStarts(f: Frame, t: int, before: seq<bool>, seed: nat)
    requires |before| == PIXELS && seed < PIXELS && !before[seed] && f[seed] >= t
    ensures Flooding(f, t, before, seed, before[seed := true], [seed], 0)
  {
    assert Open(0);
    ConnectedSelf(f, t, seed);
  }

  lemma FloodVisits(f: Frame, t: int, before: seq<bool>, seed: nat, vis: seq<bool>, q: seq<nat>, head: nat)
    requires Flooding(f, t, before, seed, vis, q, head)
    ensures seed < PIXELS && vis[seed] && forall i | 0 <= i < PIXELS && before[i] :: vis[i]
  {
    assert Open(0);
    var k :| 0 <= k < |q| && q[k] == seed;
  }

  /** Enqueueing an unvisited neighbour of the cell being expanded. */
  lemma FloodGrows(f: Frame, t: int, before: seq<bool>, seed: nat, vis: seq<bool>, q: seq<nat>, head: nat, b: nat)
    requires Flooding(f, t, before, seed, vis, q, head) && head < |q|
    requires b < PIXELS && !vis[b] && f[b] >= t && Adjacent(q[head], b)
    ensures Flooding(f, t, before, seed, vis[b := true], q + [b], head) && |q| < PIXELS
  {
    assert Open(0);
    ConnectedStep(f, t, seed, q[head], b);
    DistinctBounded(q + [b], PIXELS);
  }

  /** The neighbour of a in direction d is visited, if there is one and it reaches the threshold. */
  ghost predicate Tried(f: Frame, t: int, vis: seq<bool>, a: nat, d: nat)
    requires |vis| == PIXELS && d < 8
  {
    InGrid(Row(a) + DR[d], Col(a) + DC[d]) ==>
      var b := Cell(Row(a) + DR[d], Col(a) + DC[d]); f[b] >= t ==> vis[b]
  }

  ghost predicate Grown(vis: seq<bool>, vis': seq<bool>) {
    |vis| == |vis'| == PIXELS && forall i | 0 <= i < PIXELS && vis[i] :: vis'[i]
  }

  lemma TriedStays(f: Frame, t: int, vis: seq<bool>, vis': seq<bool>, a: nat, d: nat)
    requires Grown(vis, vis') && d < 8 && Tried(f, t, vis, a, d)
    ensures Tried(f, t, vis', a, d)
  {
  }

  /** Once all eight directions were tried, the cell is expanded. */
  lemma FloodExpanded(f: Frame, t: int, before: seq<bool>, seed: nat, vis: seq<bool>, q: seq<nat>, head: nat)
    requires Flooding(f, t, before, seed, vis, q, head) && head < |q|
    requires forall e | 0 <= e < 8 :: Tried(f, t, vis, q[head], e)
    ensures Flooding(f, t, before, seed, vis, q, head + 1)
  {
    assert Open(0);
    forall b | 0 <= b < PIXELS && Adjacent(q[head], b) && f[b] >= t ensures vis[b] {
      var e := DirectionOf(q[head], b);
      CellOfRowCol(b);
      assert Tried(f, t, vis, q[head], e);
    }
  }

  /** A search that ran dry enqueued exactly the component of its seed, and leaves the visited
      cells closed for the next one. */
  lemma FloodEnds(f: Frame, t: int, before: seq<bool>, seed: nat, vis: seq<bool>, q: seq<nat>)
    requires Flooding(f, t, before, seed, vis, q, |q|) && Closed(f, t, Marked(before))
    ensures IsComponent(f, t, q, seed) && Closed(f, t, Marked(vis))
  {
    assert Open(0);
    var cells := iset b | b in q;
    assert Closed(f, t, cells) by {
      forall a: nat, b: nat | a in cells && b < PIXELS && f[b] >= t && Adjacent(a, b) ensures b in cells {
        var k :| 0 <= k < |q| && q[k] == a;
        assert vis[b];
        assert Adjacent(b, a);
        assert b !in Marked(before) || a in Marked(before);
      }
    }
    forall b ensures b in q <==> Connected(f, t, seed, b) {
      if Connected(f, t, seed, b) {
        ClosedHoldsConnected(f, t, cells, seed, b);
      }
    }
  }
}
