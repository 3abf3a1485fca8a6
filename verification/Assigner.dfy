/** The in-place solver behind contact-to-slot matching, over the driver's own scratch arrays. */
module Assigner {
  import opened Machine
  import opened Hungarian
  import opened Pigeonhole

  const MAX_TOUCH := 10
  const MAX_COLUMNS := 2 * MAX_TOUCH

  /** Column 0 is charged every delta of every search: at most one unmatched price per row. */
  ghost predicate RootCharge(i: nat, v0: int) {
    -0x1000_0000 * i <= v0 <= 0
  }

  class Assigner {
    const cost: array2<s64>
    const u: array<s64>
    const v: array<s64>
    const p: array<nat>
    const way: array<nat>

    constructor ()
      ensures Valid() && fresh(cost) && fresh(u) && fresh(v) && fresh(p) && fresh(way)
    {
      cost := new s64[MAX_TOUCH, MAX_COLUMNS];
      u := new s64[MAX_TOUCH + 1];
      v := new s64[MAX_COLUMNS + 1];
      p := new nat[MAX_COLUMNS + 1];
      way := new nat[MAX_COLUMNS + 1];
    }

    ghost predicate Valid() {
      && cost.Length0 == MAX_TOUCH && cost.Length1 == MAX_COLUMNS
      && u.Length == MAX_TOUCH + 1 && v.Length == MAX_COLUMNS + 1
      && p.Length == MAX_COLUMNS + 1 && way.Length == MAX_COLUMNS + 1
      && u != v && p != way
    }

    /** The top left n by m corner of the cost table. */
    ghost predicate Holds(c: Costs, n: nat, m: nat)
      requires Valid() && n <= MAX_TOUCH && m <= MAX_COLUMNS
      reads cost
    {
      && |c| == n && (forall r | 0 <= r < n :: |c[r]| == m)
      && forall r, j | 0 <= r < n && 0 <= j < m :: cost[r, j] == c[r][j]
    }

    /** Compares every unused column with row p[j0]; picks the column of least remaining slack. */
    method Relax(ghost c: Costs, n: nat, m: nat, j0: nat, used: array<bool>, minv: array<s64>)
      returns (delta: s64, j1: nat)
      requires Valid() && n <= MAX_TOUCH && m <= MAX_COLUMNS && Holds(c, n, m)
      requires used.Length == MAX_COLUMNS + 1 && minv.Length == MAX_COLUMNS + 1
      requires minv != u && minv != v
      requires j0 <= m && used[j0] && 1 <= p[j0] <= n
      requires forall j | 1 <= j <= m :: -2 * INF <= Slack(c, u[..], v[..], p[j0], j) <= 2 * INF
      modifies way, minv
      ensures forall j | 1 <= j <= m && !used[j] ::
        var cur := Slack(c, u[..], v[..], p[j0], j);
        if cur < old(minv[j]) then minv[j] == cur && way[j] == j0
        else minv[j] == old(minv[j]) && way[j] == old(way[j])
      ensures forall j | 0 <= j <= MAX_COLUMNS :: j == 0 || j > m || used[j] ==>
        minv[j] == old(minv[j]) && way[j] == old(way[j])
      ensures j1 == 0 ==> delta == INF
      ensures j1 != 0 ==> j1 <= m && !used[j1] && delta == minv[j1]
      ensures forall j | 1 <= j <= m && !used[j] :: delta <= minv[j]
    {
      delta, j1 := INF, 0;
      for j := 1 to m + 1
        invariant forall k | 1 <= k < j && !used[k] ::
          var cur := Slack(c, u[..], v[..], p[j0], k);
          if cur < old(minv[k]) then minv[k] == cur && way[k] == j0
          else minv[k] == old(minv[k]) && way[k] == old(way[k])
        invariant forall k | 0 <= k <= MAX_COLUMNS :: k == 0 || k >= j || used[k] ==>
          minv[k] == old(minv[k]) && way[k] == old(way[k])
        invariant j1 == 0 ==> delta == INF
        invariant j1 != 0 ==> j1 < j && !used[j1] && delta == minv[j1]
        invariant forall k | 1 <= k < j && !used[k] :: delta <= minv[k]
      {
        if used[j] {
          continue;
        }
        var i0 := p[j0];
        assert cost[i0 - 1, j - 1] - u[i0] - v[j] == Slack(c, u[..], v[..], i0, j);
        var cur: s64 := cost[i0 - 1, j - 1] - u[i0] - v[j];
        if cur < minv[j] {
          minv[j] := cur;
          way[j] := j0;
        }
        if minv[j] < delta {
          delta := minv[j];
          j1 := j;
        }
      }
    }

    /** Moves delta from the unused columns into the duals of the tree. */
    method Shift(ghost q: seq<nat>, ghost i: nat, n: nat, m: nat, delta: s64, used: array<bool>, minv: array<s64>)
      requires Valid() && n <= MAX_TOUCH && m <= MAX_COLUMNS
      requires used.Length == MAX_COLUMNS + 1 && minv.Length == MAX_COLUMNS + 1
      requires minv != u && minv != v
      requires 0 <= delta <= MAX_UNMATCHED
      requires |q| > n && i <= n && Inverse(p[..], q, m, i, m + 1)
      requires forall j | 0 <= j <= m && used[j] :: p[j] != 0
      requires forall r | 1 <= r <= n :: -INF <= u[r] <= INF
      requires forall j | 0 <= j <= m :: -INF <= v[j] <= INF
      requires forall j | 0 <= j <= m && !used[j] :: 0 <= minv[j] <= INF
      modifies u, v, minv
      ensures u[0] == old(u[0])
      ensures forall r | 1 <= r <= n ::
        u[r] == old(u[r]) + if q[r] <= m && used[q[r]] && p[q[r]] == r then delta else 0
      ensures forall j | 0 <= j <= m && used[j] :: v[j] == old(v[j]) - delta && minv[j] == old(minv[j])
      ensures forall j | 0 <= j <= m && !used[j] :: v[j] == old(v[j]) && minv[j] == old(minv[j]) - delta
    {
      for j := 0 to m + 1
        invariant u[0] == old(u[0])
        invariant forall r | 1 <= r <= n ::
          u[r] == old(u[r]) + if q[r] < j && q[r] <= m && used[q[r]] && p[q[r]] == r then delta else 0
        invariant forall k | 0 <= k < j && used[k] :: v[k] == old(v[k]) - delta && minv[k] == old(minv[k])
        invariant forall k | 0 <= k < j && !used[k] :: v[k] == old(v[k]) && minv[k] == old(minv[k]) - delta
        invariant forall k | j <= k <= m :: v[k] == old(v[k]) && minv[k] == old(minv[k])
      {
        if used[j] {
          assert q[p[j]] == j;
          u[p[j]] := u[p[j]] + delta;
          v[j] := v[j] - delta;
        } else {
          minv[j] := minv[j] - delta;
        }
      }
    }

    /** The moment of the search held by the arrays. */
    ghost function Snapshot(q: seq<nat>, rank: seq<nat>, used: array<bool>, minv: array<s64>): Search
      reads u, v, p, way, used, minv
    {
      Search(u[..], v[..], p[..], q, way[..], used[..], rank, minv[..])
    }

    /** Column j0 joins the tree; every column left outside is compared with its row. */
    method Join(ghost c: Costs, n: nat, d: nat, ghost unmatched: int, ghost i: nat, ghost q: seq<nat>, ghost f: nat,
                ghost count: nat, ghost rank: seq<nat>, j0: nat, used: array<bool>, minv: array<s64>)
      returns (delta: s64, j1: nat)
      requires Valid() && n <= MAX_TOUCH && d <= MAX_TOUCH && Holds(c, n, d + n)
      requires used.Length == MAX_COLUMNS + 1 && minv.Length == MAX_COLUMNS + 1 && |rank| == MAX_COLUMNS + 1
      requires minv != u && minv != v && |q| == n + 1 && i <= n
      requires Snapshot(q, rank, used, minv).Ok(c, n, d, unmatched, i, count)
      requires Snapshot(q, rank, used, minv).Pending(c, n, d + n, j0)
      requires p[j0] != 0
      requires d < f <= d + n && p[f] == 0
      modifies way, used, minv
      ensures used[..] == old(used[..])[j0 := true]
      ensures Snapshot(q, rank[j0 := count], used, minv).Ok(c, n, d, unmatched, i, count + 1)
      ensures Cheapest(Snapshot(q, rank[j0 := count], used, minv), n, d, f, j1)
      ensures delta == minv[j1]
    {
      ghost var s := Snapshot(q, rank, used, minv);
      used[j0] := true;
      SlackRange(c, n, d, unmatched, i, count, j0, s);
      delta, j1 := Relax(c, n, d + n, j0, used, minv);
      ghost var t := Snapshot(q, rank[j0 := count], used, minv);
      assert t.u == s.u && t.v == s.v && t.p == s.p;
      JoinKeeps(c, n, d, unmatched, i, count, j0, j1, delta, f, s, t);
    }

    /** The duals move by the least slack outside the tree. */
    method Move(ghost c: Costs, n: nat, d: nat, ghost unmatched: int, ghost i: nat, ghost q: seq<nat>, ghost f: nat,
                ghost count: nat, ghost rank: seq<nat>, delta: s64, ghost j1: nat, used: array<bool>, minv: array<s64>)
      requires Valid() && n <= MAX_TOUCH && d <= MAX_TOUCH
      requires used.Length == MAX_COLUMNS + 1 && minv.Length == MAX_COLUMNS + 1 && |rank| == MAX_COLUMNS + 1
      requires minv != u && minv != v && |q| == n + 1 && i <= n
      requires Snapshot(q, rank, used, minv).Ok(c, n, d, unmatched, i, count)
      requires Cheapest(Snapshot(q, rank, used, minv), n, d, f, j1)
      requires delta == minv[j1]
      requires -INF <= v[0] <= 0
      modifies u, v, minv
      ensures v[0] as int - old(v[0]) as int == old(u[i]) as int - u[i] as int && 0 <= u[i] <= unmatched
      ensures Snapshot(q, rank, used, minv).Ok(c, n, d, unmatched, i, count)
      ensures Snapshot(q, rank, used, minv).Pending(c, n, d + n, j1)
    {
      ghost var t := Snapshot(q, rank, used, minv);
      DeltaCapped(c, n, d, unmatched, i, count, f, t);
      TreeRange(c, n, d, unmatched, i, count, f, t);
      assert q[p[0]] == 0;
      Shift(q, i, n, d + n, delta, used, minv);
      ghost var w := Snapshot(q, rank, used, minv);
      ShiftKeeps(c, n, d, unmatched, i, count, j1, f, t, w);
      TreeRange(c, n, d, unmatched, i, count, f, w);
    }

    /** One round of the search. */
    method Step(ghost c: Costs, n: nat, d: nat, ghost unmatched: int, ghost i: nat, ghost q: seq<nat>, ghost f: nat,
                ghost count: nat, ghost rank: seq<nat>, j0: nat, used: array<bool>, minv: array<s64>)
      returns (j1: nat)
      requires Valid() && n <= MAX_TOUCH && d <= MAX_TOUCH && Holds(c, n, d + n)
      requires used.Length == MAX_COLUMNS + 1 && minv.Length == MAX_COLUMNS + 1 && |rank| == MAX_COLUMNS + 1
      requires minv != u && minv != v && |q| == n + 1 && i <= n
      requires Snapshot(q, rank, used, minv).Ok(c, n, d, unmatched, i, count)
      requires Snapshot(q, rank, used, minv).Pending(c, n, d + n, j0)
      requires p[j0] != 0
      requires d < f <= d + n && p[f] == 0
      requires -INF <= v[0] <= 0
      modifies u, v, way, used, minv
      ensures used[..] == old(used[..])[j0 := true]
      ensures v[0] as int - old(v[0]) as int == old(u[i]) as int - u[i] as int && 0 <= u[i] <= unmatched
      ensures Snapshot(q, rank[j0 := count], used, minv).Ok(c, n, d, unmatched, i, count + 1)
      ensures Snapshot(q, rank[j0 := count], used, minv).Pending(c, n, d + n, j1)
    {
      var delta;
      delta, j1 := Join(c, n, d, unmatched, i, q, f, count, rank, j0, used, minv);
      Move(c, n, d, unmatched, i, q, f, count + 1, rank[j0 := count], delta, j1, used, minv);
    }

    /** Rounds of the search until a free column is reached. */
    method Explore(ghost c: Costs, n: nat, d: nat, ghost unmatched: int, ghost i: nat, ghost q: seq<nat>, ghost f: nat,
                   used: array<bool>, minv: array<s64>)
      returns (j0: nat, ghost s: Search, ghost count: nat)
      requires Valid() && n <= MAX_TOUCH && d <= MAX_TOUCH && Holds(c, n, d + n)
      requires used.Length == MAX_COLUMNS + 1 && minv.Length == MAX_COLUMNS + 1
      requires minv != u && minv != v && |q| == n + 1 && 1 <= i <= n
      requires Snapshot(q, seq(MAX_COLUMNS + 1, _ => 0), used, minv).Ok(c, n, d, unmatched, i, 0)
      requires Snapshot(q, seq(MAX_COLUMNS + 1, _ => 0), used, minv).Pending(c, n, d + n, 0)
      requires d < f <= d + n && p[f] == 0
      requires RootCharge(i - 1, v[0]) && u[i] == 0
      modifies u, v, way, used, minv
      ensures s.Ok(c, n, d, unmatched, i, count) && s.Pending(c, n, d + n, j0)
      ensures p[j0] == 0
      ensures s.u == u[..] && s.v == v[..] && s.p == p[..] && s.q == q && s.way == way[..]
      ensures RootCharge(i, v[0])
    {
      ghost var rank: seq<nat> := seq(MAX_COLUMNS + 1, _ => 0);
      ghost var outside := set j | 0 <= j <= d + n && !used[j];
      count, j0 := 0, 0;
      while p[j0] != 0
        invariant |rank| == MAX_COLUMNS + 1
        invariant Snapshot(q, rank, used, minv).Ok(c, n, d, unmatched, i, count)
        invariant Snapshot(q, rank, used, minv).Pending(c, n, d + n, j0)
        invariant v[0] as int == old(v[0]) as int - u[i] as int && 0 <= u[i] <= unmatched
        invariant forall j | 0 <= j <= d + n :: j in outside <==> !used[j]
        decreases outside
      {
        ghost var before := used[..];
        var j1 := Step(c, n, d, unmatched, i, q, f, count, rank, j0, used, minv);
        assert used[..] == before[j0 := true];
        rank, count, outside, j0 := rank[j0 := count], count + 1, outside - {j0}, j1;
      }
      s := Snapshot(q, rank, used, minv);
    }

    /** Grows the alternating tree of row i until it reaches a free column. */
    method Grow(ghost c: Costs, n: nat, d: nat, ghost unmatched: int, i: nat, ghost p0: seq<nat>, ghost q: seq<nat>)
      returns (j0: nat, ghost s: Search, ghost count: nat)
      requires Valid() && n <= MAX_TOUCH && d <= MAX_TOUCH
      requires IsProblem(c, n, d, unmatched) && Holds(c, n, d + n)
      requires 1 <= i <= n && Solved(c, n, d, unmatched, i - 1, u[..], v[..], p0, q)
      requires p[..] == p0[0 := i] && RootCharge(i - 1, v[0])
      modifies u, v, way
      ensures s.Ok(c, n, d, unmatched, i, count) && s.Pending(c, n, d + n, j0)
      ensures j0 != 0 && p[j0] == 0
      ensures s.u == u[..] && s.v == v[..] && s.p == p[..] && s.q == q[i := 0] && s.way == way[..]
      ensures RootCharge(i, v[0])
    {
      var minv := new s64[MAX_COLUMNS + 1](_ => INF);
      var used := new bool[MAX_COLUMNS + 1](_ => false);
      ghost var start := Snapshot(q[i := 0], seq(MAX_COLUMNS + 1, _ => 0), used, minv);
      SearchStarts(c, n, d, unmatched, i, p0, q, start);
      ghost var f :| d < f <= d + n && start.p[f] == 0;
      j0, s, count := Explore(c, n, d, unmatched, i, q[i := 0], f, used, minv);
    }

    /** Walks the tree back to the root, moving every row one column along. */
    method Augment(ghost c: Costs, ghost n: nat, ghost d: nat, ghost unmatched: int, ghost i: nat, ghost count: nat,
                   ghost s: Search, start: nat)
      returns (ghost q: seq<nat>)
      requires Valid() && n <= MAX_TOUCH && d <= MAX_TOUCH
      requires s.Ok(c, n, d, unmatched, i, count) && s.Pending(c, n, d + n, start)
      requires start != 0 && s.p == p[..] && s.way == way[..] && p[start] == 0 && |s.q| == n + 1
      modifies p
      ensures Solved(c, n, d, unmatched, i, s.u, s.v, p[..], q)
    {
      q := s.q;
      var j0 := start;
      AugmentStarts(c, n, d, unmatched, i, count, s, start);
      while j0 != 0
        invariant Augmenting(c, n, d, unmatched, i, count, s, start, p[..], q, j0)
        decreases Depth(s, count, start, j0)
      {
        AugmentKeeps(c, n, d, unmatched, i, count, s, start, p[..], q, j0);
        var j1 := way[j0];
        q := q[p[j1] := j0];
        p[j0] := p[j1];
        j0 := j1;
      }
      AugmentEnds(c, n, d, unmatched, i, count, s, start, p[..], q);
    }

    method Clear(n: nat, m: nat)
      requires Valid() && n <= MAX_TOUCH && m <= MAX_COLUMNS
      modifies u, v, p, way
      ensures forall k | 0 <= k <= n :: u[k] == 0
      ensures forall k | 0 <= k <= m :: v[k] == 0 && p[k] == 0 && way[k] == 0
    {
      for j := 0 to n + 1
        invariant forall k | 0 <= k < j :: u[k] == 0
      {
        u[j] := 0;
      }
      for j := 0 to m + 1
        invariant forall k | 0 <= k < j :: v[k] == 0 && p[k] == 0 && way[k] == 0
        invariant forall k | 0 <= k <= n :: u[k] == 0
      {
        v[j], p[j], way[j] := 0, 0, 0;
      }
    }

    /** Matches every row to its cheapest column. */
    method Solve(ghost c: Costs, n: nat, d: nat, ghost unmatched: int) returns (ghost q: seq<nat>)
      requires Valid() && n <= MAX_TOUCH && d <= MAX_TOUCH
      requires IsProblem(c, n, d, unmatched) && Holds(c, n, d + n)
      modifies u, v, p, way
      ensures Solved(c, n, d, unmatched, n, u[..], v[..], p[..], q)
    {
      Clear(n, d + n);
      q := seq(n + 1, _ => 0);
      NothingMatched(c, n, d, unmatched, u[..], v[..], p[..], q);
      for i := 1 to n + 1
        invariant Solved(c, n, d, unmatched, i - 1, u[..], v[..], p[..], q)
        invariant RootCharge(i - 1, v[0])
      {
        ghost var p0 := p[..];
        p[0] := i;
        var j0;
        ghost var s, count;
        j0, s, count := Grow(c, n, d, unmatched, i, p0, q);
        q := Augment(c, n, d, unmatched, i, count, s, j0);
      }
    }

    /** Turns the column-to-row table into detections by slot; half the sentinel filters nothing. */
    method Publish(active: seq<nat>, d: nat, ghost q: seq<nat>, matches: array<s8>)
      requires Valid() && |active| <= MAX_TOUCH && d <= MAX_TOUCH && matches.Length == MAX_TOUCH
      requires Distinct(active) && forall r | 0 <= r < |active| :: active[r] < MAX_TOUCH
      requires |q| == |active| + 1 && forall r | 1 <= r <= |active| :: 1 <= q[r] <= d + |active| && p[q[r]] == r
      requires forall j | 1 <= j <= d && p[j] != 0 ::
        p[j] <= |active| && q[p[j]] == j && cost[p[j] - 1, j - 1] < INF / 2
      modifies matches
      ensures forall r | 0 <= r < |active| :: matches[active[r]] == DetectionOf(q[r + 1], d)
      ensures forall t | 0 <= t < MAX_TOUCH && t !in active :: matches[t] == -1
    {
      for t := 0 to MAX_TOUCH
        invariant forall k | 0 <= k < t :: matches[k] == -1
      {
        matches[t] := -1;
      }
      for j := 1 to d + 1
        invariant forall t | 0 <= t < MAX_TOUCH && t !in active :: matches[t] == -1
        invariant forall r | 0 <= r < |active| ::
          matches[active[r]] == if q[r + 1] < j then q[r + 1] - 1 else -1
      {
        var row := p[j];
        if row != 0 && cost[row - 1, j - 1] < INF / 2 {
          matches[active[row - 1]] := j - 1;
        }
      }
    }

    /** Fills `matches`, indexed by slot, with the cheapest one-to-one assignment of detections;
        `active[r]` is the slot of track r. */
    method Assign(ghost c: Costs, active: seq<nat>, d: nat, ghost unmatched: int, matches: array<s8>)
      returns (ghost f: seq<int>)
      requires Valid() && |active| <= MAX_TOUCH && d <= MAX_TOUCH && matches.Length == MAX_TOUCH
      requires IsProblem(c, |active|, d, unmatched) && Holds(c, |active|, d + |active|)
      requires Distinct(active) && forall r | 0 <= r < |active| :: active[r] < MAX_TOUCH
      modifies u, v, p, way, matches
      ensures IsCheapest(c, |active|, d, unmatched, f)
      ensures forall r | 0 <= r < |active| :: matches[active[r]] == f[r]
      ensures forall r | 0 <= r < |active| && f[r] >= 0 :: c[r][f[r]] <= unmatched
      ensures forall t | 0 <= t < MAX_TOUCH && t !in active :: matches[t] == -1
    {
      ghost var q := Solve(c, |active|, d, unmatched);
      SolvedPairs(c, |active|, d, unmatched, u[..], v[..], p[..], q);
      SolvedResult(c, |active|, d, unmatched, u[..], v[..], p[..], q);
      Publish(active, d, q, matches);
      f := Matched(q, |active|, d);
    }
  }
}
