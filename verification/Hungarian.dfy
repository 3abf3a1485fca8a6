/**
 Minimum-cost assignment of touch contacts to tracking slots.

 Rows are active tracks, columns 1..d are detections and columns d+1..d+n are one
 dummy per track, all at the same price: the price of leaving a track unmatched.
 The solver is the shortest-augmenting-path form of the Hungarian method with
 1-based duals and column 0 as the root of every search.
 */
module Hungarian {
  import opened Pigeonhole
  import opened Sealing

  /** A cost table without heap: row r of the table is `c[r - 1]`. */
  type Costs = seq<seq<int>>

  /** The sentinel price of a forbidden pair, 2^55. */
  const INF := 0x80_0000_0000_0000

  /** Largest price of leaving a track unmatched: 16 times the largest match distance. */
  const MAX_UNMATCHED := 16 * 16777216

  /** n tracks, d detections, and one dummy column of price `unmatched` per track. */
  ghost predicate IsProblem(c: Costs, n: nat, d: nat, unmatched: int) {
    && |c| == n
    && 0 < unmatched <= MAX_UNMATCHED
    && (forall r | 0 <= r < n :: |c[r]| == d + n)
    && (forall r, j | 0 <= r < n && 0 <= j < d :: 0 <= c[r][j] <= INF)
    && (forall r, j | 0 <= r < n && d <= j < d + n :: c[r][j] == unmatched)
  }

  /** How far the pair (row r, column j) is from being tight under duals u and v. */
  ghost function Slack(c: Costs, u: seq<int>, v: seq<int>, r: nat, j: nat): int
    requires 1 <= r <= |c| && r < |u| && 1 <= j <= |c[r - 1]| && j < |v|
  {
    c[r - 1][j - 1] - u[r] - v[j]
  }

  /** Shapes shared by every predicate below. */
  ghost predicate Sized(c: Costs, n: nat, m: nat, u: seq<int>, v: seq<int>) {
    |c| == n && |u| > n && |v| > m && forall r | 0 <= r < n :: |c[r]| == m
  }

  /** Dual feasibility: no pair is cheaper than its duals; columns never charge. */
  ghost predicate Feasible(c: Costs, n: nat, m: nat, u: seq<int>, v: seq<int>)
    requires Sized(c, n, m, u, v)
  {
    && (forall r, j | 1 <= r <= n && 1 <= j <= m :: Slack(c, u, v, r, j) >= 0)
    && (forall j | 1 <= j <= m :: v[j] <= 0)
  }

  /** `p` (column to row, 0 when free) and `q` (row to column) are inverse on rows 1..k,
      apart from column `hole`, whose entry is about to be overwritten. */
  ghost predicate Inverse(p: seq<nat>, q: seq<nat>, m: nat, k: nat, hole: nat) {
    && |p| > m && |q| > k
    && (forall r | 1 <= r <= k :: q[r] <= m && q[r] != hole && p[q[r]] == r)
    && (forall j | 0 <= j <= m && j != hole && p[j] != 0 :: p[j] <= k && q[p[j]] == j)
  }

  /** Complementary slackness: every matched pair except the one in `hole` is tight. */
  ghost predicate Tight(c: Costs, n: nat, m: nat, u: seq<int>, v: seq<int>, p: seq<nat>, hole: nat)
    requires Sized(c, n, m, u, v) && |p| > m && forall j | 0 <= j <= m :: p[j] <= n
  {
    forall j | 1 <= j <= m && j != hole && p[j] != 0 :: Slack(c, u, v, p[j], j) == 0
  }

  /** A column without a row has never been charged. */
  ghost predicate FreeUncharged(m: nat, v: seq<int>, p: seq<nat>)
    requires |v| > m && |p| > m
  {
    forall j | 1 <= j <= m && p[j] == 0 :: v[j] == 0
  }

  // ----- sums and weak duality

  ghost function SumTo(s: seq<int>, k: nat): int
    requires k < |s|
  {
    if k == 0 then 0 else SumTo(s, k - 1) + s[k]
  }

  /** Total price of giving row r column q[r], for rows 1..k. */
  ghost function Price(c: Costs, q: seq<nat>, k: nat): int
    requires k <= |c| && k < |q|
    requires forall r | 1 <= r <= k :: 1 <= q[r] <= |c[r - 1]|
  {
    if k == 0 then 0 else Price(c, q, k - 1) + c[k - 1][q[k] - 1]
  }

  ghost predicate Columns(q: seq<nat>, k: nat, m: nat) {
    && k < |q|
    && (forall r | 1 <= r <= k :: 1 <= q[r] <= m)
    && (forall r, s | 1 <= r < s <= k :: q[r] != q[s])
  }

  ghost function Charge(v: seq<int>, q: seq<nat>, k: nat): int
    requires k < |q| && forall r | 1 <= r <= k :: q[r] < |v|
  {
    if k == 0 then 0 else Charge(v, q, k - 1) + v[q[k]]
  }

  lemma {:induction false} SumUpdate(s: seq<int>, k: nat, i: nat)
    requires 1 <= i <= k < |s|
    ensures SumTo(s[i := 0], k) == SumTo(s, k) - s[i]
    decreases k
  {
    if i < k {
      SumUpdate(s, k - 1, i);
    } else {
      SumFrame(s, s[i := 0], k - 1);
    }
  }

  lemma {:induction false} SumFrame(s: seq<int>, t: seq<int>, k: nat)
    requires k < |s| && k < |t| && forall i | 1 <= i <= k :: s[i] == t[i]
    ensures SumTo(s, k) == SumTo(t, k)
  {
    if k > 0 {
      SumFrame(s, t, k - 1);
    }
  }

  lemma {:induction false} ChargeFrame(v: seq<int>, w: seq<int>, q: seq<nat>, k: nat)
    requires |v| == |w| && k < |q| && forall r | 1 <= r <= k :: q[r] < |v| && v[q[r]] == w[q[r]]
    ensures Charge(v, q, k) == Charge(w, q, k)
  {
    if k > 0 {
      ChargeFrame(v, w, q, k - 1);
    }
  }

  lemma {:induction false} SumOfNonPositive(v: seq<int>, m: nat)
    requires m < |v| && forall j | 1 <= j <= m :: v[j] <= 0
    ensures SumTo(v, m) <= 0
    ensures (forall j | 1 <= j <= m :: v[j] == 0) ==> SumTo(v, m) == 0
  {
    if m > 0 {
      SumOfNonPositive(v, m - 1);
    }
  }

  /** Distinct columns charge at least the sum over all columns, and exactly that sum when
      every column left out is uncharged. */
  lemma {:induction false} ChargeBound(v: seq<int>, q: seq<nat>, k: nat, m: nat)
    requires Columns(q, k, m) && m < |v| && forall j | 1 <= j <= m :: v[j] <= 0
    ensures Charge(v, q, k) >= SumTo(v, m)
    ensures (forall j | 1 <= j <= m && (forall r | 1 <= r <= k :: q[r] != j) :: v[j] == 0)
            ==> Charge(v, q, k) == SumTo(v, m)
    decreases k
  {
    if k == 0 {
      SumOfNonPositive(v, m);
    } else {
      var w := v[q[k] := 0];
      ChargeBound(w, q, k - 1, m);
      ChargeFrame(v, w, q, k - 1);
      SumUpdate(v, m, q[k]);
    }
  }

  lemma {:induction false} PriceSplit(c: Costs, n: nat, m: nat, u: seq<int>, v: seq<int>, q: seq<nat>, k: nat)
    requires k <= n && Sized(c, n, m, u, v) && Feasible(c, n, m, u, v) && Columns(q, k, m)
    ensures Price(c, q, k) >= SumTo(u, k) + Charge(v, q, k)
    ensures (forall r | 1 <= r <= k :: Slack(c, u, v, r, q[r]) == 0)
            ==> Price(c, q, k) == SumTo(u, k) + Charge(v, q, k)
    decreases k
  {
    if k > 0 {
      PriceSplit(c, n, m, u, v, q, k - 1);
      assert Slack(c, u, v, k, q[k]) >= 0;
    }
  }

  /** Weak duality with complementary slackness: a tight matching is cheapest. */
  lemma TightIsCheapest(c: Costs, n: nat, m: nat, u: seq<int>, v: seq<int>, q: seq<nat>, other: seq<nat>)
    requires Sized(c, n, m, u, v) && Feasible(c, n, m, u, v)
    requires Columns(q, n, m) && Columns(other, n, m)
    requires forall r | 1 <= r <= n :: Slack(c, u, v, r, q[r]) == 0
    requires forall j | 1 <= j <= m && (forall r | 1 <= r <= n :: q[r] != j) :: v[j] == 0
    ensures Price(c, q, n) <= Price(c, other, n)
  {
    PriceSplit(c, n, m, u, v, q, n);
    PriceSplit(c, n, m, u, v, other, n);
    ChargeBound(v, q, n, m);
    ChargeBound(v, other, n, m);
  }

  // ----- what the matcher promises: one-to-one partial assignments

  /** f[r] is the detection given to track r, or -1; no detection is given twice. */
  ghost predicate OneToOne(f: seq<int>, n: nat, d: nat) {
    && |f| == n
    && (forall r | 0 <= r < n :: -1 <= f[r] < d)
    && (forall r, s | 0 <= r < s < n && f[r] >= 0 :: f[r] != f[s])
  }

  /** Pair prices plus `unmatched` for every track left alone, over the first k tracks. */
  ghost function TotalPrice(c: Costs, unmatched: int, f: seq<int>, k: nat): int
    requires k <= |c| && k <= |f|
    requires forall r | 0 <= r < k :: -1 <= f[r] < |c[r]|
  {
    if k == 0 then 0
    else TotalPrice(c, unmatched, f, k - 1) + if f[k - 1] < 0 then unmatched else c[k - 1][f[k - 1]]
  }

  /** A partial assignment as a full one: an unmatched track takes its own dummy. */
  ghost function Completed(f: seq<int>, d: nat): (q: seq<nat>)
    requires forall r | 0 <= r < |f| :: -1 <= f[r] < d
    ensures |q| == |f| + 1
    ensures forall r | 1 <= r <= |f| :: q[r] == if f[r - 1] < 0 then d + r else f[r - 1] + 1
  {
    seq(|f| + 1, r requires 0 <= r <= |f| =>
      if r == 0 then 0 else if f[r - 1] < 0 then d + r else f[r - 1] + 1)
  }

  /** The detections behind a full assignment: any dummy means unmatched. */
  ghost function Matched(q: seq<nat>, n: nat, d: nat): (f: seq<int>)
    requires |q| > n && forall r | 1 <= r <= n :: 1 <= q[r]
    ensures |f| == n
    ensures forall r | 0 <= r < n :: f[r] == if q[r + 1] <= d then q[r + 1] - 1 else -1
  {
    seq(n, r requires 0 <= r < n => DetectionOf(q[r + 1], d))
  }

  /** The detection behind a column, -1 for column 0 and for a dummy. */
  ghost function DetectionOf(column: nat, d: nat): int {
    if column <= d then column - 1 else -1
  }

  lemma {:induction false} CompletedPrice(c: Costs, n: nat, d: nat, unmatched: int, f: seq<int>, k: nat)
    requires IsProblem(c, n, d, unmatched) && OneToOne(f, n, d) && k <= n
    ensures Columns(Completed(f, d), n, d + n)
    ensures Price(c, Completed(f, d), k) == TotalPrice(c, unmatched, f, k)
  {
    if k > 0 {
      CompletedPrice(c, n, d, unmatched, f, k - 1);
    }
  }

  lemma {:induction false} MatchedPrice(c: Costs, n: nat, d: nat, unmatched: int, q: seq<nat>, k: nat)
    requires IsProblem(c, n, d, unmatched) && Columns(q, n, d + n) && k <= n
    ensures OneToOne(Matched(q, n, d), n, d)
    ensures Price(c, q, k) == TotalPrice(c, unmatched, Matched(q, n, d), k)
  {
    if k > 0 {
      MatchedPrice(c, n, d, unmatched, q, k - 1);
    }
  }

  /** While a track is still waiting for a column, some dummy is free. */
  lemma FreeDummy(p: seq<nat>, q: seq<nat>, n: nat, d: nat, k: nat) returns (f: nat)
    requires Inverse(p, q, d + n, k, 0) && k < n
    ensures d < f <= d + n && p[f] == 0
  {
    if forall j | d < j <= d + n :: p[j] != 0 {
      var rows := seq(n, i requires 0 <= i < n => p[d + 1 + i] - 1);
      forall a, b | 0 <= a < b < n ensures rows[a] != rows[b] {
        assert q[p[d + 1 + a]] == d + 1 + a && q[p[d + 1 + b]] == d + 1 + b;
      }
      DistinctBounded(rows, k);
      assert false;
    }
    f :| d < f <= d + n && p[f] == 0;
  }

  // ----- the shortest augmenting path search

  /** One moment of the search for row i: the duals, the matching so far and the tree of used
      columns. `rank` orders used columns by discovery. */
  datatype Search = Search(
    u: seq<int>, v: seq<int>, p: seq<nat>, q: seq<nat>,
    way: seq<nat>, used: seq<bool>, rank: seq<nat>, minv: seq<int>)
  {
    ghost predicate Shaped(c: Costs, n: nat, m: nat) {
      && Sized(c, n, m, u, v) && |p| > m && |way| > m && |used| > m && |rank| > m && |minv| > m
      && forall j | 0 <= j <= m :: p[j] <= n
    }

    /** Column j hangs off the used column way[j] by a tight pair. */
    ghost predicate Hangs(c: Costs, n: nat, m: nat, j: nat)
      requires Shaped(c, n, m) && 1 <= j <= m
    {
      way[j] <= m && used[way[j]] && p[way[j]] != 0 && Slack(c, u, v, p[way[j]], j) == 0
    }

    /** minv[j] is the slack left between column j and the tree, attained through way[j]. */
    ghost predicate Reached(c: Costs, n: nat, m: nat, j: nat)
      requires Shaped(c, n, m) && 1 <= j <= m
    {
      way[j] <= m && used[way[j]] && p[way[j]] != 0 && Slack(c, u, v, p[way[j]], j) == minv[j]
    }

    ghost predicate Bounded(n: nat, unmatched: int, i: nat)
      requires |u| > n
    {
      && (forall r | 1 <= r <= n :: 0 <= u[r] <= unmatched)
      && (forall r | i < r <= n :: u[r] == 0)
    }

    /** The matching of rows 1..i-1 plus row i sitting in column 0, and its duals. */
    ghost predicate Matching(c: Costs, n: nat, m: nat, unmatched: int, i: nat)
      requires Shaped(c, n, m)
    {
      && 1 <= i <= n && p[0] == i
      && Feasible(c, n, m, u, v)
      && Inverse(p, q, m, i, m + 1)
      && Tight(c, n, m, u, v, p, 0)
      && FreeUncharged(m, v, p)
      && Bounded(n, unmatched, i)
    }

    ghost predicate Tree(c: Costs, n: nat, m: nat, count: nat)
      requires Shaped(c, n, m)
    {
      && (forall j | 0 <= j <= m && used[j] :: p[j] != 0 && rank[j] < count)
      && (forall j | 1 <= j <= m && used[j] :: Hangs(c, n, m, j) && rank[way[j]] < rank[j])
    }

    /** minv[j] is either the untouched sentinel, lowered along with everything else, or attained. */
    ghost predicate Attained(c: Costs, n: nat, m: nat, i: nat)
      requires Shaped(c, n, m) && i <= n
    {
      forall j | 1 <= j <= m && !used[j] ::
        0 <= minv[j] <= INF && (minv[j] == INF - u[i] || Reached(c, n, m, j))
    }

    /** No row of the tree is closer to column j than minv[j]. */
    ghost predicate Lower(c: Costs, n: nat, m: nat)
      requires Shaped(c, n, m)
    {
      forall j, k | 1 <= j <= m && !used[j] && 0 <= k <= m && used[k] && p[k] != 0 ::
        minv[j] <= Slack(c, u, v, p[k], j)
    }

    /** Column j0 is the next to join the tree. */
    ghost predicate Pending(c: Costs, n: nat, m: nat, j0: nat) {
      && Shaped(c, n, m) && j0 <= m && !used[j0]
      && (j0 == 0 ==> forall j | 0 <= j <= m :: !used[j])
      && (j0 != 0 ==> used[0] && Hangs(c, n, m, j0))
    }

    ghost predicate Invariant(c: Costs, n: nat, d: nat, unmatched: int, i: nat, count: nat)
      requires Shaped(c, n, d + n)
    {
      && Matching(c, n, d + n, unmatched, i)
      && Tree(c, n, d + n, count)
      && Attained(c, n, d + n, i) && Lower(c, n, d + n)
    }

    /** The invariant of the search. Its parts are in view only where `Open` is mentioned, which
        keeps the proofs of the methods over arrays small. */
    ghost predicate Ok(c: Costs, n: nat, d: nat, unmatched: int, i: nat, count: nat) {
      && IsProblem(c, n, d, unmatched)
      && Shaped(c, n, d + n) && 1 <= i <= n
      && forall k {:trigger Open(k)} :: Open(k) ==> Invariant(c, n, d, unmatched, i, count)
    }
  }

  /** After column j0 joined the tree and every unused column was compared with its row. */
  ghost predicate Relaxed(c: Costs, m: nat, j0: nat, s: Search, t: Search)
    requires s.Shaped(c, |c|, m) && t.Shaped(c, |c|, m) && j0 <= m && s.p[j0] != 0
  {
    && t.(way := s.way, minv := s.minv) == s.(used := s.used[j0 := true], rank := t.rank)
    && forall j | 1 <= j <= m && !t.used[j] ::
         var cur := Slack(c, s.u, s.v, s.p[j0], j);
         if cur < s.minv[j] then t.minv[j] == cur && t.way[j] == j0
         else t.minv[j] == s.minv[j] && t.way[j] == s.way[j]
  }

  /** After delta moved from the unused columns into the tree's duals. */
  ghost predicate Shifted(c: Costs, n: nat, m: nat, delta: int, s: Search, t: Search)
    requires s.Shaped(c, n, m) && t.Shaped(c, n, m) && |s.q| > n
  {
    && t.(u := s.u, v := s.v, minv := s.minv) == s
    && (forall r | 1 <= r <= n ::
          t.u[r] == s.u[r] + if s.q[r] <= m && s.used[s.q[r]] && s.p[s.q[r]] == r then delta else 0)
    && (forall j | 1 <= j <= m && s.used[j] :: t.v[j] == s.v[j] - delta)
    && (forall j | 1 <= j <= m && !s.used[j] :: t.v[j] == s.v[j] && t.minv[j] == s.minv[j] - delta)
  }

  /** Rows 1..k matched at least price, with the duals that prove it. In view only under `Open`. */
  ghost predicate Solved(c: Costs, n: nat, d: nat, unmatched: int, k: nat, u: seq<int>, v: seq<int>, p: seq<nat>,
                         q: seq<nat>) {
    && IsProblem(c, n, d, unmatched) && k <= n
    && Sized(c, n, d + n, u, v) && |p| > d + n && |q| == n + 1 && (forall j | 0 <= j <= d + n :: p[j] <= n)
    && forall o {:trigger Open(o)} :: Open(o) ==>
         && Feasible(c, n, d + n, u, v)
         && Inverse(p, q, d + n, k, 0)
         && Tight(c, n, d + n, u, v, p, 0)
         && FreeUncharged(d + n, v, p)
         && (forall r | 1 <= r <= n :: 0 <= u[r] <= unmatched)
         && (forall r | k < r <= n :: u[r] == 0)
  }

  lemma NothingMatched(c: Costs, n: nat, d: nat, unmatched: int, u: seq<int>, v: seq<int>, p: seq<nat>, q: seq<nat>)
    requires IsProblem(c, n, d, unmatched)
    requires |u| > n && |v| > d + n && |p| > d + n && |q| == n + 1
    requires (forall r | 1 <= r <= n :: u[r] == 0) && forall j | 0 <= j <= d + n :: v[j] == 0 && p[j] == 0
    ensures Solved(c, n, d, unmatched, 0, u, v, p, q)
  {
    assert forall r, j | 1 <= r <= n && 1 <= j <= d + n :: Slack(c, u, v, r, j) >= 0;
  }

  /** The search for row i starts from the finished matching of rows 1..i-1. */
  lemma SearchStarts(c: Costs, n: nat, d: nat, unmatched: int, i: nat, p: seq<nat>, q: seq<nat>, s: Search)
    requires 1 <= i <= n && Solved(c, n, d, unmatched, i - 1, s.u, s.v, p, q)
    requires s.Shaped(c, n, d + n) && s.p == p[0 := i] && s.q == q[i := 0]
    requires forall j | 0 <= j <= d + n :: !s.used[j] && s.minv[j] == INF
    ensures s.Ok(c, n, d, unmatched, i, 0) && s.Pending(c, n, d + n, 0) && s.u[i] == 0
    ensures exists f :: d < f <= d + n && s.p[f] == 0
  {
    assert Open(0);
    var f := FreeDummy(p, q, n, d, i - 1);
    assert s.p[f] == 0;
  }

  /** What the dual update reads off the invariant: who is in the tree and how large the numbers are. */
  lemma TreeRange(c: Costs, n: nat, d: nat, unmatched: int, i: nat, count: nat, f: nat, s: Search)
    requires s.Ok(c, n, d, unmatched, i, count)
    requires d < f <= d + n && s.p[f] == 0
    ensures 1 <= i <= n && s.p[0] == i && |s.q| > i && Inverse(s.p, s.q, d + n, i, d + n + 1)
    ensures forall j | 0 <= j <= d + n && s.used[j] :: s.p[j] != 0
    ensures forall r | 1 <= r <= n :: 0 <= s.u[r] <= unmatched
    ensures forall j | 1 <= j <= d + n :: -unmatched <= s.v[j] <= 0
    ensures forall j | 1 <= j <= d + n && !s.used[j] :: 0 <= s.minv[j] <= INF
  {
    assert Open(0);
    SlackRange(c, n, d, unmatched, i, count, 0, s);
  }

  /** Every slack the search computes stays far inside 64 bits. */
  lemma SlackRange(c: Costs, n: nat, d: nat, unmatched: int, i: nat, count: nat, j0: nat, s: Search)
    requires s.Ok(c, n, d, unmatched, i, count) && j0 <= d + n && s.p[j0] != 0
    requires exists f :: d < f <= d + n && s.p[f] == 0
    ensures forall j | 1 <= j <= d + n :: -unmatched <= s.v[j] <= 0
    ensures forall j | 1 <= j <= d + n :: 0 <= Slack(c, s.u, s.v, s.p[j0], j) <= 2 * INF
  {
    assert Open(0);
    forall j | 1 <= j <= d + n ensures -unmatched <= s.v[j] <= 0 {
      if s.p[j] != 0 {
        assert Slack(c, s.u, s.v, s.p[j], j) == 0;
      }
    }
  }

  lemma RelaxTree(c: Costs, n: nat, d: nat, unmatched: int, i: nat, count: nat, j0: nat, s: Search, t: Search)
    requires s.Ok(c, n, d, unmatched, i, count) && s.Pending(c, n, d + n, j0) && s.p[j0] != 0
    requires t.Shaped(c, n, d + n) && Relaxed(c, d + n, j0, s, t) && t.rank == s.rank[j0 := count]
    requires forall j | 1 <= j <= d + n && t.used[j] :: t.way[j] == s.way[j]
    ensures t.Tree(c, n, d + n, count + 1)
  {
    assert Open(0);
    forall j | 1 <= j <= d + n && t.used[j]
      ensures t.Hangs(c, n, d + n, j) && t.rank[t.way[j]] < t.rank[j]
    {
      assert s.Hangs(c, n, d + n, j);
    }
  }

  lemma RelaxFrontier(c: Costs, n: nat, d: nat, unmatched: int, i: nat, count: nat, j0: nat, s: Search, t: Search,
                      j: nat)
    requires s.Ok(c, n, d, unmatched, i, count) && s.Pending(c, n, d + n, j0) && s.p[j0] != 0
    requires t.Shaped(c, n, d + n) && Relaxed(c, d + n, j0, s, t)
    requires 1 <= j <= d + n && !t.used[j]
    ensures 0 <= t.minv[j] <= INF
    ensures t.minv[j] == INF - t.u[i] || t.Reached(c, n, d + n, j)
    ensures forall k | 0 <= k <= d + n && t.used[k] && t.p[k] != 0 ::
      t.minv[j] <= Slack(c, t.u, t.v, t.p[k], j)
  {
    assert Open(0);
    assert !s.used[j];
    assert s.minv[j] == INF - s.u[i] || s.Reached(c, n, d + n, j);
    assert Slack(c, s.u, s.v, s.p[j0], j) >= 0;
  }

  lemma RelaxFrontiers(c: Costs, n: nat, d: nat, unmatched: int, i: nat, count: nat, j0: nat, s: Search, t: Search)
    requires s.Ok(c, n, d, unmatched, i, count) && s.Pending(c, n, d + n, j0) && s.p[j0] != 0
    requires t.Shaped(c, n, d + n) && Relaxed(c, d + n, j0, s, t)
    ensures t.Attained(c, n, d + n, i) && t.Lower(c, n, d + n)
  {
    forall j | 1 <= j <= d + n && !t.used[j]
      ensures 0 <= t.minv[j] <= INF
      ensures t.minv[j] == INF - t.u[i] || t.Reached(c, n, d + n, j)
      ensures forall k | 0 <= k <= d + n && t.used[k] && t.p[k] != 0 ::
        t.minv[j] <= Slack(c, t.u, t.v, t.p[k], j)
    {
      RelaxFrontier(c, n, d, unmatched, i, count, j0, s, t, j);
    }
  }

  /** One round of comparisons grows the tree by column j0 and keeps every invariant. */
  lemma RelaxKeeps(c: Costs, n: nat, d: nat, unmatched: int, i: nat, count: nat, j0: nat, s: Search, t: Search)
    requires s.Ok(c, n, d, unmatched, i, count) && s.Pending(c, n, d + n, j0) && s.p[j0] != 0
    requires t.Shaped(c, n, d + n) && Relaxed(c, d + n, j0, s, t) && t.rank == s.rank[j0 := count]
    requires forall j | 1 <= j <= d + n && t.used[j] :: t.way[j] == s.way[j]
    ensures t.Ok(c, n, d, unmatched, i, count + 1) && t.used[0]
  {
    RelaxTree(c, n, d, unmatched, i, count, j0, s, t);
    RelaxFrontiers(c, n, d, unmatched, i, count, j0, s, t);
    assert t.Matching(c, n, d + n, unmatched, i) by {
      assert Open(0);
    }
  }

  /** Once j0 has joined, the column the comparison chose is the cheapest one left outside. */
  lemma JoinKeeps(c: Costs, n: nat, d: nat, unmatched: int, i: nat, count: nat, j0: nat, j1: nat, delta: int, f: nat,
                  s: Search, t: Search)
    requires s.Ok(c, n, d, unmatched, i, count) && s.Pending(c, n, d + n, j0) && s.p[j0] != 0
    requires t.Shaped(c, n, d + n) && Relaxed(c, d + n, j0, s, t) && t.rank == s.rank[j0 := count]
    requires forall j | 1 <= j <= d + n && t.used[j] :: t.way[j] == s.way[j]
    requires d < f <= d + n && s.p[f] == 0
    requires if j1 == 0 then delta == INF else j1 <= d + n && !t.used[j1] && delta == t.minv[j1]
    requires forall j | 1 <= j <= d + n && !t.used[j] :: delta <= t.minv[j]
    ensures t.Ok(c, n, d, unmatched, i, count + 1) && Cheapest(t, n, d, f, j1)
  {
    RelaxKeeps(c, n, d, unmatched, i, count, j0, s, t);
    TreeRange(c, n, d, unmatched, i, count + 1, f, t);
    DeltaCapped(c, n, d, unmatched, i, count + 1, f, t);
  }

  /** The free dummy caps every delta: the row of column 0 can always fall back on it. */
  lemma DeltaCapped(c: Costs, n: nat, d: nat, unmatched: int, i: nat, count: nat, f: nat, s: Search)
    requires s.Ok(c, n, d, unmatched, i, count) && s.used[0]
    requires d < f <= d + n && s.p[f] == 0
    ensures !s.used[f] && 0 <= s.minv[f] <= unmatched - s.u[i]
  {
    assert Open(0);
    assert s.minv[f] <= Slack(c, s.u, s.v, s.p[0], f);
  }

  /** Column j1 is the cheapest one outside the tree, and some dummy f is still free. */
  ghost predicate Cheapest(s: Search, n: nat, d: nat, f: nat, j1: nat)
    requires |s.used| > d + n && |s.minv| > d + n && |s.p| > d + n
  {
    && s.used[0] && d < f <= d + n && s.p[f] == 0
    && 1 <= j1 <= d + n && !s.used[j1]
    && forall j | 1 <= j <= d + n && !s.used[j] :: s.minv[j1] <= s.minv[j]
  }

  ghost predicate InTree(s: Search, m: nat, r: nat)
    requires r < |s.q| && |s.used| > m && |s.p| > m
  {
    s.q[r] <= m && s.used[s.q[r]] && s.p[s.q[r]] == r
  }

  lemma ShiftSlack(c: Costs, n: nat, m: nat, delta: int, s: Search, t: Search, r: nat, j: nat)
    requires s.Shaped(c, n, m) && t.Shaped(c, n, m) && |s.q| > n && Shifted(c, n, m, delta, s, t)
    requires 1 <= r <= n && 1 <= j <= m
    ensures Slack(c, t.u, t.v, r, j) == Slack(c, s.u, s.v, r, j)
      + (if s.used[j] then delta else 0) - (if InTree(s, m, r) then delta else 0)
  {
  }

  /** One update of the duals by the smallest slack outside the tree. */
  ghost predicate ShiftStep(c: Costs, n: nat, d: nat, unmatched: int, i: nat, count: nat, j1: nat, f: nat, s: Search,
                            t: Search) {
    && s.Ok(c, n, d, unmatched, i, count) && |s.q| > n && Cheapest(s, n, d, f, j1)
    && t.Shaped(c, n, d + n) && Shifted(c, n, d + n, s.minv[j1], s, t)
  }

  lemma ShiftFeasible(c: Costs, n: nat, d: nat, unmatched: int, i: nat, count: nat, j1: nat, f: nat, s: Search,
                      t: Search, r: nat, j: nat)
    requires ShiftStep(c, n, d, unmatched, i, count, j1, f, s, t)
    requires 1 <= r <= n && 1 <= j <= d + n
    ensures Slack(c, t.u, t.v, r, j) >= 0
  {
    assert Open(0);
    ShiftSlack(c, n, d + n, s.minv[j1], s, t, r, j);
    assert Slack(c, s.u, s.v, r, j) >= 0;
    if InTree(s, d + n, r) && !s.used[j] {
      var k := s.q[r];
      assert s.minv[j] <= Slack(c, s.u, s.v, s.p[k], j);
    }
  }

  /** A matched row knows its column, and the pair is tight. */
  lemma Owner(c: Costs, n: nat, d: nat, unmatched: int, i: nat, count: nat, s: Search, k: nat)
    requires s.Ok(c, n, d, unmatched, i, count) && |s.q| > n && k <= d + n && s.p[k] != 0
    ensures s.q[s.p[k]] == k && (k > 0 ==> Slack(c, s.u, s.v, s.p[k], k) == 0)
  {
    assert Open(0);
  }

  lemma ShiftTight(c: Costs, n: nat, d: nat, unmatched: int, i: nat, count: nat, j1: nat, f: nat, s: Search, t: Search,
                   j: nat)
    requires ShiftStep(c, n, d, unmatched, i, count, j1, f, s, t)
    requires 1 <= j <= d + n && s.p[j] != 0
    ensures Slack(c, t.u, t.v, s.p[j], j) == 0
  {
    Owner(c, n, d, unmatched, i, count, s, j);
    ShiftSlack(c, n, d + n, s.minv[j1], s, t, s.p[j], j);
  }

  lemma ShiftDuals(c: Costs, n: nat, d: nat, unmatched: int, i: nat, count: nat, j1: nat, f: nat, s: Search, t: Search)
    requires ShiftStep(c, n, d, unmatched, i, count, j1, f, s, t)
    ensures Feasible(c, n, d + n, t.u, t.v) && t.Bounded(n, unmatched, i)
  {
    assert Feasible(c, n, d + n, t.u, t.v) by {
      assert Open(0);
      forall r, j | 1 <= r <= n && 1 <= j <= d + n ensures Slack(c, t.u, t.v, r, j) >= 0 {
        ShiftFeasible(c, n, d, unmatched, i, count, j1, f, s, t, r, j);
      }
    }
    forall r | 1 <= r <= n ensures 0 <= t.u[r] <= unmatched && (i < r ==> t.u[r] == 0) {
      ShiftRow(c, n, d, unmatched, i, count, j1, f, s, t, r);
    }
  }

  lemma ShiftRow(c: Costs, n: nat, d: nat, unmatched: int, i: nat, count: nat, j1: nat, f: nat, s: Search, t: Search,
                 r: nat)
    requires ShiftStep(c, n, d, unmatched, i, count, j1, f, s, t)
    requires 1 <= r <= n
    ensures 0 <= t.u[r] <= unmatched && (i < r ==> t.u[r] == 0)
  {
    assert Open(0);
    ShiftFeasible(c, n, d, unmatched, i, count, j1, f, s, t, r, f);
  }

  lemma ShiftMatching(c: Costs, n: nat, d: nat, unmatched: int, i: nat, count: nat, j1: nat, f: nat, s: Search,
                      t: Search)
    requires ShiftStep(c, n, d, unmatched, i, count, j1, f, s, t)
    ensures t.Matching(c, n, d + n, unmatched, i)
  {
    ShiftDuals(c, n, d, unmatched, i, count, j1, f, s, t);
    forall j | 1 <= j <= d + n && s.p[j] != 0 ensures Slack(c, t.u, t.v, s.p[j], j) == 0 {
      ShiftTight(c, n, d, unmatched, i, count, j1, f, s, t, j);
    }
    assert Open(0);
  }

  /** A row that owns a used column is in the tree, so its slack to that column's children moves with it. */
  lemma ShiftReached(c: Costs, n: nat, d: nat, unmatched: int, i: nat, count: nat, j1: nat, f: nat, s: Search,
                     t: Search, k: nat, j: nat)
    requires ShiftStep(c, n, d, unmatched, i, count, j1, f, s, t)
    requires 1 <= j <= d + n && 0 <= k <= d + n && s.used[k] && s.p[k] != 0
    ensures Slack(c, t.u, t.v, s.p[k], j)
      == Slack(c, s.u, s.v, s.p[k], j) - if s.used[j] then 0 else s.minv[j1]
  {
    Owner(c, n, d, unmatched, i, count, s, k);
    ShiftSlack(c, n, d + n, s.minv[j1], s, t, s.p[k], j);
  }

  lemma ShiftTree(c: Costs, n: nat, d: nat, unmatched: int, i: nat, count: nat, j1: nat, f: nat, s: Search, t: Search)
    requires ShiftStep(c, n, d, unmatched, i, count, j1, f, s, t)
    ensures t.Tree(c, n, d + n, count)
  {
    assert Open(0);
    forall j | 1 <= j <= d + n && s.used[j] ensures t.Hangs(c, n, d + n, j) && t.rank[t.way[j]] < t.rank[j] {
      assert s.Hangs(c, n, d + n, j);
      ShiftReached(c, n, d, unmatched, i, count, j1, f, s, t, s.way[j], j);
    }
  }

  lemma ShiftFrontier(c: Costs, n: nat, d: nat, unmatched: int, i: nat, count: nat, j1: nat, f: nat, s: Search,
                      t: Search, j: nat)
    requires ShiftStep(c, n, d, unmatched, i, count, j1, f, s, t)
    requires t.u[i] == s.u[i] + s.minv[j1]
    requires 1 <= j <= d + n && !s.used[j]
    ensures 0 <= t.minv[j] <= INF
    ensures t.minv[j] == INF - t.u[i] || t.Reached(c, n, d + n, j)
  {
    if s.Reached(c, n, d + n, j) {
      ShiftReached(c, n, d, unmatched, i, count, j1, f, s, t, s.way[j], j);
    }
    FrontierBefore(c, n, d, unmatched, i, count, j1, f, s, j);
  }

  /** An unused column was reached, or still holds the sentinel. */
  lemma FrontierBefore(c: Costs, n: nat, d: nat, unmatched: int, i: nat, count: nat, j1: nat, f: nat, s: Search, j: nat)
    requires s.Ok(c, n, d, unmatched, i, count) && Cheapest(s, n, d, f, j1) && 1 <= j <= d + n && !s.used[j]
    ensures s.minv[j1] <= s.minv[j] <= INF && s.minv[j1] >= 0
    ensures s.minv[j] == INF - s.u[i] || s.Reached(c, n, d + n, j)
  {
    assert Open(0);
  }

  lemma ShiftBound(c: Costs, n: nat, d: nat, unmatched: int, i: nat, count: nat, j1: nat, f: nat, s: Search, t: Search,
                   j: nat, k: nat)
    requires ShiftStep(c, n, d, unmatched, i, count, j1, f, s, t)
    requires 1 <= j <= d + n && !s.used[j]
    requires 0 <= k <= d + n && s.used[k] && s.p[k] != 0
    ensures t.minv[j] <= Slack(c, t.u, t.v, s.p[k], j)
  {
    assert Open(0);
    ShiftReached(c, n, d, unmatched, i, count, j1, f, s, t, k, j);
    assert s.minv[j] <= Slack(c, s.u, s.v, s.p[k], j);
  }

  lemma ShiftPending(c: Costs, n: nat, d: nat, unmatched: int, i: nat, count: nat, j1: nat, f: nat, s: Search,
                     t: Search)
    requires ShiftStep(c, n, d, unmatched, i, count, j1, f, s, t)
    ensures t.Pending(c, n, d + n, j1)
  {
    assert Open(0);
    DeltaCapped(c, n, d, unmatched, i, count, f, s);
    assert s.Reached(c, n, d + n, j1);
    ShiftReached(c, n, d, unmatched, i, count, j1, f, s, t, s.way[j1], j1);
  }

  lemma ShiftAttained(c: Costs, n: nat, d: nat, unmatched: int, i: nat, count: nat, j1: nat, f: nat, s: Search,
                      t: Search)
    requires ShiftStep(c, n, d, unmatched, i, count, j1, f, s, t)
    ensures t.Attained(c, n, d + n, i)
  {
    OwnsRoot(c, n, d, unmatched, i, count, s);
    forall j | 1 <= j <= d + n && !s.used[j]
      ensures 0 <= t.minv[j] <= INF && (t.minv[j] == INF - t.u[i] || t.Reached(c, n, d + n, j))
    {
      ShiftFrontier(c, n, d, unmatched, i, count, j1, f, s, t, j);
    }
  }

  lemma OwnsRoot(c: Costs, n: nat, d: nat, unmatched: int, i: nat, count: nat, s: Search)
    requires s.Ok(c, n, d, unmatched, i, count) && |s.q| > n
    ensures s.p[0] == i && s.q[i] == 0
  {
    assert Open(0);
  }

  lemma ShiftLower(c: Costs, n: nat, d: nat, unmatched: int, i: nat, count: nat, j1: nat, f: nat, s: Search, t: Search)
    requires ShiftStep(c, n, d, unmatched, i, count, j1, f, s, t)
    ensures t.Lower(c, n, d + n)
  {
    forall j, k | 1 <= j <= d + n && !s.used[j] && 0 <= k <= d + n && s.used[k] && s.p[k] != 0
      ensures t.minv[j] <= Slack(c, t.u, t.v, s.p[k], j)
    {
      ShiftBound(c, n, d, unmatched, i, count, j1, f, s, t, j, k);
    }
  }

  /** Moving delta into the tree keeps every invariant and makes column j1 hang off the tree. */
  lemma ShiftKeeps(c: Costs, n: nat, d: nat, unmatched: int, i: nat, count: nat, j1: nat, f: nat, s: Search, t: Search)
    requires ShiftStep(c, n, d, unmatched, i, count, j1, f, s, t)
    ensures t.Ok(c, n, d, unmatched, i, count) && t.Pending(c, n, d + n, j1)
  {
    assert Open(0);
    ShiftMatching(c, n, d, unmatched, i, count, j1, f, s, t);
    ShiftTree(c, n, d, unmatched, i, count, j1, f, s, t);
    ShiftAttained(c, n, d, unmatched, i, count, j1, f, s, t);
    ShiftLower(c, n, d, unmatched, i, count, j1, f, s, t);
    ShiftPending(c, n, d, unmatched, i, count, j1, f, s, t);
  }

  // ----- augmenting along the tree

  /** How far column `hole` is from the root of the tree. */
  ghost function Depth(s: Search, count: nat, j0: nat, hole: nat): nat
    requires hole < |s.rank|
  {
    if hole == j0 then count else s.rank[hole]
  }

  ghost predicate Shifting(c: Costs, n: nat, m: nat, i: nat, count: nat, s: Search, j0: nat, p: seq<nat>, q: seq<nat>,
                           hole: nat)
    requires s.Shaped(c, n, m) && |p| > m && |q| == n + 1 && hole <= m && i <= n
    requires forall j | 0 <= j <= m :: p[j] <= n
  {
    && Inverse(p, q, m, i, hole)
    && Tight(c, n, m, s.u, s.v, p, hole)
    && (hole == j0 || s.used[hole]) && (hole != 0 ==> s.Hangs(c, n, m, hole))
    && (forall j | 0 <= j <= m && s.used[j] && s.rank[j] < Depth(s, count, j0, hole) :: p[j] == s.p[j])
    && (hole != 0 ==> s.rank[s.way[hole]] < Depth(s, count, j0, hole))
    && (forall j | 1 <= j <= m && j != hole && p[j] == 0 :: s.p[j] == 0)
  }

  /** Every pair along the walked path is re-matched, except that `hole` still waits for its row.
      In view only under `Open`. */
  ghost predicate Augmenting(c: Costs, n: nat, d: nat, unmatched: int, i: nat, count: nat, s: Search, j0: nat,
                             p: seq<nat>, q: seq<nat>, hole: nat) {
    && s.Ok(c, n, d, unmatched, i, count)
    && |p| > d + n && |q| == n + 1 && hole <= d + n && j0 <= d + n && s.p[j0] == 0
    && (forall j | 0 <= j <= d + n :: p[j] <= n)
    && forall o {:trigger Open(o)} :: Open(o) ==> Shifting(c, n, d + n, i, count, s, j0, p, q, hole)
  }

  lemma AugmentStarts(c: Costs, n: nat, d: nat, unmatched: int, i: nat, count: nat, s: Search, j0: nat)
    requires s.Ok(c, n, d, unmatched, i, count) && s.Pending(c, n, d + n, j0)
    requires j0 != 0 && s.p[j0] == 0 && |s.q| == n + 1
    ensures Augmenting(c, n, d, unmatched, i, count, s, j0, s.p, s.q, j0)
  {
    assert Open(0);
  }

  lemma MoveRow(p: seq<nat>, q: seq<nat>, m: nat, k: nat, hole: nat, next: nat)
    requires Inverse(p, q, m, k, hole) && hole <= m && next <= m && next != hole && p[next] != 0
    ensures p[next] <= k && Inverse(p[hole := p[next]], q[p[next] := hole], m, k, next)
  {
  }

  /** The row the hole will receive comes from the next column of the path, untouched so far. */
  lemma NextRow(c: Costs, n: nat, m: nat, i: nat, count: nat, s: Search, j0: nat, p: seq<nat>, q: seq<nat>, hole: nat)
    requires s.Shaped(c, n, m) && |p| > m && |q| == n + 1 && 0 < hole <= m && i <= n
    requires forall j | 0 <= j <= m :: p[j] <= n
    requires Shifting(c, n, m, i, count, s, j0, p, q, hole) && j0 <= m && s.p[j0] == 0
    ensures s.way[hole] <= m && s.way[hole] != hole && p[s.way[hole]] == s.p[s.way[hole]] != 0
    ensures Slack(c, s.u, s.v, p[s.way[hole]], hole) == 0
  {
    assert s.Hangs(c, n, m, hole);
  }

  lemma ShiftingKeeps(c: Costs, n: nat, m: nat, i: nat, count: nat, s: Search, j0: nat, p: seq<nat>, q: seq<nat>,
                      hole: nat)
    requires s.Shaped(c, n, m) && |p| > m && |q| == n + 1 && 0 < hole <= m && i <= n
    requires forall j | 0 <= j <= m :: p[j] <= n
    requires Shifting(c, n, m, i, count, s, j0, p, q, hole) && j0 <= m && s.p[j0] == 0
    requires s.Tree(c, n, m, count)
    ensures s.way[hole] <= m && p[s.way[hole]] < |q|
    ensures Shifting(c, n, m, i, count, s, j0, p[hole := p[s.way[hole]]], q[p[s.way[hole]] := hole], s.way[hole])
  {
    var next := s.way[hole];
    NextRow(c, n, m, i, count, s, j0, p, q, hole);
    MoveRow(p, q, m, i, hole, next);
    assert next != j0;
    if next != 0 {
      assert s.Hangs(c, n, m, next);
    }
  }

  lemma OpenAugmenting(c: Costs, n: nat, d: nat, unmatched: int, i: nat, count: nat, s: Search, j0: nat, p: seq<nat>,
                       q: seq<nat>, hole: nat)
    requires Augmenting(c, n, d, unmatched, i, count, s, j0, p, q, hole)
    ensures Shifting(c, n, d + n, i, count, s, j0, p, q, hole) && s.Tree(c, n, d + n, count)
  {
    assert Open(0);
  }

  lemma CloseAugmenting(c: Costs, n: nat, d: nat, unmatched: int, i: nat, count: nat, s: Search, j0: nat, p: seq<nat>,
                        q: seq<nat>, hole: nat)
    requires s.Ok(c, n, d, unmatched, i, count)
    requires |p| > d + n && |q| == n + 1 && hole <= d + n && j0 <= d + n && s.p[j0] == 0
    requires forall j | 0 <= j <= d + n :: p[j] <= n
    requires Shifting(c, n, d + n, i, count, s, j0, p, q, hole)
    ensures Augmenting(c, n, d, unmatched, i, count, s, j0, p, q, hole)
  {
  }

  /** One step of the walk keeps the re-matching invariant and comes closer to the root. */
  lemma AugmentKeeps(c: Costs, n: nat, d: nat, unmatched: int, i: nat, count: nat, s: Search, j0: nat, p: seq<nat>,
                     q: seq<nat>, hole: nat)
    requires Augmenting(c, n, d, unmatched, i, count, s, j0, p, q, hole) && hole != 0
    ensures s.way[hole] <= d + n && Depth(s, count, j0, s.way[hole]) < Depth(s, count, j0, hole)
    ensures var row := p[s.way[hole]];
      row < |q| && Augmenting(c, n, d, unmatched, i, count, s, j0, p[hole := row], q[row := hole], s.way[hole])
  {
    OpenAugmenting(c, n, d, unmatched, i, count, s, j0, p, q, hole);
    NextRow(c, n, d + n, i, count, s, j0, p, q, hole);
    ShiftingKeeps(c, n, d + n, i, count, s, j0, p, q, hole);
    var next := s.way[hole];
    CloseAugmenting(c, n, d, unmatched, i, count, s, j0, p[hole := p[next]], q[p[next] := hole], next);
  }

  lemma AugmentEnds(c: Costs, n: nat, d: nat, unmatched: int, i: nat, count: nat, s: Search, j0: nat, p: seq<nat>,
                    q: seq<nat>)
    requires Augmenting(c, n, d, unmatched, i, count, s, j0, p, q, 0)
    ensures Solved(c, n, d, unmatched, i, s.u, s.v, p, q)
  {
    assert Open(0);
  }

  // ----- what a finished matching means

  lemma OpenSolved(c: Costs, n: nat, d: nat, unmatched: int, u: seq<int>, v: seq<int>, p: seq<nat>, q: seq<nat>)
    requires Solved(c, n, d, unmatched, n, u, v, p, q)
    ensures Feasible(c, n, d + n, u, v) && Inverse(p, q, d + n, n, 0) && Columns(q, n, d + n)
    ensures forall r | 1 <= r <= n :: Slack(c, u, v, r, q[r]) == 0
    ensures forall j | 1 <= j <= d + n && (forall r | 1 <= r <= n :: q[r] != j) :: v[j] == 0
    ensures forall r | 1 <= r <= n :: 0 <= u[r] <= unmatched
    ensures forall j | 1 <= j <= d + n :: -unmatched <= v[j] <= 0
  {
    assert Open(0);
    forall r | 1 <= r <= n ensures Slack(c, u, v, r, q[r]) == 0 {
      assert p[q[r]] == r;
    }
    forall j | 1 <= j <= d + n ensures -unmatched <= v[j] <= 0 {
      if p[j] != 0 {
        assert Slack(c, u, v, p[j], j) == 0;
      }
    }
    forall j | 1 <= j <= d + n
      ensures v[j] == 0 || exists r :: 1 <= r <= n && q[r] == j
    {
      if p[j] != 0 {
        assert q[p[j]] == j;
      }
    }
  }

  /** No one-to-one assignment, gated or not, is cheaper than a finished matching. */
  lemma SolvedIsCheapest(c: Costs, n: nat, d: nat, unmatched: int, u: seq<int>, v: seq<int>, p: seq<nat>, q: seq<nat>,
                         other: seq<int>)
    requires Solved(c, n, d, unmatched, n, u, v, p, q) && OneToOne(other, n, d)
    ensures Columns(q, n, d + n) && OneToOne(Matched(q, n, d), n, d)
    ensures TotalPrice(c, unmatched, Matched(q, n, d), n) <= TotalPrice(c, unmatched, other, n)
  {
    OpenSolved(c, n, d, unmatched, u, v, p, q);
    CompletedPrice(c, n, d, unmatched, other, n);
    MatchedPrice(c, n, d, unmatched, q, n);
    TightIsCheapest(c, n, d + n, u, v, q, Completed(other, d));
  }

  /** A matched pair never costs more than leaving its track unmatched, so no forbidden pair is
      ever matched and the final filter on half the sentinel drops nothing. */
  lemma MatchedPairsAreCheap(c: Costs, n: nat, d: nat, unmatched: int, u: seq<int>, v: seq<int>, p: seq<nat>,
                             q: seq<nat>)
    requires Solved(c, n, d, unmatched, n, u, v, p, q)
    ensures forall j | 1 <= j <= d && p[j] != 0 :: c[p[j] - 1][j - 1] <= unmatched < INF / 2
  {
    OpenSolved(c, n, d, unmatched, u, v, p, q);
    forall j | 1 <= j <= d && p[j] != 0 ensures c[p[j] - 1][j - 1] <= unmatched {
      assert Slack(c, u, v, p[j], q[p[j]]) == 0;
    }
  }

  /** The least total price over every one-to-one assignment. */
  ghost predicate IsCheapest(c: Costs, n: nat, d: nat, unmatched: int, f: seq<int>)
    requires IsProblem(c, n, d, unmatched)
  {
    && OneToOne(f, n, d)
    && forall other | OneToOne(other, n, d) ::
         TotalPrice(c, unmatched, f, n) <= TotalPrice(c, unmatched, other, n)
  }

  /** What is left to read off the arrays: the pairs themselves, each within the price of giving up. */
  lemma SolvedPairs(c: Costs, n: nat, d: nat, unmatched: int, u: seq<int>, v: seq<int>, p: seq<nat>, q: seq<nat>)
    requires Solved(c, n, d, unmatched, n, u, v, p, q)
    ensures forall r | 1 <= r <= n :: 1 <= q[r] <= d + n && p[q[r]] == r
    ensures forall j | 1 <= j <= d && p[j] != 0 ::
      p[j] <= n && q[p[j]] == j && c[p[j] - 1][j - 1] <= unmatched < INF / 2
    ensures forall r | 0 <= r < n && q[r + 1] <= d :: c[r][q[r + 1] - 1] <= unmatched
  {
    assert Open(0);
    MatchedPairsAreCheap(c, n, d, unmatched, u, v, p, q);
    forall r | 0 <= r < n && q[r + 1] <= d ensures c[r][q[r + 1] - 1] <= unmatched {
      assert p[q[r + 1]] == r + 1;
    }
  }

  /** The finished matching is a cheapest one-to-one assignment. */
  lemma SolvedResult(c: Costs, n: nat, d: nat, unmatched: int, u: seq<int>, v: seq<int>, p: seq<nat>, q: seq<nat>)
    requires Solved(c, n, d, unmatched, n, u, v, p, q)
    ensures Columns(q, n, d + n) && IsCheapest(c, n, d, unmatched, Matched(q, n, d))
  {
    OpenSolved(c, n, d, unmatched, u, v, p, q);
    MatchedPrice(c, n, d, unmatched, q, 0);
    forall other | OneToOne(other, n, d)
      ensures TotalPrice(c, unmatched, Matched(q, n, d), n) <= TotalPrice(c, unmatched, other, n)
    {
      SolvedIsCheapest(c, n, d, unmatched, u, v, p, q, other);
    }
  }
}
