/** Ghost contacts: weak partners in the row of a much stronger contact, with no track of their own. */
module Ghosts {
  import opened Arithmetic
  import opened Tracks
  import opened Centroids

  datatype GhostConfig = GhostConfig(enabled: bool, rowDistance: nat, weakRatioQ8: nat, minColDistance: nat)
  {
    predicate Valid() { weakRatioQ8 <= 255 }
  }

  /** The contacts of a frame with their positions. */
  datatype Found = Found(det: seq<Pos>, sums: seq<int>)
  {
    predicate Sized() { |det| == |sums| }
  }

  /** An active track expects a contact where contact i is. */
  ghost predicate Linked(dist2Max: int, tracks: seq<Track>, p: Pos) {
    exists ti | 0 <= ti < |tracks| :: tracks[ti].active && Dist2Predicted(p, tracks[ti]) <= dist2Max
  }

  function WeakOf(f: Found, i: nat, j: nat): nat
    requires f.Sized() && i < |f.det| && j < |f.det|
  {
    if f.sums[i] >= f.sums[j] then j else i
  }

  /** Contacts i and j lie in one row, far apart, and one is much weaker. */
  predicate Lopsided(g: GhostConfig, f: Found, i: nat, j: nat)
    requires f.Sized() && i < j < |f.det|
  {
    && Abs(f.det[i].y - f.det[j].y) <= g.rowDistance && Abs(f.det[i].x - f.det[j].x) >= g.minColDistance
    && Min(f.sums[i], f.sums[j]) * 256 <= Max(f.sums[i], f.sums[j]) * g.weakRatioQ8
  }

  ghost predicate Ghost(g: GhostConfig, dist2Max: int, tracks: seq<Track>, f: Found, w: nat)
    requires f.Sized() && w < |f.det|
  {
    !Linked(dist2Max, tracks, f.det[w])
    && exists i, j | 0 <= i < j < |f.det| :: Lopsided(g, f, i, j) && WeakOf(f, i, j) == w
  }

  /** Some slot in use expects a contact within the gate of p, this many frames on at its last speed. */
  ghost predicate Expected(dist2Max: int, tracks: seq<Track>, p: Pos) {
    exists ti | 0 <= ti < |tracks| ::
      var t := tracks[ti];
      var dx, dy := p.x - t.x - (t.missed as int + 1) * t.vx, p.y - t.y - (t.missed as int + 1) * t.vy;
      t.active && dx * dx + dy * dy <= dist2Max
  }

  lemma LinkedExactlyWhen(dist2Max: int, tracks: seq<Track>, p: Pos)
    ensures Linked(dist2Max, tracks, p) <==> Expected(dist2Max, tracks, p)
  {
    forall ti | 0 <= ti < |tracks|
      ensures var t := tracks[ti];
        var dx, dy := p.x - t.x - (t.missed as int + 1) * t.vx, p.y - t.y - (t.missed as int + 1) * t.vy;
        Dist2Predicted(p, t) == dx * dx + dy * dy
    {
      var t := tracks[ti];
      SquareIs(t.x, t.vx, t.missed as int + 1, p.x);
      SquareIs(t.y, t.vy, t.missed as int + 1, p.y);
    }
  }

  lemma SquareIs(x: int, v: int, k: int, p: int)
    ensures Square(p - (x + v * k)) == (p - x - k * v) * (p - x - k * v)
  {
    assert p - (x + v * k) == p - x - k * v;
  }

  /** Contact w is a ghost exactly when no track expects it and some other contact stands in the same row, at
      least the given distance away, and is so much stronger; of two equally strong ones the later goes. */
  lemma GhostExactlyWhen(g: GhostConfig, dist2Max: int, tracks: seq<Track>, f: Found, w: nat)
    requires f.Sized() && w < |f.det|
    ensures Ghost(g, dist2Max, tracks, f, w) <==>
      !Expected(dist2Max, tracks, f.det[w]) && exists k :: Overshadows(g, f, k, w)
  {
    LinkedExactlyWhen(dist2Max, tracks, f.det[w]);
    if i, j :| 0 <= i < j < |f.det| && Lopsided(g, f, i, j) && WeakOf(f, i, j) == w {
      PairOvershadows(g, f, i, j, w);
      assert Overshadows(g, f, if w == i then j else i, w);
    }
    if k :| Overshadows(g, f, k, w) {
      var i, j := if k < w then k else w, if k < w then w else k;
      PairOvershadows(g, f, i, j, w);
      assert Lopsided(g, f, i, j) && WeakOf(f, i, j) == w;
    }
  }

  lemma PairOvershadows(g: GhostConfig, f: Found, i: nat, j: nat, w: nat)
    requires f.Sized() && i < j < |f.det| && w < |f.det|
    ensures Lopsided(g, f, i, j) && WeakOf(f, i, j) == w <==>
      (w == i && Overshadows(g, f, j, w)) || (w == j && Overshadows(g, f, i, w))
  {
  }

  /** Contact k stands in the row of contact w, far from it, and is much stronger. */
  predicate Overshadows(g: GhostConfig, f: Found, k: int, w: nat)
    requires f.Sized() && w < |f.det|
  {
    && 0 <= k < |f.det| && k != w
    && f.det[k].y - f.det[w].y <= g.rowDistance && f.det[w].y - f.det[k].y <= g.rowDistance
    && (f.det[k].x - f.det[w].x >= g.minColDistance || f.det[w].x - f.det[k].x >= g.minColDistance)
    && f.sums[w] * 256 <= f.sums[k] * g.weakRatioQ8 && (f.sums[w] < f.sums[k] || (f.sums[w] == f.sums[k] && k < w))
  }

  /** Pairs before (i, j) in scan order. */
  ghost predicate GhostBefore(g: GhostConfig, dist2Max: int, tracks: seq<Track>, f: Found, w: nat, i: nat, j: nat)
    requires f.Sized() && w < |f.det|
  {
    !Linked(dist2Max, tracks, f.det[w])
    && exists a, b | 0 <= a < b < |f.det| && (a < i || (a == i && b < j)) ::
      Lopsided(g, f, a, b) && WeakOf(f, a, b) == w
  }

  /** The entries that are not marked, in order. */
  function Thin<T>(s: seq<T>, drop: seq<bool>): (r: seq<T>)
    requires |s| <= |drop|
    ensures |r| <= |s|
  {
    if s == [] then []
    else Thin(s[..|s| - 1], drop) + if drop[|s| - 1] then [] else [s[|s| - 1]]
  }

  lemma {:induction false} ThinKeeps<T>(s: seq<T>, drop: seq<bool>)
    requires |s| <= |drop|
    ensures multiset(Thin(s, drop)) <= multiset(s)
    ensures forall k | 0 <= k < |s| && !drop[k] :: s[k] in Thin(s, drop)
  {
    if s != [] {
      ThinKeeps(s[..|s| - 1], drop);
      assert s == s[..|s| - 1] + [s[|s| - 1]];
    }
  }

  /** Two tables thinned by the same marks stay in step. */
  lemma {:induction false} ThinInStep<T, U>(s: seq<T>, t: seq<U>, drop: seq<bool>, image: T -> U)
    requires |s| == |t| <= |drop| && forall k | 0 <= k < |s| :: t[k] == image(s[k])
    ensures |Thin(s, drop)| == |Thin(t, drop)|
    ensures forall k | 0 <= k < |Thin(s, drop)| :: Thin(t, drop)[k] == image(Thin(s, drop)[k])
  {
    if s != [] {
      ThinInStep(s[..|s| - 1], t[..|t| - 1], drop, image);
    }
  }

  /** The strongest contact is never taken for a ghost, nor is one a track expects. */
  lemma StrongestIsNoGhost(g: GhostConfig, dist2Max: int, tracks: seq<Track>, f: Found, w: nat)
    requires g.Valid() && f.Sized() && w < |f.det|
    ensures Linked(dist2Max, tracks, f.det[w]) ==> !Ghost(g, dist2Max, tracks, f, w)
    ensures f.sums[w] > 0 && (forall k | 0 <= k < |f.det| :: f.sums[k] <= f.sums[w]) ==>
      !Ghost(g, dist2Max, tracks, f, w)
  {
    forall i, j | 0 <= i < j < |f.det| && Lopsided(g, f, i, j) && WeakOf(f, i, j) == w && f.sums[w] > 0
      ensures exists k :: 0 <= k < |f.det| && f.sums[k] > f.sums[w]
    {
      var strong := if w == i then j else i;
      WeakerThan(f.sums[w], f.sums[strong], g.weakRatioQ8);
    }
  }

  lemma WeakerThan(weak: int, strong: int, ratio: nat)
    requires 0 < weak <= strong && ratio <= 255 && weak * 256 <= strong * ratio
    ensures weak < strong
  {
    MulLe(ratio, 255, strong);
  }
}
