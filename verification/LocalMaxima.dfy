/** The asymmetric local-maximum test: strictly above every earlier cell in the window, at least
    level with every later one. Earlier and later are row-major. */
module LocalMaxima {
  import opened Machine
  import opened Grid
  import opened Components

  /** Cell b lies in the square window of this radius around cell a. */
  predicate Near(a: nat, b: nat, radius: int) {
    -radius <= Row(b) - Row(a) <= radius && -radius <= Col(b) - Col(a) <= radius
  }

  /** Cell a is not beaten by cell b. */
  predicate Beats(f: Frame, a: nat, b: nat)
    requires a < PIXELS && b < PIXELS
  {
    if a < b then f[b] <= f[a] else f[b] < f[a]
  }

  ghost predicate IsPeak(f: Frame, radius: int, a: nat) {
    a < PIXELS && forall b | 0 <= b < PIXELS && b != a && Near(a, b, radius) :: Beats(f, a, b)
  }

  /** Two peaks are more than the radius apart, in rows or in columns. */
  lemma PeaksApart(f: Frame, radius: int, a: nat, b: nat)
    requires IsPeak(f, radius, a) && IsPeak(f, radius, b) && a != b
    ensures !Near(a, b, radius)
  {
    assert Near(a, b, radius) ==> Beats(f, a, b);
    assert Near(b, a, radius) ==> Beats(f, b, a);
  }

  /** Offset (dr, dc) leads forward exactly when it leads to a later cell. */
  lemma LaterIsAfter(r: int, c: int, dr: int, dc: int)
    requires InGrid(r, c) && InGrid(r + dr, c + dc) && (dr != 0 || dc != 0)
    ensures Cell(r, c) < Cell(r + dr, c + dc) <==> (dr > 0 || (dr == 0 && dc > 0))
    ensures Cell(r, c) != Cell(r + dr, c + dc)
  {
  }

  /** No window cell above row offset `upTo` beats cell a. */
  ghost predicate RowsUnbeaten(f: Frame, a: nat, radius: int, upTo: int)
    requires a < PIXELS
  {
    forall b | 0 <= b < PIXELS && b != a && Near(a, b, radius) && Row(b) - Row(a) < upTo :: Beats(f, a, b)
  }

  /** In the row at offset dr, none left of column offset `upTo` does. */
  ghost predicate ColsUnbeaten(f: Frame, a: nat, radius: int, dr: int, upTo: int)
    requires a < PIXELS
  {
    forall b |
      0 <= b < PIXELS && b != a && Near(a, b, radius) && Row(b) - Row(a) == dr && Col(b) - Col(a) < upTo ::
      Beats(f, a, b)
  }

  /** One more window position was looked at. */
  lemma ColumnDone(f: Frame, a: nat, radius: int, dr: int, dc: int)
    requires a < PIXELS && ColsUnbeaten(f, a, radius, dr, dc)
    requires (dr != 0 || dc != 0) && InGrid(Row(a) + dr, Col(a) + dc) ==> Beats(f, a, Cell(Row(a) + dr, Col(a) + dc))
    ensures ColsUnbeaten(f, a, radius, dr, dc + 1)
  {
    forall b | 0 <= b < PIXELS && b != a && Near(a, b, radius) && Row(b) - Row(a) == dr && Col(b) - Col(a) < dc + 1
      ensures Beats(f, a, b)
    {
      CellOfRowCol(b);
      CellOfRowCol(a);
    }
  }

  /** One row of the window, position by position. */
  method RowUnbeaten(frame: array<s16>, ghost f: Frame, radius: int, r: nat, c: nat, dr: int) returns (unbeaten: bool)
    requires frame[..] == f && InGrid(r, c) && -radius <= dr <= radius
    ensures unbeaten == ColsUnbeaten(f, Cell(r, c), radius, dr, radius + 1)
  {
    ghost var a := Cell(r, c);
    for dc: int := -radius to radius + 1
      invariant ColsUnbeaten(f, a, radius, dr, dc)
    {
      if (dr != 0 || dc != 0) && InGrid(r + dr, c + dc) {
        var nv := frame[(r + dr) * 60 + c + dc];
        ghost var b := Cell(r + dr, c + dc);
        LaterIsAfter(r, c, dr, dc);
        assert Near(a, b, radius) && f[b] == nv;
        var later := dr > 0 || (dr == 0 && dc > 0);
        if (later && nv > frame[r * 60 + c]) || (!later && nv >= frame[r * 60 + c]) {
          assert !Beats(f, a, b);
          return false;
        }
      }
      ColumnDone(f, a, radius, dr, dc);
    }
    return true;
  }

  /** The window test, row by row. */
  method IsAsymmetricPeak(frame: array<s16>, ghost f: Frame, radius: int, r: nat, c: nat) returns (peak: bool)
    requires frame[..] == f && InGrid(r, c) && radius >= 0
    ensures peak == IsPeak(f, radius, Cell(r, c))
  {
    for dr: int := -radius to radius + 1
      invariant RowsUnbeaten(f, Cell(r, c), radius, dr)
    {
      var unbeaten := RowUnbeaten(frame, f, radius, r, c, dr);
      if !unbeaten {
        return false;
      }
    }
    return true;
  }

  // ----- which cells of a zone, and of a plateau, are peaks

  lemma AdjacentIsNear(a: nat, b: nat)
    requires a < PIXELS && b < PIXELS
    ensures Adjacent(a, b) <==> a != b && Near(a, b, 1)
  {
  }

  /** The highest cell of a zone, first one on ties. */
  ghost predicate FirstHighest(f: Frame, cells: seq<nat>, a: nat) {
    && a in cells && (forall b | b in cells :: b < PIXELS) && a < PIXELS
    && (forall b | b in cells :: f[b] < f[a] || (f[b] == f[a] && a <= b))
  }

  /** With radius 1 the first highest cell of every zone is a peak. */
  lemma FirstHighestIsPeak(f: Frame, t: int, cells: seq<nat>, seed: nat, a: nat)
    requires IsComponent(f, t, cells, seed) && FirstHighest(f, cells, a) && f[a] >= t
    ensures IsPeak(f, 1, a)
  {
    forall b | 0 <= b < PIXELS && b != a && Near(a, b, 1) ensures Beats(f, a, b) {
      AdjacentIsNear(a, b);
      if f[b] >= t {
        ConnectedStep(f, t, seed, a, b);
      }
    }
  }

  /** A plateau: a connected region, level throughout, with everything around it lower. */
  ghost predicate IsPlateau(f: Frame, v: int, cells: seq<nat>, seed: nat) {
    && IsComponent(f, v, cells, seed) && |cells| > 0
    && forall b | b in cells :: b < PIXELS && f[b] == v
  }

  /** The windows of its cells show no other cell at least as high. At radius 1 that is so of every
      plateau. */
  ghost predicate StandsAlone(f: Frame, v: int, cells: seq<nat>, radius: int) {
    forall a, b | a in cells && 0 <= b < PIXELS && Near(a, b, radius) && f[b] >= v :: b in cells
  }

  lemma AloneAtRadiusOne(f: Frame, v: int, cells: seq<nat>, seed: nat)
    requires IsPlateau(f, v, cells, seed)
    ensures StandsAlone(f, v, cells, 1)
  {
    forall a, b | a in cells && 0 <= b < PIXELS && Near(a, b, 1) && f[b] >= v ensures b in cells {
      AdjacentIsNear(a, b);
      if a != b {
        ConnectedStep(f, v, seed, a, b);
      }
    }
  }

  /** An earlier cell of the plateau lies in the window. */
  ghost predicate HasEarlier(cells: seq<nat>, a: nat, radius: int) {
    exists b | b in cells :: b < a && Near(a, b, radius)
  }

  /** On a plateau that stands alone the peaks are the cells with no earlier one of it in the window. */
  lemma PlateauPeaks(f: Frame, v: int, cells: seq<nat>, seed: nat, radius: int, a: nat)
    requires IsPlateau(f, v, cells, seed) && StandsAlone(f, v, cells, radius) && a in cells
    ensures IsPeak(f, radius, a) <==> !HasEarlier(cells, a, radius)
  {
    if HasEarlier(cells, a, radius) {
      var b :| b in cells && b < a && Near(a, b, radius);
      assert !Beats(f, a, b);
    } else {
      forall b | 0 <= b < PIXELS && b != a && Near(a, b, radius) ensures Beats(f, a, b) {
        assert f[b] >= v ==> b in cells;
      }
    }
  }

  /** Exactly one cell of the list is a peak. */
  ghost predicate OnePeak(f: Frame, radius: int, cells: seq<nat>) {
    exists a | a in cells :: IsPeak(f, radius, a) && forall b | b in cells && IsPeak(f, radius, b) :: b == a
  }

  /** A plateau that stands alone yields exactly one peak if and only if every cell but its first has an
      earlier one of it in its window. */
  lemma OnePeakExactlyWhen(f: Frame, v: int, cells: seq<nat>, seed: nat, radius: int, first: nat)
    requires IsPlateau(f, v, cells, seed) && (radius == 1 || StandsAlone(f, v, cells, radius))
    requires first in cells && forall b | b in cells :: first <= b
    ensures OnePeak(f, radius, cells) <==> forall b | b in cells && b != first :: HasEarlier(cells, b, radius)
    ensures IsPeak(f, radius, first)
  {
    if radius == 1 {
      AloneAtRadiusOne(f, v, cells, seed);
    }
    PlateauPeaks(f, v, cells, seed, radius, first);
    forall b | b in cells ensures IsPeak(f, radius, b) <==> !HasEarlier(cells, b, radius) {
      PlateauPeaks(f, v, cells, seed, radius, b);
    }
  }

  // ----- a plateau with two peaks

  /** Two arms at (0, 0) and (0, 2) that meet in (1, 1). */
  ghost function Fork(): Frame {
    seq(PIXELS, i => if i == 0 || i == 2 || i == 61 then 500 else 0)
  }

  lemma ForkWalks(b: nat)
    requires Connected(Fork(), 500, 61, b)
    ensures b in [0, 2, 61]
  {
    var p :| Walk(Fork(), 500, p, 61, b);
    assert Fork()[p[|p| - 1]] >= 500;
  }

  lemma ForkIsPlateau(radius: int)
    ensures IsPlateau(Fork(), 500, [0, 2, 61], 61) && StandsAlone(Fork(), 500, [0, 2, 61], radius)
  {
    var f := Fork();
    ConnectedSelf(f, 500, 61);
    assert Adjacent(61, 0) && Adjacent(61, 2);
    ConnectedStep(f, 500, 61, 61, 0);
    ConnectedStep(f, 500, 61, 61, 2);
    forall b ensures b in [0, 2, 61] <==> Connected(f, 500, 61, b) {
      if Connected(f, 500, 61, b) {
        ForkWalks(b);
      }
    }
  }

  /** The claim that a plateau produces exactly one peak fails here: both arms do. */
  lemma ForkHasTwoPeaks()
    ensures IsPlateau(Fork(), 500, [0, 2, 61], 61) && IsPeak(Fork(), 1, 0) && IsPeak(Fork(), 1, 2)
    ensures !OnePeak(Fork(), 1, [0, 2, 61])
  {
    ForkIsPlateau(1);
    PlateauPeaks(Fork(), 500, [0, 2, 61], 61, 1, 0);
    PlateauPeaks(Fork(), 500, [0, 2, 61], 61, 1, 2);
  }

  /** A wider window sees both arms at once. */
  lemma ForkHasOnePeakInWiderWindows(radius: int)
    requires radius >= 2
    ensures OnePeak(Fork(), radius, [0, 2, 61])
  {
    var cells: seq<nat> := [0, 2, 61];
    ForkIsPlateau(radius);
    assert cells[0] == 0 && cells[1] == 2 && cells[2] == 61;
    forall b | b in cells && b != 0 ensures HasEarlier(cells, b, radius) {
      assert Near(b, 0, radius);
    }
    OnePeakExactlyWhen(Fork(), 500, cells, 61, radius, 0);
  }
}
