/** When a raw frame disagrees with a candidate baseline: too many jumping cells in all, in one
    row, or in one column. */
module Instability {
  import opened Machine
  import opened Grid

  type Raw = r: seq<int> | |r| == 2400 && forall i | 0 <= i < 2400 :: 0 <= r[i] <= 0xffff
    witness seq(2400, _ => 0)

  datatype Limits = Limits(jump: int, nodes: int, lineNodes: int) {
    ghost predicate Valid() { 1 <= jump <= 4095 && 0 <= nodes <= 2400 && 1 <= lineNodes <= 40 }
  }

  function Distance(a: int, b: int): nat { if a < b then b - a else a - b }

  /** Cell 0 is never compared. */
  ghost predicate Jumps(a: Raw, b: Raw, jump: int, i: nat)
    requires i < PIXELS
  {
    i >= 1 && Distance(a[i], b[i]) > jump
  }

  datatype Line = Everywhere | InRow(r: nat) | InCol(c: nat)

  predicate On(line: Line, i: nat) {
    match line
    case Everywhere => true
    case InRow(r) => Row(i) == r
    case InCol(c) => Col(i) == c
  }

  ghost function Tally(a: Raw, b: Raw, jump: int, line: Line, k: nat): nat
    requires k <= PIXELS
  {
    if k == 0 then 0
    else Tally(a, b, jump, line, k - 1) + if Jumps(a, b, jump, k - 1) && On(line, k - 1) then 1 else 0
  }

  ghost predicate LineOver(a: Raw, b: Raw, l: Limits, line: Line) {
    Tally(a, b, l.jump, line, PIXELS) >= l.lineNodes
  }

  ghost predicate Unstable(a: Raw, b: Raw, l: Limits) {
    || Tally(a, b, l.jump, Everywhere, PIXELS) > l.nodes
    || (exists r :: 0 <= r < 40 && LineOver(a, b, l, InRow(r)))
    || (exists c :: 0 <= c < 60 && LineOver(a, b, l, InCol(c)))
  }

  lemma {:induction false} TallyBounded(a: Raw, b: Raw, jump: int, line: Line, k: nat)
    requires k <= PIXELS
    ensures Tally(a, b, jump, line, k) <= k
    ensures line.InRow? ==> Tally(a, b, jump, line, k) <= 60 && (k <= line.r * 60 ==> Tally(a, b, jump, line, k) == 0)
                            && (k <= line.r * 60 + 60 ==>
                                Tally(a, b, jump, line, k) + line.r * 60 <= k || Tally(a, b, jump, line, k) == 0)
    ensures line.InCol? && line.c < 60 ==> Tally(a, b, jump, line, k) <= (k + 59 - line.c) / 60
  {
    if k > 0 {
      TallyBounded(a, b, jump, line, k - 1);
    }
  }

  /** A grid without disagreement is stable. */
  lemma {:induction false} SameIsQuiet(a: Raw, jump: int, line: Line, k: nat)
    requires k <= PIXELS && jump >= 0
    ensures Tally(a, a, jump, line, k) == 0
  {
    if k > 0 {
      SameIsQuiet(a, jump, line, k - 1);
    }
  }

  lemma SameIsStable(a: Raw, l: Limits)
    requires l.Valid()
    ensures !Unstable(a, a, l)
  {
    forall line: Line ensures Tally(a, a, l.jump, line, PIXELS) == 0 {
      SameIsQuiet(a, l.jump, line, PIXELS);
    }
  }

  /** Cells that are off by more than the jump distance. */
  ghost function Off(a: Raw, b: Raw, jump: int, k: nat): set<nat>
    requires k <= PIXELS
  {
    set i: nat | 1 <= i < k && !(-jump <= a[i] - b[i] <= jump)
  }

  /** How many of them there are in one row, and in one column. */
  ghost function OffInRow(a: Raw, b: Raw, jump: int, r: nat): nat {
    |set i | i in Off(a, b, jump, 2400) && i / 60 == r|
  }

  ghost function OffInCol(a: Raw, b: Raw, jump: int, c: nat): nat {
    |set i | i in Off(a, b, jump, 2400) && i % 60 == c|
  }

  ghost function OffOn(a: Raw, b: Raw, jump: int, line: Line, k: nat): set<nat>
    requires k <= PIXELS
  {
    set i | i in Off(a, b, jump, k) && On(line, i)
  }

  lemma OffGrows(a: Raw, b: Raw, jump: int, line: Line, k: nat)
    requires 1 < k <= PIXELS
    ensures !(-jump <= a[k - 1] - b[k - 1] <= jump) && On(line, k - 1) ==>
      OffOn(a, b, jump, line, k) == OffOn(a, b, jump, line, k - 1) + {k - 1}
    ensures -jump <= a[k - 1] - b[k - 1] <= jump || !On(line, k - 1) ==>
      OffOn(a, b, jump, line, k) == OffOn(a, b, jump, line, k - 1)
  {
  }

  lemma {:induction false} TallyCounts(a: Raw, b: Raw, jump: int, line: Line, k: nat)
    requires k <= PIXELS && jump >= 0
    ensures Tally(a, b, jump, line, k) == |OffOn(a, b, jump, line, k)|
  {
    if k > 1 {
      TallyCounts(a, b, jump, line, k - 1);
      OffGrows(a, b, jump, line, k);
      assert k - 1 !in OffOn(a, b, jump, line, k - 1);
    } else {
      assert OffOn(a, b, jump, line, k) == {};
      assert Tally(a, b, jump, line, 0) == 0;
    }
  }

  /** A frame disagrees with a grid exactly when more than `nodes` cells are off by more than the jump
      distance, or at least `lineNodes` of some row or of some column. */
  lemma UnstableExactlyWhen(a: Raw, b: Raw, l: Limits)
    requires l.Valid()
    ensures Unstable(a, b, l) <==>
      || |Off(a, b, l.jump, 2400)| > l.nodes
      || (exists r | 0 <= r < 40 :: OffInRow(a, b, l.jump, r) >= l.lineNodes)
      || (exists c | 0 <= c < 60 :: OffInCol(a, b, l.jump, c) >= l.lineNodes)
  {
    TallyCounts(a, b, l.jump, Everywhere, PIXELS);
    assert OffOn(a, b, l.jump, Everywhere, PIXELS) == Off(a, b, l.jump, 2400);
    forall r: nat ensures Tally(a, b, l.jump, InRow(r), PIXELS) == OffInRow(a, b, l.jump, r) {
      TallyCounts(a, b, l.jump, InRow(r), PIXELS);
      assert OffOn(a, b, l.jump, InRow(r), PIXELS) == set i | i in Off(a, b, l.jump, 2400) && i / 60 == r;
    }
    forall c: nat ensures Tally(a, b, l.jump, InCol(c), PIXELS) == OffInCol(a, b, l.jump, c) {
      TallyCounts(a, b, l.jump, InCol(c), PIXELS);
      assert OffOn(a, b, l.jump, InCol(c), PIXELS) == set i | i in Off(a, b, l.jump, 2400) && i % 60 == c;
    }
    forall r | 0 <= r < 40 ensures LineOver(a, b, l, InRow(r)) <==> OffInRow(a, b, l.jump, r) >= l.lineNodes {
    }
    forall c | 0 <= c < 60 ensures LineOver(a, b, l, InCol(c)) <==> OffInCol(a, b, l.jump, c) >= l.lineNodes {
    }
  }

  /** A whole-sample grid in Q8. */
  ghost function Shl8(raw: Raw): (g: seq<int>)
    ensures |g| == 2400 && forall i | 0 <= i < 2400 :: g[i] == raw[i] * 256
  {
    seq(2400, i requires 0 <= i < 2400 => raw[i] * 256)
  }

  /** On a grid of whole samples, shifting the Q8 difference and shifting the grid agree. */
  lemma ShiftOfDifference(sample: int, whole: int)
    ensures (sample * 256 - whole * 256) / 256 == sample - whole == sample - (whole * 256) / 256
  {
  }

  /** Adds cell i to the counters when it jumped. */
  method CountCell(raw: Raw, ghost base: Raw, candidate: array<s32>, jump: int, i: nat, rows: array<u8>,
                   cols: array<u8>, count0: u16)
    returns (count: u16)
    requires candidate.Length == 2400 && candidate[..] == Shl8(base) && 1 <= i < PIXELS
    requires rows.Length == 40 && cols.Length == 60 && rows != cols
    requires forall r | 0 <= r < 40 :: rows[r] == Tally(raw, base, jump, InRow(r), i)
    requires forall c | 0 <= c < 60 :: cols[c] == Tally(raw, base, jump, InCol(c), i)
    requires count0 == Tally(raw, base, jump, Everywhere, i)
    modifies rows, cols
    ensures forall r | 0 <= r < 40 :: rows[r] == Tally(raw, base, jump, InRow(r), i + 1)
    ensures forall c | 0 <= c < 60 :: cols[c] == Tally(raw, base, jump, InCol(c), i + 1)
    ensures count == Tally(raw, base, jump, Everywhere, i + 1)
  {
    count := count0;
    ShiftOfDifference(raw[i], base[i]);
    var delta: int := (raw[i] * 256 - candidate[i]) / 256;
    if (if delta < 0 then -delta else delta) > jump {
      TallyBounded(raw, base, jump, InRow(Row(i)), i);
      TallyBounded(raw, base, jump, InCol(Col(i)), i);
      TallyBounded(raw, base, jump, Everywhere, i);
      rows[Row(i)] := rows[Row(i)] + 1;
      cols[Col(i)] := cols[Col(i)] + 1;
      count := count + 1;
    }
  }

  /** True when some counter reaches the limit for one line. */
  method LineReaches(counters: array<u8>, limit: int) returns (reaches: bool)
    ensures reaches <==> exists k :: 0 <= k < counters.Length && counters[k] >= limit
  {
    reaches := false;
    for k := 0 to counters.Length
      invariant reaches <==> exists j :: 0 <= j < k && counters[j] >= limit
    {
      if counters[k] >= limit {
        reaches := true;
      }
    }
  }

  /** Compares a raw frame with the candidate grid. Line counters are 8 bits wide and never wrap. */
  method Compare(raw: Raw, ghost base: Raw, candidate: array<s32>, l: Limits) returns (unstable: bool)
    requires candidate.Length == 2400 && candidate[..] == Shl8(base) && l.Valid()
    ensures unstable == Unstable(raw, base, l)
  {
    var rows := new u8[40](_ => 0);
    var cols := new u8[60](_ => 0);
    var count: u16 := 0;
    for i := 1 to PIXELS
      invariant forall r | 0 <= r < 40 :: rows[r] == Tally(raw, base, l.jump, InRow(r), i)
      invariant forall c | 0 <= c < 60 :: cols[c] == Tally(raw, base, l.jump, InCol(c), i)
      invariant count == Tally(raw, base, l.jump, Everywhere, i)
    {
      count := CountCell(raw, base, candidate, l.jump, i, rows, cols, count);
    }
    var row := LineReaches(rows, l.lineNodes);
    var col := LineReaches(cols, l.lineNodes);
    assert row <==> exists r :: 0 <= r < 40 && LineOver(raw, base, l, InRow(r)) by {
      assert forall r | 0 <= r < 40 :: rows[r] >= l.lineNodes <==> LineOver(raw, base, l, InRow(r));
    }
    assert col <==> exists c :: 0 <= c < 60 && LineOver(raw, base, l, InCol(c)) by {
      assert forall c | 0 <= c < 60 :: cols[c] >= l.lineNodes <==> LineOver(raw, base, l, InCol(c));
    }
    unstable := count > l.nodes || row || col;
  }
}
