/** How late an identity comes back: over any run of identities handed out in turn. */
module IdentityReuse {
  import opened Machine
  import opened PeakIdentity

  /** Identity y was handed out after search i and not after search m, or was found in use by then. */
  ghost predicate Seen(given: seq<Given>, i: nat, m: nat, y: u8) {
    m < |given| && exists k :: i < k <= m && (given[k].id == y || IdUsed(given[k].peaks, y))
  }

  /** All but x were. */
  ghost predicate AllSeen(given: seq<Given>, i: nat, m: nat, x: u8) {
    forall y: u8 | y != 0 && y != x :: Seen(given, i, m, y)
  }

  /** The identity p places behind x in the cycle of 255. */
  function Behind(x: u8, p: nat): u8
    requires x != 0 && p <= 254
  {
    Cycle(NextId(x), p)
  }

  lemma EachIsBehind(x: u8, y: u8) returns (p: nat)
    requires x != 0 && y != 0
    ensures p <= 254 && Behind(x, p) == y && (p == 254 <==> y == x)
  {
    p := if y > x then y - x - 1 else y - x + 254;
  }

  lemma BehindOn(x: u8, p: nat, a: nat)
    requires x != 0 && p <= 254 && a <= 255
    ensures p + a <= 254 ==> Cycle(Behind(x, p), a) == Behind(x, p + a)
    ensures p + a > 254 && a <= 254 ==> Cycle(Behind(x, p), a) == Behind(x, p + a - 255)
    ensures p < 254 ==> NextId(Behind(x, p)) == Behind(x, p + 1)
    ensures NextId(x) == Behind(x, 0) && Behind(x, 254) == x
  {
  }

  /** The first p identities behind x were seen. */
  ghost predicate SeenUpTo(given: seq<Given>, i: nat, m: nat, x: u8, p: nat) {
    x != 0 && forall q: nat | q < p && q < 254 :: Seen(given, i, m, Behind(x, q))
  }

  lemma SeenUpToAll(given: seq<Given>, i: nat, m: nat, x: u8)
    requires SeenUpTo(given, i, m, x, 254)
    ensures AllSeen(given, i, m, x)
  {
    forall y: u8 | y != 0 && y != x ensures Seen(given, i, m, y) {
      var q := EachIsBehind(x, y);
      assert Seen(given, i, m, Behind(x, q));
    }
  }

  lemma SeenStays(given: seq<Given>, i: nat, m: nat, y: u8)
    requires Seen(given, i, m, y) && m + 1 < |given|
    ensures Seen(given, i, m + 1, y)
  {
    var k :| i < k <= m && (given[k].id == y || IdUsed(given[k].peaks, y));
    assert i < k <= m + 1;
  }

  /** A search that starts p places behind x sees every place it passes and the one it takes. */
  lemma SearchSees(given: seq<Given>, i: nat, m: nat, x: u8, p: nat, a: nat)
    requires i <= m && m + 1 < |given| && x != 0 && p <= 254 && a <= 255 && SeenUpTo(given, i, m, x, p)
    requires var g := given[m + 1]; g.start == Behind(x, p) && IsFirstFree(g.peaks, g.start, g.id, a)
    ensures SeenUpTo(given, i, m + 1, x, if p + a < 254 then p + a + 1 else 254)
  {
    var g := given[m + 1];
    forall q: nat | q < 254 && q <= p + a ensures Seen(given, i, m + 1, Behind(x, q)) {
      if q < p {
        SeenStays(given, i, m, Behind(x, q));
      } else {
        BehindOn(x, p, q - p);
        if q - p < a {
          assert IdUsed(g.peaks, Cycle(g.start, q - p));
        }
        assert given[m + 1].id == Behind(x, q) || IdUsed(given[m + 1].peaks, Behind(x, q));
      }
    }
  }

  /** After any number of searches either all other identities were seen, or the next search starts right behind
      those that were. */
  ghost predicate Swept(given: seq<Given>, i: nat, m: nat, x: u8, p: nat) {
    && m < |given| && x != 0 && p <= 254 && SeenUpTo(given, i, m, x, p)
    && (p < 254 ==> NextId(given[m].id) == Behind(x, p))
  }

  lemma SweepOn(given: seq<Given>, i: nat, m: nat, x: u8, p: nat) returns (p': nat)
    requires i <= m && m + 1 < |given| && FoundFree(given[m + 1]) && given[m + 1].start == NextId(given[m].id)
    requires Swept(given, i, m, x, p)
    ensures Swept(given, i, m + 1, x, p') && (given[m + 1].id == x ==> p' == 254)
  {
    var g := given[m + 1];
    if p == 254 {
      p' := 254;
      forall q: nat | q < 254 ensures Seen(given, i, m + 1, Behind(x, q)) {
        SeenStays(given, i, m, Behind(x, q));
      }
    } else {
      var a :| 0 <= a <= 255 && IsFirstFree(g.peaks, g.start, g.id, a);
      SearchSees(given, i, m, x, p, a);
      p' := if p + a < 254 then p + a + 1 else 254;
      if p + a < 254 {
        BehindOn(x, p, a);
        BehindOn(x, p + a, 0);
      }
    }
  }

  lemma {:induction false} Sweep(given: seq<Given>, from: u8, to: u8, i: nat, m: nat) returns (p: nat)
    requires InTurn(given, from, to) && i <= m < |given|
    ensures Swept(given, i, m, given[i].id, p) && (m > i && given[m].id == given[i].id ==> p == 254)
    decreases m - i
  {
    var x := given[i].id;
    assert FoundFree(given[i]);
    if m == i {
      p := 0;
      BehindOn(x, 0, 0);
    } else {
      var q := Sweep(given, from, to, i, m - 1);
      assert FoundFree(given[m]);
      assert given[m].start == NextId(given[m - 1].id);
      p := SweepOn(given, i, m - 1, x, q);
    }
  }

  /** An identity is not handed out again before each of the other 254 was handed out since, or was found in
      use by a peak of the frame at hand. */
  lemma ReusedLast(given: seq<Given>, from: u8, to: u8, i: nat, j: nat)
    requires InTurn(given, from, to) && i < j < |given| && given[i].id == given[j].id
    ensures AllSeen(given, i, j, given[i].id)
  {
    assert FoundFree(given[i]);
    var p := Sweep(given, from, to, i, j);
    SeenUpToAll(given, i, j, given[i].id);
  }

  /** Searches of consecutive frames are one run. */
  lemma FramesInTurn(a: seq<Given>, b: seq<Given>, from: u8, mid: u8, to: u8)
    requires InTurn(a, from, mid) && InTurn(b, mid, to)
    ensures InTurn(a + b, from, to)
  {
    var all := a + b;
    forall k | 0 < k < |all| ensures all[k].start == NextId(all[k - 1].id) {
      if k > |a| {
        assert b[k - |a|].start == NextId(b[k - |a| - 1].id);
      }
    }
  }
}
