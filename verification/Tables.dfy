/**
 The in-place table algorithms the detection stages share: compaction, the fixed-size table
 that keeps the strongest entries, and selection sort with the strongest entry first.
 */
module Tables {
  import opened Sealing

  // ----- compaction

  function Filter<T>(s: seq<T>, keep: T -> bool): (r: seq<T>)
    ensures |r| <= |s|
  {
    if s == [] then []
    else Filter(s[..|s| - 1], keep) + if keep(s[|s| - 1]) then [s[|s| - 1]] else []
  }

  /** Entry i of a filtered table came from position Origin(s, keep, i), in order. */
  ghost function Origin<T>(s: seq<T>, keep: T -> bool, i: nat): (k: nat)
    requires i < |Filter(s, keep)|
    ensures k < |s|
  {
    var init := s[..|s| - 1];
    if i < |Filter(init, keep)| then Origin(init, keep, i) else |s| - 1
  }

  /** A filtered table is a subsequence holding exactly the accepted entries. */
  lemma {:induction false} FilterIsSubsequence<T>(s: seq<T>, keep: T -> bool)
    ensures forall i | 0 <= i < |Filter(s, keep)| ::
      Filter(s, keep)[i] == s[Origin(s, keep, i)] && keep(s[Origin(s, keep, i)])
    ensures forall i, j | 0 <= i < j < |Filter(s, keep)| :: Origin(s, keep, i) < Origin(s, keep, j)
    ensures forall x :: x in Filter(s, keep) <==> x in s && keep(x)
  {
    if s != [] {
      var init := s[..|s| - 1];
      FilterIsSubsequence(init, keep);
      assert s == init + [s[|s| - 1]];
    }
  }

  /** Moves the accepted entries of a[..n] to the front, in order. */
  method Compact<T>(a: array<T>, n: nat, keep: T -> bool) returns (dst: nat)
    requires n <= a.Length
    modifies a
    ensures dst <= n && a[..dst] == Filter(old(a[..n]), keep)
  {
    dst := 0;
    ghost var was := a[..n];
    for i := 0 to n
      invariant dst <= i && a[..dst] == Filter(was[..i], keep)
      invariant forall k | i <= k < n :: a[k] == was[k]
    {
      assert was[..i + 1][..i] == was[..i];
      if keep(a[i]) {
        a[dst] := a[i];
        dst := dst + 1;
      }
    }
    assert was[..n] == was;
  }

  // ----- keep the strongest

  /** `kept` and `dropped` share out `seen`; nothing dropped outranks anything kept. */
  ghost predicate Outranks<T>(key: T -> int, seen: multiset<T>, kept: seq<T>, dropped: multiset<T>) {
    && multiset(kept) + dropped == seen
    && forall k, x | 0 <= k < |kept| && x in dropped :: key(x) <= key(kept[k])
  }

  /** Sealed. */
  ghost predicate KeepsStrongest<T>(key: T -> int, seen: multiset<T>, kept: seq<T>, dropped: multiset<T>) {
    forall o {:trigger Open(o)} :: Open(o) ==> Outranks(key, seen, kept, dropped)
  }

  lemma KeptOutrankDropped<T>(key: T -> int, seen: multiset<T>, kept: seq<T>, dropped: multiset<T>)
    requires KeepsStrongest(key, seen, kept, dropped)
    ensures Outranks(key, seen, kept, dropped)
  {
    assert Open(0);
  }

  lemma NothingSeen<T>(key: T -> int)
    ensures KeepsStrongest(key, multiset{}, [], multiset{})
  {
  }

  /** Reordering the table changes nothing. */
  lemma PermutedKeepsStrongest<T>(key: T -> int, seen: multiset<T>, kept: seq<T>, kept': seq<T>, dropped: multiset<T>)
    requires KeepsStrongest(key, seen, kept, dropped) && multiset(kept) == multiset(kept')
    ensures KeepsStrongest(key, seen, kept', dropped)
  {
    assert Open(0);
    forall k, x | 0 <= k < |kept'| && x in dropped ensures key(x) <= key(kept'[k]) {
      assert kept'[k] in multiset(kept');
      assert kept'[k] in kept;
    }
  }

  /** The weakest of a full table, first one on ties. */
  method Weakest<T>(a: array<T>, key: T -> int) returns (weakest: nat)
    requires a.Length > 0
    ensures weakest < a.Length && forall k | 0 <= k < a.Length :: key(a[weakest]) <= key(a[k])
  {
    weakest := 0;
    for k := 1 to a.Length
      invariant weakest < k && forall i | 0 <= i < k :: key(a[weakest]) <= key(a[i])
    {
      if key(a[k]) < key(a[weakest]) {
        weakest := k;
      }
    }
  }

  lemma ReplacedKeepsStrongest<T>(key: T -> int, seen: multiset<T>, kept: seq<T>, dropped: multiset<T>, w: nat, x: T)
    requires KeepsStrongest(key, seen, kept, dropped)
    requires w < |kept| && key(kept[w]) < key(x) && forall k | 0 <= k < |kept| :: key(kept[w]) <= key(kept[k])
    ensures KeepsStrongest(key, seen + multiset{x}, kept[w := x], dropped + multiset{kept[w]})
  {
    assert Open(0);
    assert multiset(kept[w := x]) == multiset(kept) - multiset{kept[w]} + multiset{x};
  }

  lemma AddedKeepsStrongest<T>(key: T -> int, seen: multiset<T>, kept: seq<T>, x: T)
    requires KeepsStrongest(key, seen, kept, multiset{})
    ensures KeepsStrongest(key, seen + multiset{x}, kept + [x], multiset{})
  {
    assert Open(0);
    assert multiset(kept + [x]) == multiset(kept) + multiset{x};
  }

  lemma RefusedKeepsStrongest<T>(key: T -> int, seen: multiset<T>, kept: seq<T>, dropped: multiset<T>, w: nat, x: T)
    requires KeepsStrongest(key, seen, kept, dropped)
    requires w < |kept| && key(x) <= key(kept[w]) && forall k | 0 <= k < |kept| :: key(kept[w]) <= key(kept[k])
    ensures KeepsStrongest(key, seen + multiset{x}, kept, dropped + multiset{x})
  {
    assert Open(0);
  }

  /** Adds x while there is room; afterwards x replaces the weakest entry it outranks. */
  method Insert<T>(a: array<T>, count: nat, x: T, key: T -> int, ghost seen: multiset<T>, ghost dropped: multiset<T>)
    returns (count': nat, ghost dropped': multiset<T>)
    requires 0 < a.Length && count <= a.Length
    requires KeepsStrongest(key, seen, a[..count], dropped) && (count < a.Length ==> dropped == multiset{})
    modifies a
    ensures count <= count' <= a.Length
    ensures KeepsStrongest(key, seen + multiset{x}, a[..count'], dropped')
    ensures count' < a.Length ==> dropped' == multiset{}
  {
    ghost var kept := a[..count];
    if count < a.Length {
      AddedKeepsStrongest(key, seen, kept, x);
      a[count] := x;
      assert a[..count + 1] == kept + [x];
      return count + 1, dropped;
    }
    var w := Weakest(a, key);
    if key(x) > key(a[w]) {
      ReplacedKeepsStrongest(key, seen, kept, dropped, w, x);
      dropped' := dropped + multiset{a[w]};
      a[w] := x;
      assert a[..count] == kept[w := x];
    } else {
      RefusedKeepsStrongest(key, seen, kept, dropped, w, x);
      dropped' := dropped + multiset{x};
    }
    return count, dropped';
  }

  // ----- selection sort

  ghost predicate Descending<T>(key: T -> int, s: seq<T>) {
    forall i, j | 0 <= i < j < |s| :: key(s[i]) >= key(s[j])
  }

  lemma SwapIsPermutation<T>(s: seq<T>, i: nat, j: nat)
    requires i < |s| && j < |s|
    ensures multiset(s[i := s[j]][j := s[i]]) == multiset(s)
  {
    if i != j {
      assert multiset(s[i := s[j]]) == multiset(s) - multiset{s[i]} + multiset{s[j]};
    } else {
      assert s[i := s[j]][j := s[i]] == s;
    }
  }

  /** The strongest entry from position r on, first one on ties. */
  method Strongest<T>(a: array<T>, r: nat, n: nat, key: T -> int) returns (best: nat)
    requires r < n <= a.Length
    ensures r <= best < n && forall k | r <= k < n :: key(a[k]) <= key(a[best])
  {
    best := r;
    for c := r + 1 to n
      invariant r <= best < c && forall k | r <= k < c :: key(a[k]) <= key(a[best])
    {
      if key(a[c]) > key(a[best]) {
        best := c;
      }
    }
  }

  method SelectionSort<T>(a: array<T>, n: nat, key: T -> int)
    requires n <= a.Length
    modifies a
    ensures Descending(key, a[..n]) && multiset(a[..n]) == old(multiset(a[..n]))
  {
    var r := 0;
    while r + 1 < n
      invariant r <= n && multiset(a[..n]) == old(multiset(a[..n]))
      invariant forall i, j | 0 <= i < r && i < j < n :: key(a[i]) >= key(a[j])
    {
      var best := Strongest(a, r, n, key);
      ghost var was := a[..n];
      if best != r {
        SwapIsPermutation(was, r, best);
        a[r], a[best] := a[best], a[r];
        assert a[..n] == was[r := was[best]][best := was[r]];
      }
      r := r + 1;
    }
  }

  /** Cutting a sorted table off keeps its strongest entries. */
  lemma CutKeepsStrongest<T>(key: T -> int, seen: multiset<T>, s: seq<T>, n: nat)
    requires Descending(key, s) && multiset(s) == seen && n <= |s|
    ensures KeepsStrongest(key, seen, s[..n], multiset(s[n..]))
  {
    assert s == s[..n] + s[n..];
    forall k, x | 0 <= k < n && x in multiset(s[n..]) ensures key(x) <= key(s[..n][k]) {
      assert x in s[n..];
      var j :| 0 <= j < |s[n..]| && s[n..][j] == x;
      assert s[n + j] == x;
    }
  }

  // ----- parts of a table

  lemma {:induction false} CountOnce<T>(s: seq<T>, x: T)
    requires forall i, j | 0 <= i < j < |s| :: s[i] != s[j]
    ensures multiset(s)[x] <= 1
  {
    if s != [] {
      var init := s[..|s| - 1];
      assert s == init + [s[|s| - 1]];
      CountOnce(init, x);
      assert s[|s| - 1] !in init;
    }
  }

  lemma CountTwice<T>(s: seq<T>, i: nat, j: nat)
    requires i < j < |s| && s[i] == s[j]
    ensures multiset(s)[s[i]] >= 2
  {
    assert s == s[..j] + [s[j]] + s[j + 1..];
    assert s[i] == s[..j][i] && s[i] in multiset(s[..j]);
  }

  ghost predicate KeysApart<T>(key: T -> int, s: seq<T>) {
    forall i, j | 0 <= i < j < |s| :: key(s[i]) != key(s[j])
  }

  /** Part of a table whose keys differ, in any order, has different keys. */
  lemma PartKeysApart<T>(key: T -> int, s: seq<T>, t: seq<T>)
    requires KeysApart(key, s) && multiset(t) <= multiset(s)
    ensures KeysApart(key, t) && forall k | 0 <= k < |t| :: t[k] in s
  {
    forall k | 0 <= k < |t| ensures t[k] in s {
      assert t[k] in multiset(t);
    }
    forall i, j | 0 <= i < j < |t| ensures key(t[i]) != key(t[j]) {
      CountOnce(s, t[i]);
      if t[i] == t[j] {
        CountTwice(t, i, j);
      } else {
        var a :| 0 <= a < |s| && s[a] == t[i];
        var b :| 0 <= b < |s| && s[b] == t[j];
      }
    }
  }

  lemma {:induction false} FilterCounts<T>(s: seq<T>, keep: T -> bool)
    ensures multiset(Filter(s, keep)) <= multiset(s)
  {
    if s != [] {
      FilterCounts(s[..|s| - 1], keep);
      assert s == s[..|s| - 1] + [s[|s| - 1]];
    }
  }
}
