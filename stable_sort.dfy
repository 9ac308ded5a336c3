/** `slice::sort_by_key` on scaffold lengths, as the sort engine uses it:
    `sort_by_key(|s| s.scaff_length)` (ascending) and
    `sort_by_key(|s| Reverse(s.scaff_length))` (descending). Both are stable,
    so the result is the unique reordering that is ordered by length and keeps
    equal lengths in their prior relative order; `StableSortAsUnique` proves
    that the insertion sort used here as the reference is that reordering. */
module StableSort {
  import opened Generics
  import opened Text

  datatype Order = Ascending | Descending

  /** `x` may stand before `y` in a list ordered by length in `order`. */
  predicate InOrder(x: Scaffold, y: Scaffold, order: Order) {
    match order
    case Ascending => x.scaffLength <= y.scaffLength
    case Descending => x.scaffLength >= y.scaffLength
  }

  ghost predicate SortedBy(s: seq<Scaffold>, order: Order) {
    forall i, j :: 0 <= i < j < |s| ==> InOrder(s[i], s[j], order)
  }

  /** The scaffolds of `s` whose length is `k`, in their order in `s`. */
  function OfLength(s: seq<Scaffold>, k: nat): seq<Scaffold> {
    if s == [] then []
    else OfLength(s[..|s| - 1], k) + (if s[|s| - 1].scaffLength == k then [s[|s| - 1]] else [])
  }

  /** Stability: every group of equal lengths keeps its relative order. */
  ghost predicate SameLengthGroups(s: seq<Scaffold>, t: seq<Scaffold>) {
    forall k: nat :: OfLength(s, k) == OfLength(t, k)
  }

  /** `t` with `x` inserted after every element it may follow. */
  function Insert(t: seq<Scaffold>, x: Scaffold, order: Order): seq<Scaffold> {
    if t == [] then [x]
    else if !InOrder(t[|t| - 1], x, order) then Insert(t[..|t| - 1], x, order) + [t[|t| - 1]]
    else t + [x]
  }

  /** The reference stable sort: insertion sort, inserting from the left end. */
  function StableSortByLength(s: seq<Scaffold>, order: Order): seq<Scaffold> {
    if s == [] then [] else Insert(StableSortByLength(s[..|s| - 1], order), s[|s| - 1], order)
  }

  // ---------------------------------------------------------------------------
  // In-place sort
  // ---------------------------------------------------------------------------

  /** Sorts `a` by length in place, as `sort_by_key` does to a `Vec`. */
  method SortByLength(a: array<Scaffold>, order: Order)
    modifies a
    ensures a[..] == StableSortByLength(old(a[..]), order)
  {
    ghost var input := a[..];
    var i := 0;
    while i < a.Length
      invariant 0 <= i <= a.Length
      invariant a[..i] == StableSortByLength(input[..i], order)
      invariant a[i..] == input[i..]
    {
      assert a[i] == input[i] && a[i + 1..] == input[i + 1..];
      InsertAt(a, i, order);
      SortStep(input, i, order);
      i := i + 1;
    }
    assert input[..a.Length] == input;
    assert a[..a.Length] == a[..];
  }

  /** The reference sort of one more element inserts that element into the sorted prefix. */
  lemma SortStep(input: seq<Scaffold>, i: nat, order: Order)
    requires i < |input|
    ensures StableSortByLength(input[..i + 1], order) == Insert(StableSortByLength(input[..i], order), input[i], order)
  {
    assert input[..i + 1][..i] == input[..i];
  }

  /** One insertion step: moves `a[i]` left past the elements that may not precede it. */
  method InsertAt(a: array<Scaffold>, i: nat, order: Order)
    requires i < a.Length
    modifies a
    ensures a[..i + 1] == Insert(old(a[..i]), old(a[i]), order)
    ensures a[i + 1..] == old(a[i + 1..])
  {
    var x := a[i];
    ghost var done := a[..i];
    var j := i;
    while j > 0 && !InOrder(a[j - 1], x, order)
      invariant 0 <= j <= i
      invariant forall k :: 0 <= k < j ==> a[k] == done[k]
      invariant a[j] == x
      invariant forall k :: j < k <= i ==> a[k] == done[k - 1]
      invariant forall k :: j <= k < i ==> !InOrder(done[k], x, order)
      invariant forall k :: i < k < a.Length ==> a[k] == old(a[k])
    {
      a[j - 1], a[j] := x, a[j - 1];
      j := j - 1;
    }
    InsertSplit(done, j, x, order);
    assert a[..i + 1] == done[..j] + [x] + done[j..];
    assert a[i + 1..] == old(a[i + 1..]);
  }

  /** Inserting `x` puts it right after the last element it may follow. */
  lemma {:induction false} InsertSplit(t: seq<Scaffold>, j: nat, x: Scaffold, order: Order)
    requires j <= |t|
    requires j == 0 || InOrder(t[j - 1], x, order)
    requires forall k :: j <= k < |t| ==> !InOrder(t[k], x, order)
    ensures Insert(t, x, order) == t[..j] + [x] + t[j..]
    decreases |t|
  {
    if j < |t| {
      var front := t[..|t| - 1];
      InsertSplit(front, j, x, order);
      assert t[j..] == front[j..] + [t[|t| - 1]];
      assert t[..j] == front[..j];
    }
  }

  // ---------------------------------------------------------------------------
  // What the reference sort promises
  // ---------------------------------------------------------------------------

  lemma {:induction false} InsertPermutation(t: seq<Scaffold>, x: Scaffold, order: Order)
    ensures multiset(Insert(t, x, order)) == multiset(t) + multiset{x}
  {
    if t != [] && !InOrder(t[|t| - 1], x, order) {
      var front := t[..|t| - 1];
      InsertPermutation(front, x, order);
      assert t == front + [t[|t| - 1]];
    }
  }

  /** The sort only reorders: the result holds the same scaffolds, as often. */
  lemma {:induction false} StableSortPermutation(s: seq<Scaffold>, order: Order)
    ensures multiset(StableSortByLength(s, order)) == multiset(s)
  {
    if s != [] {
      var front := s[..|s| - 1];
      StableSortPermutation(front, order);
      InsertPermutation(StableSortByLength(front, order), s[|s| - 1], order);
      assert s == front + [s[|s| - 1]];
      assert multiset(s) == multiset(front) + multiset{s[|s| - 1]};
    }
  }

  /** When `x` may not follow `last`, it is inserted into the list before `last`. */
  lemma InsertPast(front: seq<Scaffold>, last: Scaffold, x: Scaffold, order: Order)
    requires !InOrder(last, x, order)
    ensures Insert(front + [last], x, order) == Insert(front, x, order) + [last]
  {
    var t := front + [last];
    assert t[..|t| - 1] == front;
  }

  lemma {:induction false} InsertMembers(t: seq<Scaffold>, x: Scaffold, order: Order)
    ensures forall y :: y in Insert(t, x, order) <==> y in t || y == x
  {
    if t != [] && !InOrder(t[|t| - 1], x, order) {
      var front := t[..|t| - 1];
      InsertMembers(front, x, order);
      assert t == front + [t[|t| - 1]];
    }
  }

  lemma SortedSnoc(u: seq<Scaffold>, z: Scaffold, order: Order)
    requires SortedBy(u, order)
    requires forall y :: y in u ==> InOrder(y, z, order)
    ensures SortedBy(u + [z], order)
  {
    var v := u + [z];
    forall i, j | 0 <= i < j < |v| ensures InOrder(v[i], v[j], order) {
      if j == |u| {
        assert v[i] == u[i] && u[i] in u;
      } else {
        assert v[i] == u[i] && v[j] == u[j];
      }
    }
  }

  lemma {:induction false} InsertSorted(t: seq<Scaffold>, x: Scaffold, order: Order)
    requires SortedBy(t, order)
    ensures SortedBy(Insert(t, x, order), order)
  {
    if t == [] {
    } else {
      var front := t[..|t| - 1];
      var last := t[|t| - 1];
      assert t == front + [last];
      if !InOrder(last, x, order) {
        InsertSorted(front, x, order);
        InsertMembers(front, x, order);
        InsertPast(front, last, x, order);
        forall y | y in Insert(front, x, order) ensures InOrder(y, last, order) {
          if y != x {
            var k :| 0 <= k < |front| && front[k] == y;
            assert t[k] == y;
          }
        }
        SortedSnoc(Insert(front, x, order), last, order);
      } else {
        forall y | y in t ensures InOrder(y, x, order) {
          var k :| 0 <= k < |t| && t[k] == y;
          if k < |t| - 1 {
            assert InOrder(t[k], last, order);
          }
        }
        SortedSnoc(t, x, order);
      }
    }
  }

  /** The sort orders by length: non-decreasing for Ascending, non-increasing for Descending. */
  lemma {:induction false} StableSortSorted(s: seq<Scaffold>, order: Order)
    ensures SortedBy(StableSortByLength(s, order), order)
  {
    if s != [] {
      StableSortSorted(s[..|s| - 1], order);
      InsertSorted(StableSortByLength(s[..|s| - 1], order), s[|s| - 1], order);
    }
  }

  lemma {:induction false} OfLengthAppend(a: seq<Scaffold>, b: seq<Scaffold>, k: nat)
    ensures OfLength(a + b, k) == OfLength(a, k) + OfLength(b, k)
    decreases |b|
  {
    if b == [] {
      assert a + b == a;
    } else {
      var front := b[..|b| - 1];
      assert (a + b)[..|a + b| - 1] == a + front;
      OfLengthAppend(a, front, k);
    }
  }

  lemma OfLengthSingle(x: Scaffold, k: nat)
    ensures OfLength([x], k) == if x.scaffLength == k then [x] else []
  {
    assert [x][..0] == [];
  }

  lemma {:induction false} InsertOfLength(t: seq<Scaffold>, x: Scaffold, order: Order, k: nat)
    ensures OfLength(Insert(t, x, order), k) == OfLength(t, k) + OfLength([x], k)
  {
    if t == [] {
    } else if !InOrder(t[|t| - 1], x, order) {
      var front := t[..|t| - 1];
      InsertOfLength(front, x, order, k);
      assert t == front + [t[|t| - 1]];
      InsertOfLengthPast(front, t[|t| - 1], x, order, k);
    } else {
      OfLengthAppend(t, [x], k);
    }
  }

  /** The step where `x` moves left past `last`: at most one of the two has length `k`. */
  lemma InsertOfLengthPast(front: seq<Scaffold>, last: Scaffold, x: Scaffold, order: Order, k: nat)
    requires !InOrder(last, x, order)
    requires OfLength(Insert(front, x, order), k) == OfLength(front, k) + OfLength([x], k)
    ensures OfLength(Insert(front + [last], x, order), k) == OfLength(front + [last], k) + OfLength([x], k)
  {
    var u := Insert(front, x, order);
    InsertPast(front, last, x, order);
    OfLengthAppend(u, [last], k);
    OfLengthAppend(front, [last], k);
    var ox, ol := OfLength([x], k), OfLength([last], k);
    OfLengthSingle(last, k);
    OfLengthSingle(x, k);
    assert ox == [] || ol == [];
    calc {
      OfLength(Insert(front + [last], x, order), k);
      OfLength(u, k) + ol;
      OfLength(front, k) + ox + ol;
      { Assoc(OfLength(front, k), ox, ol); Assoc(OfLength(front, k), ol, ox);
        assert ox + ol == ol + ox; }
      OfLength(front, k) + ol + ox;
      OfLength(front + [last], k) + ox;
    }
  }

  /** The sort is stable: scaffolds of equal length keep their relative order. */
  lemma {:induction false} StableSortStable(s: seq<Scaffold>, order: Order)
    ensures SameLengthGroups(StableSortByLength(s, order), s)
  {
    if s != [] {
      var front := s[..|s| - 1];
      var x := s[|s| - 1];
      StableSortStable(front, order);
      forall k: nat ensures OfLength(StableSortByLength(s, order), k) == OfLength(s, k) {
        InsertOfLength(StableSortByLength(front, order), x, order, k);
        assert OfLength([x], k) == OfLength([], k) + (if x.scaffLength == k then [x] else []);
      }
    }
  }

  // ---------------------------------------------------------------------------
  // Uniqueness: any stable sort by length gives the same list
  // ---------------------------------------------------------------------------

  lemma OfLengthMembers(s: seq<Scaffold>, k: nat)
    ensures forall y :: y in OfLength(s, k) <==> y in s && y.scaffLength == k
  {
    if s != [] {
      var front := s[..|s| - 1];
      OfLengthMembers(front, k);
      assert s == front + [s[|s| - 1]];
    }
  }

  lemma SortedPrefix(s: seq<Scaffold>, order: Order)
    requires s != [] && SortedBy(s, order)
    ensures SortedBy(s[..|s| - 1], order)
  {
  }

  /** A non-empty list has a non-empty group: the one of its last element's length. */
  lemma LastGroupNonEmpty(s: seq<Scaffold>)
    ensures s != [] ==> OfLength(s, s[|s| - 1].scaffLength) != []
  {
    if s != [] {
      assert OfLength(s, s[|s| - 1].scaffLength)
        == OfLength(s[..|s| - 1], s[|s| - 1].scaffLength) + [s[|s| - 1]];
    }
  }

  lemma {:induction false} SortedStableUnique(t: seq<Scaffold>, u: seq<Scaffold>, order: Order)
    requires SortedBy(t, order) && SortedBy(u, order)
    requires SameLengthGroups(t, u)
    ensures t == u
    decreases |t| + |u|
  {
    LastGroupNonEmpty(t);
    LastGroupNonEmpty(u);
    if t != [] {
      assert OfLength(u, t[|t| - 1].scaffLength) == OfLength(t, t[|t| - 1].scaffLength);
    }
    if u != [] {
      assert OfLength(t, u[|u| - 1].scaffLength) == OfLength(u, u[|u| - 1].scaffLength);
    }
    if t != [] && u != [] {
      LastsAgree(t, u, order);
      var tf, uf := t[..|t| - 1], u[..|u| - 1];
      FrontGroupsAgree(t, u);
      SortedPrefix(t, order);
      SortedPrefix(u, order);
      SortedStableUnique(tf, uf, order);
      assert t == tf + [t[|t| - 1]] && u == uf + [u[|u| - 1]];
    }
  }

  /** Two sorted lists with the same groups end with the same scaffold. */
  lemma LastsAgree(t: seq<Scaffold>, u: seq<Scaffold>, order: Order)
    requires t != [] && u != []
    requires SortedBy(t, order) && SortedBy(u, order)
    requires SameLengthGroups(t, u)
    ensures t[|t| - 1] == u[|u| - 1]
  {
    var x, y := t[|t| - 1], u[|u| - 1];
    OfLengthMembers(t, x.scaffLength);
    OfLengthMembers(u, x.scaffLength);
    OfLengthMembers(t, y.scaffLength);
    OfLengthMembers(u, y.scaffLength);
    assert OfLength(u, x.scaffLength) == OfLength(t, x.scaffLength);
    assert OfLength(t, y.scaffLength) == OfLength(u, y.scaffLength);
    assert x in OfLength(u, x.scaffLength);
    assert y in OfLength(t, y.scaffLength);
    assert x.scaffLength == y.scaffLength by {
      var i :| 0 <= i < |u| && u[i] == x;
      var j :| 0 <= j < |t| && t[j] == y;
      if i < |u| - 1 { assert InOrder(u[i], y, order); }
      if j < |t| - 1 { assert InOrder(t[j], x, order); }
    }
    var g := OfLength(t, x.scaffLength);
    assert g == OfLength(u, x.scaffLength);
    assert g == OfLength(t[..|t| - 1], x.scaffLength) + [x];
    assert g == OfLength(u[..|u| - 1], x.scaffLength) + [y];
    assert g[|g| - 1] == x && g[|g| - 1] == y;
  }

  /** Dropping the same last scaffold from two lists with the same groups leaves the same groups. */
  lemma FrontGroupsAgree(t: seq<Scaffold>, u: seq<Scaffold>)
    requires t != [] && u != [] && t[|t| - 1] == u[|u| - 1]
    requires SameLengthGroups(t, u)
    ensures SameLengthGroups(t[..|t| - 1], u[..|u| - 1])
  {
    var x := t[|t| - 1];
    var tf, uf := t[..|t| - 1], u[..|u| - 1];
    forall k: nat ensures OfLength(tf, k) == OfLength(uf, k) {
      var e := if x.scaffLength == k then [x] else [];
      var gt, gu := OfLength(t, k), OfLength(u, k);
      assert gt == gu;
      assert gt == OfLength(tf, k) + e;
      assert gu == OfLength(uf, k) + e;
      assert OfLength(tf, k) == gt[..|gt| - |e|];
      assert OfLength(uf, k) == gu[..|gu| - |e|];
    }
  }

  /** A list is the stable sort of `s` exactly when it is ordered by length and
      keeps every group of equal lengths of `s` in its order (which makes it a
      permutation of `s` too). So the reference sort agrees with any stable
      sort, whatever algorithm `sort_by_key` uses. */
  lemma StableSortAsUnique(s: seq<Scaffold>, t: seq<Scaffold>, order: Order)
    ensures t == StableSortByLength(s, order) <==> SortedBy(t, order) && SameLengthGroups(t, s)
  {
    StableSortSorted(s, order);
    StableSortStable(s, order);
    if SortedBy(t, order) && SameLengthGroups(t, s) {
      SortedStableUnique(t, StableSortByLength(s, order), order);
    }
  }
}
