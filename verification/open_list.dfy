/** The open list's ordering: at the top of every iteration the search sorts
    its open list by estimated total cost g + h, with the engine's stable sort,
    and then takes the front element. */
module OpenList {
  import opened Grid

  /** The sort key the comparator computes for a cell: its cost so far plus
      the heuristic distance to the goal. */
  function Priority(g: map<Cell, nat>, end: Cell, c: Cell): nat
    requires c in g
  {
    g[c] + Heuristic(c, end)
  }

  /** Every cell of `s` has a cost entry, so the comparator's lookups are defined. */
  predicate AllKeyed(s: seq<Cell>, g: map<Cell, nat>) {
    forall i :: 0 <= i < |s| ==> s[i] in g
  }

  predicate SortedBy(s: seq<Cell>, g: map<Cell, nat>, end: Cell)
    requires AllKeyed(s, g)
  {
    forall i, j :: 0 <= i < j < |s| ==> Priority(g, end, s[i]) <= Priority(g, end, s[j])
  }

  /** The cells of `s` whose key is `k`, in their order in `s`. A sort is stable
      exactly when it keeps this subsequence unchanged for every `k`. */
  function WithPriority(s: seq<Cell>, g: map<Cell, nat>, end: Cell, k: int): seq<Cell>
    requires AllKeyed(s, g)
  {
    if |s| == 0 then []
    else (if Priority(g, end, s[0]) == k then [s[0]] else []) + WithPriority(s[1..], g, end, k)
  }

  /** Inserts `c` into `s` ahead of the first element whose key is not
      smaller; on a sorted `s` that is where a stable sort leaves an element
      that came first. */
  function Insert(c: Cell, s: seq<Cell>, g: map<Cell, nat>, end: Cell): (r: seq<Cell>)
    requires c in g && AllKeyed(s, g)
    ensures multiset(r) == multiset(s) + multiset{c}
    ensures AllKeyed(r, g)
  {
    if |s| == 0 || Priority(g, end, c) <= Priority(g, end, s[0]) then [c] + s
    else
      assert s == [s[0]] + s[1..];
      [s[0]] + Insert(c, s[1..], g, end)
  }

  lemma {:induction false} InsertSorted(c: Cell, s: seq<Cell>, g: map<Cell, nat>, end: Cell)
    requires c in g && AllKeyed(s, g) && SortedBy(s, g, end)
    ensures SortedBy(Insert(c, s, g, end), g, end)
  {
    if |s| == 0 || Priority(g, end, c) <= Priority(g, end, s[0]) {
    } else {
      var t := Insert(c, s[1..], g, end);
      InsertSorted(c, s[1..], g, end);
      forall j | 0 <= j < |t|
        ensures Priority(g, end, s[0]) <= Priority(g, end, t[j])
      {
        assert t[j] in multiset(t);
        assert t[j] == c || t[j] in multiset(s[1..]);
        if t[j] != c {
          var m :| 0 <= m < |s[1..]| && s[1..][m] == t[j];
          assert s[m + 1] == t[j];
        }
      }
    }
  }

  lemma {:induction false} InsertStable(c: Cell, s: seq<Cell>, g: map<Cell, nat>, end: Cell, k: int)
    requires c in g && AllKeyed(s, g)
    ensures WithPriority(Insert(c, s, g, end), g, end, k)
            == (if Priority(g, end, c) == k then [c] else []) + WithPriority(s, g, end, k)
  {
    if |s| == 0 || Priority(g, end, c) <= Priority(g, end, s[0]) {
      WithPriorityCons(c, s, g, end, k);
    } else {
      var t := Insert(c, s[1..], g, end);
      assert Insert(c, s, g, end) == [s[0]] + t;
      var A := if Priority(g, end, s[0]) == k then [s[0]] else [];
      var C := if Priority(g, end, c) == k then [c] else [];
      var W := WithPriority(s[1..], g, end, k);
      WithPriorityCons(s[0], t, g, end, k);
      assert [s[0]] + s[1..] == s;
      WithPriorityCons(s[0], s[1..], g, end, k);
      InsertStable(c, s[1..], g, end, k);
      assert WithPriority([s[0]] + t, g, end, k) == A + (C + W);
      assert WithPriority(s, g, end, k) == A + W;
      if A == [] {
        assert A + (C + W) == C + W;
      } else {
        assert C == [];
        assert A + (C + W) == A + W;
      }
    }
  }

  /** The key-`k` subsequence of a list is that of its head followed by that of its tail. */
  lemma WithPriorityCons(x: Cell, s: seq<Cell>, g: map<Cell, nat>, end: Cell, k: int)
    requires x in g && AllKeyed(s, g)
    ensures AllKeyed([x] + s, g)
    ensures WithPriority([x] + s, g, end, k)
            == (if Priority(g, end, x) == k then [x] else []) + WithPriority(s, g, end, k)
  {
    assert ([x] + s)[1..] == s;
  }

  /** The open list after `open.sort(...)`: a permutation of `open`, ordered by
      key, with equal keys left in their original order. */
  function SortOpen(open: seq<Cell>, g: map<Cell, nat>, end: Cell): (r: seq<Cell>)
    requires AllKeyed(open, g)
    ensures multiset(r) == multiset(open)
    ensures |r| == |open|
    ensures AllKeyed(r, g) && SortedBy(r, g, end)
    ensures forall k :: WithPriority(r, g, end, k) == WithPriority(open, g, end, k)
  {
    if |open| == 0 then []
    else
      assert open == [open[0]] + open[1..];
      var t := SortOpen(open[1..], g, end);
      InsertSorted(open[0], t, g, end);
      assert forall k :: WithPriority(Insert(open[0], t, g, end), g, end, k) == WithPriority(open, g, end, k) by {
        forall k
          ensures WithPriority(Insert(open[0], t, g, end), g, end, k) == WithPriority(open, g, end, k)
        {
          InsertStable(open[0], t, g, end, k);
        }
      }
      Insert(open[0], t, g, end)
  }

  /** `c` is on `open` and no cell on `open` has a smaller key. */
  predicate IsFront(open: seq<Cell>, g: map<Cell, nat>, end: Cell, c: Cell) {
    && c in open && c in g
    && forall d :: d in open ==> d in g && Priority(g, end, c) <= Priority(g, end, d)
  }

  /** The element `shift()` takes after the sort has the least key on the list. */
  lemma SortedFront(open: seq<Cell>, g: map<Cell, nat>, end: Cell)
    requires AllKeyed(open, g) && |open| > 0
    ensures IsFront(open, g, end, SortOpen(open, g, end)[0])
  {
    var r := SortOpen(open, g, end);
    assert r[0] in multiset(open);
    forall d | d in open
      ensures d in g && Priority(g, end, r[0]) <= Priority(g, end, d)
    {
      assert d in multiset(r);
      var j :| 0 <= j < |r| && r[j] == d;
      if j > 0 {
        assert Priority(g, end, r[0]) <= Priority(g, end, r[j]);
      }
    }
  }
}
