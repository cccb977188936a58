/** Item pickup: after every position change the agent removes each item
    lying on the cell under it. */
module Pickup {
  import opened Grid

  /** `a` can be obtained from `b` by deleting elements, keeping the order. */
  predicate IsSubsequence(a: seq<Cell>, b: seq<Cell>)
    decreases |b|
  {
    if |a| == 0 then true
    else if |b| == 0 then false
    else if a[0] == b[0] then IsSubsequence(a[1..], b[1..])
    else IsSubsequence(a, b[1..])
  }

  /** The items that survive the filter when the agent's floored position is `at`. */
  function Collect(items: seq<Cell>, at: Cell): (r: seq<Cell>)
    ensures forall c :: c in r <==> c in items && c != at
    ensures multiset(r) == multiset(items)[at := 0]
    ensures IsSubsequence(r, items)
  {
    if |items| == 0 then []
    else
      assert items == [items[0]] + items[1..];
      var rest := Collect(items[1..], at);
      if items[0] != at then
        assert ([items[0]] + rest)[1..] == rest;
        [items[0]] + rest
      else rest
  }

  /** Filtering twice at the same cell removes nothing more. */
  lemma {:induction false} CollectIdempotent(items: seq<Cell>, at: Cell)
    ensures Collect(Collect(items, at), at) == Collect(items, at)
  {
    if |items| > 0 {
      CollectIdempotent(items[1..], at);
      var rest := Collect(items[1..], at);
      if items[0] != at {
        assert ([items[0]] + rest)[1..] == rest;
      }
    }
  }
}
