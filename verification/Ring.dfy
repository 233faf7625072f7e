/** The doubly linked LRU ring of kernel/bio.c: `prev` and `next` links over the
    buffers 0..HEAD-1 and the list head HEAD, and the order they spell out. */
module Ring {

  /** [head] + order + [head]: the walk from bcache.head round to itself. */
  function Walk(head: nat, order: seq<nat>): (w: seq<nat>)
    ensures |w| == |order| + 2
  {
    [head] + order + [head]
  }

  ghost predicate Distinct(order: seq<nat>) {
    forall j, k :: 0 <= j < k < |order| ==> order[j] != order[k]
  }

  /** The links describe a ring through the head in this order, most recent first. */
  ghost predicate IsRing(prev: seq<nat>, next: seq<nat>, head: nat, order: seq<nat>) {
    && |prev| == |next| == head + 1
    && (forall j :: 0 <= j < |order| ==> order[j] < head)
    && Distinct(order)
    && var w := Walk(head, order);
       forall j, k :: 0 <= j && k == j + 1 && k < |w| ==> next[w[j]] == w[k] && prev[w[k]] == w[j]
  }

  function Without(order: seq<nat>, i: nat): (r: seq<nat>)
    requires i < |order|
  {
    order[..i] + order[i + 1..]
  }

  /** Distinct numbers below n: at most n of them. */
  lemma {:induction false} DistinctBound(s: seq<nat>, n: nat)
    requires Distinct(s) && forall j :: 0 <= j < |s| ==> s[j] < n
    ensures |s| <= n
  {
    if s != [] {
      assert s[0] < n;
      if k :| 0 <= k < |s| && s[k] == n - 1 {
        DistinctBound(Without(s, k), n - 1);
      } else {
        DistinctBound(s, n - 1);
      }
    }
  }

  // Unlinking a buffer: its two neighbours are joined to each other.
  function UnlinkPrev(prev: seq<nat>, next: seq<nat>, b: nat): (r: seq<nat>)
    requires b < |prev| == |next| && next[b] < |prev|
  {
    prev[next[b] := prev[b]]
  }

  function UnlinkNext(prev: seq<nat>, next: seq<nat>, b: nat): (r: seq<nat>)
    requires b < |prev| == |next| && prev[b] < |prev|
  {
    next[prev[b] := next[b]]
  }

  // Pushing a buffer: it goes between the head and what was first.
  function PushPrev(prev: seq<nat>, next: seq<nat>, head: nat, b: nat): (r: seq<nat>)
    requires b < |prev| == |next| == head + 1 && next[head] <= head
  {
    prev[b := head][next[head] := b]
  }

  function PushNext(prev: seq<nat>, next: seq<nat>, head: nat, b: nat): (r: seq<nat>)
    requires b < |prev| == |next| == head + 1
  {
    next[b := next[head]][head := b]
  }

  /** Unlinking the i-th buffer leaves a ring of the others in the same order. */
  lemma UnlinkRing(prev: seq<nat>, next: seq<nat>, head: nat, order: seq<nat>, i: nat)
    requires IsRing(prev, next, head, order) && i < |order|
    ensures next[order[i]] <= head && prev[order[i]] <= head
    ensures IsRing(UnlinkPrev(prev, next, order[i]), UnlinkNext(prev, next, order[i]), head, Without(order, i))
  {
    var b := order[i];
    var w := Walk(head, order);
    assert w[i + 1] == b && next[w[i]] == w[i + 1] && next[w[i + 1]] == w[i + 2];
    var p := UnlinkPrev(prev, next, b);
    var n := UnlinkNext(prev, next, b);
    var order' := Without(order, i);
    var w' := Walk(head, order');
    forall j, k | 0 <= j && k == j + 1 && k < |w'| ensures n[w'[j]] == w'[k] && p[w'[k]] == w'[j] {
      var j0 := if j <= i then j else j + 1;
      var k0 := if k <= i then k else k + 1;
      assert w'[j] == w[j0] && w'[k] == w[k0];
      assert next[w[j0]] == w[j0 + 1] && prev[w[k0]] == w[k0 - 1] by {
        assert next[w[j0]] == w[j0 + 1];
      }
      if j == i {
        assert j0 == i && k0 == i + 2;
      } else {
        assert w[j0] != w[i] by { DistinctWalk(head, order, i, j0); }
        assert w[k0] != w[i + 2] by { DistinctWalk(head, order, i + 2, k0); }
      }
    }
  }

  /** The only repetition in a walk is the head at its two ends. */
  lemma DistinctWalk(head: nat, order: seq<nat>, j: nat, k: nat)
    requires (forall j :: 0 <= j < |order| ==> order[j] < head) && Distinct(order)
    requires j < |order| + 2 && k < |order| + 2
    ensures Walk(head, order)[j] == Walk(head, order)[k] <==>
            j == k || (j == 0 && k == |order| + 1) || (k == 0 && j == |order| + 1)
  {
    var w := Walk(head, order);
    assert forall m :: 1 <= m <= |order| ==> w[m] == order[m - 1];
  }

  /** Pushing a detached buffer puts it first. */
  lemma PushRing(prev: seq<nat>, next: seq<nat>, head: nat, order: seq<nat>, b: nat)
    requires IsRing(prev, next, head, order) && b < head && b !in order
    ensures next[head] <= head
    ensures IsRing(PushPrev(prev, next, head, b), PushNext(prev, next, head, b), head, [b] + order)
  {
    var w := Walk(head, order);
    assert next[w[0]] == w[1];
    var p := PushPrev(prev, next, head, b);
    var n := PushNext(prev, next, head, b);
    var order' := [b] + order;
    var w' := Walk(head, order');
    assert w' == [head, b] + w[1..];
    forall j, k | 0 <= j && k == j + 1 && k < |w'| ensures n[w'[j]] == w'[k] && p[w'[k]] == w'[j] {
      if j >= 2 {
        assert w'[j] == w[j - 1] && w'[k] == w[k - 1];
        assert next[w[j - 1]] == w[k - 1];
        assert w[j - 1] != head by { DistinctWalk(head, order, j - 1, 0); }
        assert w[k - 1] != w[1] by { DistinctWalk(head, order, k - 1, 1); }
        assert w[j - 1] == order[j - 2];
      }
    }
  }
}
