/** The order in which paths of a trie are queued by breadth-first search. */
module BreadthFirst {
  import opened Suffixes

  /** `order` lists the paths queued so far and the first `head` of them have left the queue.
      The children of the last one that left, `cur`, are still to be queued for the runes in `rest`. */
  ghost predicate Frontier(T: set<string>, order: seq<string>, head: nat, cur: string, rest: set<char>) {
    && head <= |order| && cur == Current(order, head)
    && (forall j, k :: 0 <= j < k < |order| ==> order[j] != order[k] && |order[j]| <= |order[k]|)
    && (forall k :: 0 <= k < |order| ==> order[k] in T && order[k] != [] && |order[k]| <= |cur| + 1)
    && (forall p, c :: Ext(p, c) in T && (p == [] || p in order[..head]) ==>
                         (Ext(p, c) in order <==> !(p == cur && c in rest)))
    && (forall p, c :: Ext(p, c) in order ==> p == [] || p in order[..head])
  }

  ghost function Current(order: seq<string>, head: nat): string
    requires head <= |order|
  {
    if head == 0 then [] else order[head - 1]
  }

  lemma Start(T: set<string>, rest: set<char>)
    requires forall c :: c in rest <==> Ext([], c) in T
    ensures Frontier(T, [], 0, [], rest)
  {
  }

  lemma Push(T: set<string>, order: seq<string>, head: nat, cur: string, rest: set<char>, r: char)
    requires Frontier(T, order, head, cur, rest)
    requires r in rest && Ext(cur, r) in T
    ensures Ext(cur, r) !in order
    ensures Frontier(T, order + [Ext(cur, r)], head, cur, rest - {r})
  {
    var next := order + [Ext(cur, r)];
    assert cur == [] || cur in order[..head];
    assert next[..head] == order[..head];
    forall p, c | Ext(p, c) == Ext(cur, r)
      ensures p == cur && c == r
    {
      assert Ext(p, c)[..|p|] == p && Ext(cur, r)[..|cur|] == cur;
    }
  }

  lemma Pop(T: set<string>, order: seq<string>, head: nat, rest: set<char>)
    requires head < |order| && Frontier(T, order, head, Current(order, head), {})
    requires forall c :: c in rest <==> Ext(order[head], c) in T
    ensures Frontier(T, order, head + 1, order[head], rest)
    ensures order[head] in T && order[head] !in order[..head]
  {
    var p := order[head];
    assert order[..head + 1] == order[..head] + [p];
    assert p !in order[..head];
    assert forall c :: Ext(p, c) !in order;
    if head > 0 {
      assert |order[head - 1]| <= |p|;
    }
  }

  /** Every path no longer than the current one has been queued. */
  lemma {:induction false} ShallowQueued(T: set<string>, order: seq<string>, head: nat, cur: string,
                                         rest: set<char>, x: string)
    requires Frontier(T, order, head, cur, rest) && PrefixClosed(T)
    requires x in T && x != [] && |x| <= |cur|
    ensures x in order
    decreases |x|
  {
    var y, c := x[..|x| - 1], x[|x| - 1];
    assert x == Ext(y, c);
    if y != [] {
      ShallowQueued(T, order, head, cur, rest, y);
      assert forall k :: head <= k < |order| ==> |order[head - 1]| <= |order[k]|;
      assert y in order[..head];
    }
  }

  /** When the queue is empty every non-root path has been queued. */
  lemma {:induction false} AllQueued(T: set<string>, order: seq<string>, x: string)
    requires Frontier(T, order, |order|, Current(order, |order|), {}) && PrefixClosed(T)
    requires x in T && x != []
    ensures x in order
    decreases |x|
  {
    var y, c := x[..|x| - 1], x[|x| - 1];
    assert x == Ext(y, c);
    if y != [] {
      AllQueued(T, order, y);
    }
    assert order[..|order|] == order;
  }
}
