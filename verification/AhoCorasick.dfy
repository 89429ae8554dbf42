/** The automaton itself: an arena of nodes, insertion, fail links by breadth-first search,
    and the scan that masks every listed word. One model stands for both copies of the filter. */
module AhoCorasick {
  import opened Suffixes
  import opened BreadthFirst

  const NIL := -1

  datatype AcNode = AcNode(children: map<char, nat>, fail: int, isEnd: bool, length: nat)

  ghost predicate OccursAt(w: string, text: string, a: nat) {
    a + |w| <= |text| && text[a..a + |w|] == w
  }

  /** Position j of the text lies inside an occurrence of a non-empty listed word. */
  ghost predicate Covered(words: seq<string>, text: string, j: nat) {
    exists w, a: nat :: w in words && w != [] && OccursAt(w, text, a) && a <= j < a + |w|
  }

  /** The arena is a trie: node i has the path path[i], and `trie` finds it again. */
  ghost predicate Shape(nodes: seq<AcNode>, path: seq<string>, trie: map<string, nat>) {
    && |path| == |nodes|
    && (forall i :: 0 <= i < |nodes| ==> path[i] in trie && trie[path[i]] == i)
    && (forall p :: p in trie ==> trie[p] < |nodes| && path[trie[p]] == p)
    && PrefixClosed(trie.Keys) && trie[[]] == 0
    && (forall i, c :: 0 <= i < |nodes| ==> (c in nodes[i].children <==> Ext(path[i], c) in trie))
    && (forall i, c :: 0 <= i < |nodes| && c in nodes[i].children ==>
                         nodes[i].children[c] == trie[Ext(path[i], c)])
  }

  /** A node ends a word exactly when its path is a listed word; then it knows its length. */
  ghost predicate Marks(nodes: seq<AcNode>, path: seq<string>, words: seq<string>)
    requires |path| == |nodes|
  {
    forall i :: 0 <= i < |nodes| ==>
                  && (nodes[i].isEnd <==> path[i] != [] && path[i] in words)
                  && (nodes[i].isEnd ==> nodes[i].length == |path[i]|)
  }

  /** The paths are exactly the prefixes of the listed words. */
  ghost predicate Paths(trie: map<string, nat>, words: seq<string>) {
    && (forall w :: w in words ==> w == [] || w in trie)
    && (forall p :: p in trie ==> p == [] || exists k :: 0 <= k < |words| && p <= words[k])
  }

  ghost predicate NoLinks(nodes: seq<AcNode>) {
    forall i :: 0 <= i < |nodes| ==> nodes[i].fail == NIL
  }

  ghost predicate LinkedAt(nodes: seq<AcNode>, trie: map<string, nat>, p: string)
    requires [] in trie && p in trie && p != [] && trie[p] < |nodes|
  {
    nodes[trie[p]].fail == trie[Fail(trie.Keys, p)]
  }

  ghost predicate Links(nodes: seq<AcNode>, path: seq<string>, trie: map<string, nat>)
    requires Shape(nodes, path, trie)
  {
    && nodes[0].fail == NIL
    && forall p {:trigger LinkedAt(nodes, trie, p)} :: p in trie && p != [] ==> LinkedAt(nodes, trie, p)
  }

  class SensitiveFilter {
    var nodes: seq<AcNode>
    ghost var path: seq<string>
    ghost var trie: map<string, nat>

    ghost predicate Valid(words: seq<string>)
      reads this
    {
      && Shape(nodes, path, trie)
      && Marks(nodes, path, words)
      && Paths(trie, words)
      && Links(nodes, path, trie)
    }

    constructor (words: seq<string>)
      ensures Valid(words)
    {
      nodes := [AcNode(map[], NIL, false, 0)];
      path := [[]];
      trie := map[[] := 0];
      new;
      EmptyTrie();
      hide Shape, Marks, Paths, Links;
      for i := 0 to |words|
        invariant Shape(nodes, path, trie) && |path| == |nodes| && Marks(nodes, path, words[..i]) &&
                  Paths(trie, words[..i])
        invariant NoLinks(nodes)
      {
        assert words[..i + 1] == words[..i] + [words[i]];
        if words[i] != [] {
          Insert(words[..i], words[i]);
        }
      }
      assert words[..|words|] == words;
      ghost var nodes0 := nodes;
      ghost var order := BuildFailLinks();
      MarksKept(nodes0, nodes, path, words);
    }

    method Insert(ghost before: seq<string>, w: string)
      requires w != []
      requires Shape(nodes, path, trie) && Marks(nodes, path, before) && Paths(trie, before)
      requires NoLinks(nodes)
      modifies this
      ensures Shape(nodes, path, trie) && Marks(nodes, path, before + [w]) && Paths(trie, before + [w])
      ensures NoLinks(nodes)
    {
      var node := Descend(before, w);
      hide Shape, Marks, Paths, NoLinks;
      ghost var nodes0 := nodes;
      NodeInRange(nodes, path, trie, w);
      nodes := nodes[node := nodes[node].(isEnd := true, length := |w|)];
      MarksAfterInsert(nodes0, path, trie, before, w, nodes);
      PathsAfterInsert(old(trie), trie, before, w);
    }

    /** Walks down along the word, creating the nodes that are missing. */
    method Descend(ghost before: seq<string>, w: string) returns (node: nat)
      requires Shape(nodes, path, trie) && |path| == |nodes| && Marks(nodes, path, before) && NoLinks(nodes)
      requires forall v :: v in before ==> v == [] || v in trie
      modifies this
      ensures Shape(nodes, path, trie) && |path| == |nodes| && Marks(nodes, path, before) && NoLinks(nodes)
      ensures w in trie && node == trie[w]
      ensures forall p :: p in old(trie) ==> p in trie
      ensures forall p :: p in trie ==> p in old(trie) || p <= w
    {
      hide Shape, Marks, NoLinks;
      node := Root();
      for i := 0 to |w|
        invariant Shape(nodes, path, trie) && |path| == |nodes| && Marks(nodes, path, before) && NoLinks(nodes)
        invariant w[..i] in trie && node == trie[w[..i]]
        invariant forall v :: v in before ==> v == [] || v in trie
        invariant forall p :: p in old(trie) ==> p in trie
        invariant forall p :: p in trie ==> p in old(trie) || p <= w
      {
        assert w[..i + 1] == Ext(w[..i], w[i]) <= w;
        node := ChildFor(before, w[..i], node, w[i]);
      }
      assert w[..|w|] == w;
    }

    method Root() returns (node: nat)
      requires Shape(nodes, path, trie)
      ensures [] in trie && node == trie[[]]
    {
      node := 0;
    }

    /** The child of the node of path p on rune r, created when it is not there yet. */
    method ChildFor(ghost before: seq<string>, ghost p: string, node: nat, r: char) returns (next: nat)
      requires Shape(nodes, path, trie) && |path| == |nodes| && Marks(nodes, path, before) && NoLinks(nodes)
      requires forall v :: v in before ==> v == [] || v in trie
      requires p in trie && node == trie[p]
      modifies this
      ensures Shape(nodes, path, trie) && |path| == |nodes| && Marks(nodes, path, before) && NoLinks(nodes)
      ensures trie.Keys == old(trie.Keys) + {Ext(p, r)} && next == trie[Ext(p, r)]
    {
      hide Marks, NoLinks;
      if r !in nodes[node].children {
        AddChild(before, node, r);
      }
      next := nodes[node].children[r];
    }

    /** A fresh node below `node` for the rune r. */
    method AddChild(ghost before: seq<string>, node: nat, r: char)
      requires Shape(nodes, path, trie) && Marks(nodes, path, before) && NoLinks(nodes)
      requires forall v :: v in before ==> v == [] || v in trie
      requires node < |nodes| && r !in nodes[node].children
      modifies this
      ensures Shape(nodes, path, trie) && Marks(nodes, path, before) && NoLinks(nodes)
      ensures node < |path| && path[node] == old(path)[node]
      ensures trie == old(trie)[Ext(path[node], r) := old(|nodes|)]
      ensures node < |nodes| && r in nodes[node].children
    {
      ghost var nodes0, path0, trie0 := nodes, path, trie;
      var next := |nodes|;
      nodes := nodes[node := nodes[node].(children := nodes[node].children[r := next])]
      + [AcNode(map[], NIL, false, 0)];
      path := path + [Ext(path[node], r)];
      trie := trie[Ext(path[node], r) := next];
      ShapeAfterAdd(nodes0, path0, trie0, node, r, nodes, path, trie);
      MarksAfterAdd(nodes0, path0, before, node, r, nodes, path);
    }

    /** Sets every fail link, breadth first. `order` is the sequence in which nodes were queued. */
    method BuildFailLinks() returns (ghost order: seq<string>)
      requires Shape(nodes, path, trie) && NoLinks(nodes)
      modifies `nodes
      ensures Shape(nodes, path, trie) && SameButFail(old(nodes), nodes)
      ensures Links(nodes, path, trie)
      ensures forall j, k :: 0 <= j < k < |order| ==> order[j] != order[k]
      ensures forall p :: p in order <==> p in trie && p != []
    {
      hide Frontier, AllLinked;
      var queue: seq<nat>;
      queue, order := LinkRootChildren();
      ghost var head := 0;
      ghost var T := trie.Keys;
      while |queue| > 0
        invariant Shape(nodes, path, trie) && SameButFail(old(nodes), nodes) && nodes[0].fail == NIL
        invariant head <= |order| && Frontier(T, order, head, Current(order, head), {})
        invariant Queued(path, order, head, queue)
        invariant AllLinked(nodes, trie, order)
        decreases T - (set q | q in order[..head])
      {
        var node := queue[0];
        Pop(T, order, head, nodes[node].children.Keys);
        ghost var left := order[..head];
        head := head + 1;
        queue, order := LinkChildren(node, queue[1..], order, head);
        assert order[..head] == left + [order[head - 1]] && order[head - 1] in T;
        assert (set q | q in order[..head]) == (set q | q in left) + {order[head - 1]};
      }
      AllNodesQueued(nodes, trie, order);
    }

    /** The children of the root fail to the root. */
    method LinkRootChildren() returns (queue: seq<nat>, ghost order: seq<string>)
      requires Shape(nodes, path, trie) && NoLinks(nodes)
      modifies `nodes
      ensures Shape(nodes, path, trie) && SameButFail(old(nodes), nodes) && nodes[0].fail == NIL
      ensures Frontier(trie.Keys, order, 0, [], {}) && Queued(path, order, 0, queue)
      ensures AllLinked(nodes, trie, order)
    {
      hide Frontier;
      queue, order := [], [];
      Start(trie.Keys, nodes[0].children.Keys);
      var rest := nodes[0].children.Keys;
      while rest != {}
        invariant Shape(nodes, path, trie) && SameButFail(old(nodes), nodes) && nodes[0].fail == NIL
        invariant rest <= nodes[0].children.Keys
        invariant Frontier(trie.Keys, order, 0, [], rest) && Queued(path, order, 0, queue)
        invariant AllLinked(nodes, trie, order)
      {
        var r :| r in rest;
        var child := nodes[0].children[r];
        assert Ext([], r)[1..] == [];
        SetLink(order, child, 0);
        Push(trie.Keys, order, 0, [], rest, r);
        queue, order, rest := queue + [child], order + [Ext([], r)], rest - {r};
      }
    }

    /** Links and queues the children of a node that has just left the queue. */
    method LinkChildren(node: nat, queue0: seq<nat>, ghost order0: seq<string>, ghost head: nat)
      returns (queue: seq<nat>, ghost order: seq<string>)
      requires Shape(nodes, path, trie) && nodes[0].fail == NIL
      requires 0 < head <= |order0| && node < |nodes| && path[node] == order0[head - 1]
      requires Frontier(trie.Keys, order0, head, order0[head - 1], nodes[node].children.Keys)
      requires Queued(path, order0, head, queue0) && AllLinked(nodes, trie, order0)
      modifies `nodes
      ensures Shape(nodes, path, trie) && SameButFail(old(nodes), nodes) && nodes[0].fail == NIL
      ensures order0 <= order && Frontier(trie.Keys, order, head, order0[head - 1], {})
      ensures Queued(path, order, head, queue) && AllLinked(nodes, trie, order)
    {
      hide Frontier;
      queue, order := queue0, order0;
      ghost var p := path[node];
      var rest := nodes[node].children.Keys;
      while rest != {}
        invariant Shape(nodes, path, trie) && SameButFail(old(nodes), nodes) && nodes[0].fail == NIL
        invariant rest <= nodes[node].children.Keys && order0 <= order
        invariant Frontier(trie.Keys, order, head, p, rest) && Queued(path, order, head, queue)
        invariant AllLinked(nodes, trie, order)
      {
        var r :| r in rest;
        var child := nodes[node].children[r];
        var fail := LinkTarget(order, head, p, rest, node, r);
        SetLink(order, child, fail);
        Push(trie.Keys, order, head, p, rest, r);
        queue, order, rest := queue + [child], order + [Ext(p, r)], rest - {r};
      }
    }

    /** Masks with '*' every rune inside an occurrence of a listed word, in one scan.
        `steps` counts the fail links followed by all transitions together. */
    method Filter(ghost words: seq<string>, text: string) returns (out: string, ghost steps: nat)
      requires Valid(words)
      ensures |out| == |text|
      ensures forall j :: 0 <= j < |text| ==> out[j] == if Covered(words, text, j) then '*' else text[j]
      ensures steps <= |text|
    {
      hide Links, Marks, Paths, Covered;
      steps := 0;
      if |text| == 0 {
        return text, 0;
      }
      NothingCovered(words);
      var hit := new bool[|text|](_ => false);
      var node, hasHit := 0, false;
      ghost var q := [];
      for i := 0 to |text|
        invariant q == Longest(trie.Keys, text[..i]) && node == trie[q]
        invariant steps + |q| <= i
        invariant forall j :: 0 <= j < |text| ==> (hit[j] <==> Covered(words, text[..i], j))
        invariant !hasHit ==> forall j :: 0 <= j < |text| ==> !hit[j]
      {
        assert text[..i + 1] == Ext(text[..i], text[i]);
        ghost var k;
        var marked;
        node, marked, q, k := Read(words, text[..i], i, text[i], node, q, hit);
        hasHit, steps := hasHit || marked, steps + k;
      }
      assert text[..|text|] == text;
      if !hasHit {
        return text, steps;
      }
      out := MaskHits(text, hit);
    }

    /** One rune of the scan: move to the next node and mark the words that end here. */
    method Read(ghost words: seq<string>, ghost t: string, i: nat, r: char, start: nat, ghost q: string,
                hit: array<bool>)
      returns (node: nat, marked: bool, ghost q': string, ghost steps: nat)
      requires Valid(words)
      requires i == |t| < hit.Length && q == Longest(trie.Keys, t) && start == trie[q]
      requires forall j :: 0 <= j < hit.Length ==> (hit[j] <==> Covered(words, t, j))
      modifies hit
      ensures q' == Longest(trie.Keys, Ext(t, r)) && node == trie[q']
      ensures steps + |q'| <= |q| + 1
      ensures forall j :: 0 <= j < hit.Length ==> (hit[j] <==> Covered(words, Ext(t, r), j))
      ensures !marked ==> forall j :: 0 <= j < hit.Length ==> hit[j] == old(hit[j])
    {
      hide Links, Marks, Paths, Covered;
      WalkExtends(trie.Keys, t, r);
      node, q', steps := Next(start, q, r);
      marked := Mark(words, Ext(t, r), q', node, i, hit);
      forall j | 0 <= j < hit.Length
        ensures Covered(words, Ext(t, r), j) <==> Covered(words, t, j) || Ends(words, Ext(t, r), j)
      {
        CoveredGrows(words, t, r, j);
      }
    }

    /** One transition: follow fail links until a node continues with r, else stay at the root. */
    method Next(start: nat, ghost q: string, r: char) returns (node: nat, ghost q': string, ghost steps: nat)
      requires Shape(nodes, path, trie) && Links(nodes, path, trie)
      requires q in trie && start == trie[q]
      ensures q' in trie && q' == Walk(trie.Keys, q, r) && node == trie[Walk(trie.Keys, q, r)]
      ensures steps + |q'| <= |q| + 1
    {
      node, q', steps := start, q, 0;
      while node != 0 && r !in nodes[node].children
        invariant q' in trie && node == trie[q']
        invariant Walk(trie.Keys, q', r) == Walk(trie.Keys, q, r)
        invariant steps + |q'| <= |q|
        decreases |q'|
      {
        assert q' != [] && LinkedAt(nodes, trie, q');
        node, q', steps := nodes[node].fail, Fail(trie.Keys, q'), steps + 1;
      }
      if r in nodes[node].children {
        node, q' := nodes[node].children[r], Ext(q', r);
      } else {
        node, q' := 0, [];
      }
    }

    /** Marks the words that end at rune i by walking the fail chain of the current node. */
    method Mark(ghost words: seq<string>, ghost t: string, ghost q: string, start: nat, i: nat, hit: array<bool>)
      returns (marked: bool)
      requires Valid(words)
      requires |t| == i + 1 <= hit.Length
      requires q == Longest(trie.Keys, t) && start == trie[q]
      modifies hit
      ensures forall j :: 0 <= j < hit.Length ==> (hit[j] <==> old(hit[j]) || Ends(words, t, j))
      ensures !marked ==> forall j :: 0 <= j < hit.Length ==> hit[j] == old(hit[j])
    {
      marked := false;
      var n := start;
      ghost var cur, T := q, trie.Keys;
      while n != 0
        invariant cur in trie && n == trie[cur] && |cur| <= |t|
        invariant forall j :: 0 <= j < hit.Length ==>
                                (hit[j] || InChain(T, cur, words, |t|, j) <==>
                                 old(hit[j]) || InChain(T, q, words, |t|, j))
        invariant !marked ==> forall j :: 0 <= j < hit.Length ==> hit[j] == old(hit[j])
        decreases |cur|
      {
        hide InChain;
        assert cur != [] && LinkedAt(nodes, trie, cur);
        label before:
        if nodes[n].isEnd {
          marked := true;
          MarkRange(hit, i + 1 - nodes[n].length, i + 1);
        }
        forall j | 0 <= j < hit.Length
          ensures hit[j] || InChain(T, Fail(T, cur), words, |t|, j) <==>
                  old@before(hit[j]) || InChain(T, cur, words, |t|, j)
        {
          ChainStep(T, cur, words, |t|, j);
        }
        n, cur := nodes[n].fail, Fail(T, cur);
      }
      forall j | 0 <= j < hit.Length
        ensures InChain(T, q, words, |t|, j) <==> Ends(words, t, j)
      {
        ChainEnds(T, t, words, j);
      }
    }

    /** Follows fail links from the parent until one of them continues with r. */
    method LinkTarget(ghost order: seq<string>, ghost head: nat, ghost p: string, ghost rest: set<char>,
                      node: nat, r: char)
      returns (target: nat)
      requires Shape(nodes, path, trie) && nodes[0].fail == NIL
      requires Frontier(trie.Keys, order, head, p, rest) && AllLinked(nodes, trie, order)
      requires node < |nodes| && p == path[node] && p != [] && Ext(p, r) in trie
      ensures target == trie[Fail(trie.Keys, Ext(p, r))]
    {
      ghost var T := trie.Keys;
      ghost var f := Fail(T, p);
      assert Ext(p, r)[1..] == Ext(p[1..], r);
      WalkExtends(T, p[1..], r);
      assert p in order;
      var fail := nodes[node].fail;
      while fail != NIL
        invariant fail != NIL ==> f in trie && |f| < |p| && fail == trie[f] && Walk(T, f, r) == Fail(T, Ext(p, r))
        invariant fail == NIL ==> Fail(T, Ext(p, r)) == []
        decreases if fail == NIL then 0 else |f| + 1
      {
        if r in nodes[fail].children {
          return nodes[fail].children[r];
        }
        fail := nodes[fail].fail;
        if f != [] {
          ShallowQueued(T, order, head, p, rest, f);
          f := Fail(T, f);
        }
      }
      return 0;
    }

    method SetLink(ghost order: seq<string>, child: nat, fail: nat)
      requires Shape(nodes, path, trie)
      requires 0 < child < |nodes| && path[child] != []
      requires fail == trie[Fail(trie.Keys, path[child])]
      requires AllLinked(nodes, trie, order)
      modifies `nodes
      ensures Shape(nodes, path, trie) && SameButFail(old(nodes), nodes) && nodes[0] == old(nodes)[0]
      ensures AllLinked(nodes, trie, order + [path[child]])
    {
      nodes := nodes[child := nodes[child].(fail := fail)];
    }
  }

  /** b is a with some fail links changed. */
  ghost predicate SameButFail(a: seq<AcNode>, b: seq<AcNode>) {
    && |a| == |b|
    && forall i :: 0 <= i < |a| ==> b[i] == a[i].(fail := b[i].fail)
  }

  ghost predicate AllLinked(nodes: seq<AcNode>, trie: map<string, nat>, order: seq<string>)
    requires [] in trie && forall p :: p in trie ==> trie[p] < |nodes|
  {
    forall k :: 0 <= k < |order| ==> order[k] in trie && order[k] != [] && LinkedAt(nodes, trie, order[k])
  }

  /** The queue holds the nodes of the paths queued from position head on. */
  ghost predicate Queued(path: seq<string>, order: seq<string>, head: nat, queue: seq<nat>) {
    && head + |queue| == |order|
    && forall k :: 0 <= k < |queue| ==> queue[k] < |path| && path[queue[k]] == order[head + k]
  }

  /** Position j lies inside a listed word that ends where t ends. */
  ghost predicate Ends(words: seq<string>, t: string, j: nat) {
    exists w :: w in words && w != [] && IsSuffix(w, t) && |t| - |w| <= j < |t|
  }

  /** Position j lies inside a listed word met on the fail chain of cur, when n runes are read. */
  ghost predicate InChain(T: set<string>, cur: string, words: seq<string>, n: nat, j: nat)
    requires [] in T
  {
    exists w :: w in Chain(T, cur) && w in words && n - |w| <= j < n
  }

  lemma ChainStep(T: set<string>, cur: string, words: seq<string>, n: nat, j: nat)
    requires [] in T && cur != []
    ensures InChain(T, cur, words, n, j) <==>
            (cur in words && n - |cur| <= j < n) || InChain(T, Fail(T, cur), words, n, j)
  {
    assert cur in Chain(T, cur);
  }

  lemma ChainEnds(T: set<string>, t: string, words: seq<string>, j: nat)
    requires [] in T
    requires forall w :: w in words ==> w == [] || w in T
    ensures InChain(T, Longest(T, t), words, |t|, j) <==> Ends(words, t, j)
  {
    forall w | w in words
      ensures w in Chain(T, Longest(T, t)) <==> w != [] && IsSuffix(w, t)
    {
      ChainIsSuffixes(T, t, w);
    }
  }

  lemma NothingCovered(words: seq<string>)
    ensures forall j: nat :: !Covered(words, [], j)
  {
  }

  lemma CoveredGrows(words: seq<string>, t: string, c: char, j: nat)
    ensures Covered(words, Ext(t, c), j) <==> Covered(words, t, j) || Ends(words, Ext(t, c), j)
  {
    var t' := Ext(t, c);
    if Covered(words, t', j) && !Covered(words, t, j) {
      var w, a: nat :| w in words && w != [] && OccursAt(w, t', a) && a <= j < a + |w|;
      if a + |w| <= |t| {
        assert t'[a..a + |w|] == t[a..a + |w|];
        assert OccursAt(w, t, a);
        assert false;
      }
      assert t'[a..] == t'[a..a + |w|];
      assert IsSuffix(w, t');
    }
    if Covered(words, t, j) {
      var w, a: nat :| w in words && w != [] && OccursAt(w, t, a) && a <= j < a + |w|;
      assert t'[a..a + |w|] == t[a..a + |w|];
      assert OccursAt(w, t', a);
    }
    if Ends(words, t', j) {
      var w :| w in words && w != [] && IsSuffix(w, t') && |t'| - |w| <= j < |t'|;
      assert t'[|t'| - |w|..|t'| - |w| + |w|] == t'[|t'| - |w|..];
      assert OccursAt(w, t', |t'| - |w|);
    }
  }

  method MaskHits(text: string, hit: array<bool>) returns (out: string)
    requires hit.Length == |text|
    ensures |out| == |text|
    ensures forall j :: 0 <= j < |text| ==> out[j] == if hit[j] then '*' else text[j]
  {
    var runes := new char[|text|](j requires 0 <= j < |text| => text[j]);
    for i := 0 to |text|
      invariant forall j :: 0 <= j < |text| ==> runes[j] == if j < i && hit[j] then '*' else text[j]
    {
      if hit[i] {
        runes[i] := '*';
      }
    }
    out := runes[..];
  }

  method MarkRange(hit: array<bool>, lo: nat, hi: nat)
    requires lo <= hi <= hit.Length
    modifies hit
    ensures forall j :: 0 <= j < hit.Length ==> (hit[j] <==> old(hit[j]) || lo <= j < hi)
  {
    for j := lo to hi
      invariant forall k :: 0 <= k < hit.Length ==> (hit[k] <==> old(hit[k]) || lo <= k < j)
    {
      hit[j] := true;
    }
  }

  lemma AllNodesQueued(nodes: seq<AcNode>, trie: map<string, nat>, order: seq<string>)
    requires PrefixClosed(trie.Keys) && forall p :: p in trie ==> trie[p] < |nodes|
    requires Frontier(trie.Keys, order, |order|, Current(order, |order|), {})
    requires AllLinked(nodes, trie, order)
    ensures forall j, k :: 0 <= j < k < |order| ==> order[j] != order[k]
    ensures forall p :: p in order <==> p in trie && p != []
    ensures forall p {:trigger LinkedAt(nodes, trie, p)} :: p in trie && p != [] ==> LinkedAt(nodes, trie, p)
  {
    forall p | p in trie && p != []
      ensures p in order
    {
      AllQueued(trie.Keys, order, p);
    }
  }

  lemma NodeInRange(nodes: seq<AcNode>, path: seq<string>, trie: map<string, nat>, p: string)
    requires Shape(nodes, path, trie) && p in trie
    ensures trie[p] < |nodes|
  {
  }

  lemma EmptyTrie()
    ensures var nodes := [AcNode(map[], NIL, false, 0)];
            Shape(nodes, [[]], map[[] := 0]) && Marks(nodes, [[]], []) && Paths(map[[] := 0], []) && NoLinks(nodes)
  {
  }

  lemma MarksKept(a: seq<AcNode>, b: seq<AcNode>, path: seq<string>, words: seq<string>)
    requires |path| == |a| && Marks(a, path, words) && SameButFail(a, b)
    ensures Marks(b, path, words)
  {
  }

  lemma ShapeAfterAdd(nodes: seq<AcNode>, path: seq<string>, trie: map<string, nat>, node: nat, r: char,
                      nodes': seq<AcNode>, path': seq<string>, trie': map<string, nat>)
    requires Shape(nodes, path, trie)
    requires node < |nodes| && r !in nodes[node].children
    requires nodes' == nodes[node := nodes[node].(children := nodes[node].children[r := |nodes|])]
                       + [AcNode(map[], NIL, false, 0)]
    requires path' == path + [Ext(path[node], r)]
    requires trie' == trie[Ext(path[node], r) := |nodes|]
    ensures Shape(nodes', path', trie')
  {
    assert Ext(path[node], r) !in trie;
    forall i, c | 0 <= i < |nodes'|
      ensures c in nodes'[i].children <==> Ext(path'[i], c) in trie'
      ensures c in nodes'[i].children ==> nodes'[i].children[c] == trie'[Ext(path'[i], c)]
    {
      assert Ext(path'[i], c)[..|path'[i]|] == path'[i];
      if i == |nodes| {
        assert Ext(path'[i], c) !in trie';
      } else if i == node {
      } else {
      }
    }
  }

  lemma MarksAfterAdd(nodes: seq<AcNode>, path: seq<string>, before: seq<string>, node: nat, r: char,
                      nodes': seq<AcNode>, path': seq<string>)
    requires |path| == |nodes| && Marks(nodes, path, before) && NoLinks(nodes)
    requires node < |nodes| && Ext(path[node], r) !in before
    requires nodes' == nodes[node := nodes[node].(children := nodes[node].children[r := |nodes|])]
                       + [AcNode(map[], NIL, false, 0)]
    requires path' == path + [Ext(path[node], r)]
    ensures Marks(nodes', path', before) && NoLinks(nodes')
  {
  }

  lemma MarksAfterInsert(nodes: seq<AcNode>, path: seq<string>, trie: map<string, nat>, before: seq<string>,
                         w: string, nodes': seq<AcNode>)
    requires Shape(nodes, path, trie) && Marks(nodes, path, before) && NoLinks(nodes)
    requires w in trie && w != []
    requires nodes' == nodes[trie[w] := nodes[trie[w]].(isEnd := true, length := |w|)]
    ensures Shape(nodes', path, trie) && Marks(nodes', path, before + [w]) && NoLinks(nodes')
  {
    forall i | 0 <= i < |nodes|
      ensures nodes'[i].children == nodes[i].children && nodes'[i].fail == nodes[i].fail
      ensures nodes'[i].isEnd <==> path[i] != [] && path[i] in before + [w]
      ensures nodes'[i].isEnd ==> nodes'[i].length == |path[i]|
    {
      if path[i] == w {
        assert i == trie[w];
      }
    }
  }

  lemma PathsAfterInsert(t0: map<string, nat>, t: map<string, nat>, before: seq<string>, w: string)
    requires Paths(t0, before)
    requires w in t
    requires forall p :: p in t0 ==> p in t
    requires forall p :: p in t ==> p in t0 || p <= w
    ensures Paths(t, before + [w])
  {
    var after := before + [w];
    forall p | p in t && p != []
      ensures exists k :: 0 <= k < |after| && p <= after[k]
    {
      if p in t0 {
        var k :| 0 <= k < |before| && p <= before[k];
        assert after[k] == before[k];
      } else {
        assert after[|before|] == w;
      }
    }
  }
}
