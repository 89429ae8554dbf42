/** The mathematics of the word filter: the longest suffix of a text that is a path of the
    trie, and how it changes when one more rune is read. */
module Suffixes {
  /** p followed by one more rune. */
  function Ext(p: string, c: char): (r: string)
    ensures |r| == |p| + 1 && r[..|p|] == p && r[|p|] == c
  {
    p + [c]
  }

  ghost predicate IsSuffix(s: string, p: string) {
    |s| <= |p| && p[|p| - |s|..] == s
  }

  /** A set of trie paths: it holds the root's path and the parent of every other path. */
  ghost predicate PrefixClosed(T: set<string>) {
    && [] in T
    && (forall p: string, c: char :: Ext(p, c) in T ==> p in T)
  }

  /** The longest suffix of p that is a path of the trie. */
  ghost function Longest(T: set<string>, p: string): (q: string)
    requires [] in T
    ensures q in T && |q| <= |p|
  {
    if p in T then p else Longest(T, p[1..])
  }

  /** Where the fail link of the path p has to point: the longest proper suffix. */
  ghost function Fail(T: set<string>, p: string): (q: string)
    requires [] in T && p != []
    ensures q in T && |q| < |p|
  {
    Longest(T, p[1..])
  }

  /** The defining property of Longest, both halves. */
  lemma {:induction false} LongestIsLongest(T: set<string>, p: string, q: string)
    requires [] in T
    ensures q == Longest(T, p) <==>
            q in T && IsSuffix(q, p) && forall s :: s in T && IsSuffix(s, p) ==> |s| <= |q|
  {
    if p in T {
      assert IsSuffix(p, p);
    } else {
      LongestIsLongest(T, p[1..], q);
      assert forall s :: s in T ==> (IsSuffix(s, p) <==> IsSuffix(s, p[1..])) by {
        forall s | s in T
          ensures IsSuffix(s, p) <==> IsSuffix(s, p[1..])
        {
          if |s| == |p| {
            assert p[0..] == p;
          } else if |s| < |p| {
            assert p[1..][|p| - 1 - |s|..] == p[|p| - |s|..];
          }
        }
      }
    }
  }

  /** The transition from path q on rune c, by following fail links. */
  ghost function Walk(T: set<string>, q: string, c: char): (r: string)
    requires [] in T
    ensures r in T && |r| <= |q| + 1
    decreases |q|
  {
    if Ext(q, c) in T then Ext(q, c)
    else if q == [] then []
    else Walk(T, Fail(T, q), c)
  }

  /** Reading one more rune of a text by walking fail links keeps the state at the
      longest suffix of everything read. */
  lemma {:induction false} WalkExtends(T: set<string>, t: string, c: char)
    requires PrefixClosed(T)
    ensures Walk(T, Longest(T, t), c) == Longest(T, Ext(t, c))
    decreases |t|
  {
    if Ext(t, c) in T {
    } else if t == [] {
      assert Ext(t, c)[1..] == [];
    } else {
      assert Ext(t, c)[1..] == Ext(t[1..], c);
      WalkExtends(T, t[1..], c);
    }
  }

  /** The paths met by following fail links from q down to the root. */
  ghost function Chain(T: set<string>, q: string): (S: set<string>)
    requires [] in T
    decreases |q|
  {
    if q == [] then {} else {q} + Chain(T, Fail(T, q))
  }

  /** The fail chain of a state meets exactly the non-empty trie paths that end the text. */
  lemma {:induction false} ChainIsSuffixes(T: set<string>, t: string, s: string)
    requires [] in T
    ensures s in Chain(T, Longest(T, t)) <==> s != [] && s in T && IsSuffix(s, t)
    decreases |t|
  {
    if t == [] {
    } else {
      ChainIsSuffixes(T, t[1..], s);
      if |s| < |t| {
        assert t[1..][|t| - 1 - |s|..] == t[|t| - |s|..];
      } else if |s| == |t| {
        assert t[0..] == t;
      }
    }
  }
}
