/** The prefix tree of wordFinder-fixed.ts. Its `TrieNode` objects live in an
    arena: node `n` is an index, `children[n]` is that node's `children` map
    from a letter to the child's index, and `isEndOfWord[n]` its end-of-word
    flag. Node 0 is the root. Allocating `new TrieNode()` appends an entry.
    The ghost `spelling[n]` is the string spelled from the root to `n`. */
module DictionaryTrie {
  import opened Types

  type Edges = seq<map<char, nat>>

  /** `node.getChild(c)` on the arena: the child along letter `c`, or None (JavaScript `null`). */
  function Step(children: Edges, node: nat, c: char): Option<nat>
  {
    if node < |children| && c in children[node] then Some(children[node][c]) else None
  }

  /** Calls `getChild` for each of the first `n` letters of `s` in turn, starting at `node`. */
  function FollowTo(children: Edges, node: nat, s: string, n: nat): Option<nat>
    requires n <= |s|
  {
    if n == 0 then Some(node)
    else
      match FollowTo(children, node, s, n - 1)
      case None => None
      case Some(m) => Step(children, m, s[n - 1])
  }

  /** Calls `getChild` for each letter of `s` in turn, starting at `node`. */
  function Follow(children: Edges, node: nat, s: string): Option<nat>
  {
    FollowTo(children, node, s, |s|)
  }

  /** The walk over the first `n` letters reads only those letters. */
  lemma {:induction false} FollowPrefix(children: Edges, node: nat, s1: string, s2: string, n: nat)
    requires n <= |s1| && n <= |s2| && forall i :: 0 <= i < n ==> s1[i] == s2[i]
    ensures FollowTo(children, node, s1, n) == FollowTo(children, node, s2, n)
    decreases n
  {
    if n > 0 {
      FollowPrefix(children, node, s1, s2, n - 1);
    }
  }

  /** One more letter is one more `getChild` on the node reached so far. */
  lemma FollowAppend(children: Edges, node: nat, s: string, c: char)
    ensures Follow(children, node, s + [c]) ==
      match Follow(children, node, s)
      case None => None
      case Some(m) => Step(children, m, c)
  {
    FollowPrefix(children, node, s + [c], s, |s|);
  }

  /** `ch2` keeps every edge of `ch1`: what the trie looks like after more insertions. */
  ghost predicate Extends(ch1: Edges, ch2: Edges)
  {
    |ch1| <= |ch2| &&
    forall n, c :: 0 <= n < |ch1| && c in ch1[n] ==> c in ch2[n] && ch2[n][c] == ch1[n][c]
  }

  /** A walk that succeeds keeps succeeding, to the same node, once more edges exist. */
  lemma {:induction false} FollowExtends(ch1: Edges, ch2: Edges, node: nat, s: string, n: nat)
    requires Extends(ch1, ch2) && n <= |s| && FollowTo(ch1, node, s, n).Some?
    ensures FollowTo(ch2, node, s, n) == FollowTo(ch1, node, s, n)
    decreases n
  {
    if n > 0 {
      FollowExtends(ch1, ch2, node, s, n - 1);
    }
  }

  /** Every edge stays inside the arena and extends its parent's spelling by its letter. */
  ghost predicate EdgesOk(children: Edges, spelling: seq<string>)
  {
    |spelling| == |children| &&
    forall n, c :: 0 <= n < |children| && c in children[n] ==>
      children[n][c] < |children| && spelling[children[n][c]] == spelling[n] + [c]
  }

  /** Following the first `n` letters of `s` from `node` ends at the node labelled
      `spelling[node]` followed by those letters. */
  lemma {:induction false} FollowSpelling(children: Edges, spelling: seq<string>, node: nat, s: string, n: nat)
    requires EdgesOk(children, spelling) && node < |children| && n <= |s|
    requires FollowTo(children, node, s, n).Some?
    ensures FollowTo(children, node, s, n).value < |children|
    ensures spelling[FollowTo(children, node, s, n).value] == spelling[node] + s[..n]
    decreases n
  {
    if n > 0 {
      FollowSpelling(children, spelling, node, s, n - 1);
      assert s[..n] == s[..n - 1] + [s[n - 1]];
    }
  }

  /** Every node is reached from the root by following its own spelling. */
  ghost predicate Reachable(children: Edges, spelling: seq<string>)
    requires |spelling| == |children|
  {
    forall n :: 0 <= n < |children| ==> Follow(children, 0, spelling[n]) == Some(n)
  }

  /** The arena after `children.set(c, new TrieNode())` on node `current`: an edge `c`
      to a new, childless last node. */
  function AddEdge(ch: Edges, current: nat, c: char): Edges
    requires current < |ch|
  {
    var node: nat := |ch|;
    var m: map<char, nat> := ch[current][c := node];
    ch[current := m] + [map[]]
  }

  /** `children.set(c, new TrieNode())` on the arena: the new node keeps every edge
      in range, labelled by its parent's spelling plus `c`, and reachable along its spelling. */
  lemma AppendChild(ch: Edges, sp: seq<string>, current: nat, c: char)
    requires EdgesOk(ch, sp) && Reachable(ch, sp) && current < |ch| && c !in ch[current]
    ensures var ch2 := AddEdge(ch, current, c);
            var sp2 := sp + [sp[current] + [c]];
            Extends(ch, ch2) && EdgesOk(ch2, sp2) && Reachable(ch2, sp2)
  {
    var node := |ch|;
    var ch2 := AddEdge(ch, current, c);
    var sp2 := sp + [sp[current] + [c]];
    assert Extends(ch, ch2);
    forall n | 0 <= n < |ch2| ensures Follow(ch2, 0, sp2[n]) == Some(n) {
      if n < node {
        FollowExtends(ch, ch2, 0, sp[n], |sp[n]|);
        assert sp2[n] == sp[n];
      } else {
        FollowExtends(ch, ch2, 0, sp[current], |sp[current]|);
        FollowAppend(ch2, 0, sp[current], c);
      }
    }
  }

  ghost function WordsOf(isEnd: seq<bool>, spelling: seq<string>): set<string>
    requires |isEnd| == |spelling|
  {
    set n | 0 <= n < |isEnd| && isEnd[n] :: spelling[n]
  }

  lemma WordsOfAppendNode(isEnd: seq<bool>, spelling: seq<string>, s: string)
    requires |isEnd| == |spelling|
    ensures WordsOf(isEnd + [false], spelling + [s]) == WordsOf(isEnd, spelling)
  {
    var a, b := WordsOf(isEnd + [false], spelling + [s]), WordsOf(isEnd, spelling);
    forall w | w in a ensures w in b {
      var n :| 0 <= n < |isEnd| + 1 && (isEnd + [false])[n] && (spelling + [s])[n] == w;
      assert isEnd[n] && spelling[n] == w;
    }
    forall w | w in b ensures w in a {
      var n :| 0 <= n < |isEnd| && isEnd[n] && spelling[n] == w;
      assert (isEnd + [false])[n] && (spelling + [s])[n] == w;
    }
  }

  lemma WordsOfMark(isEnd: seq<bool>, spelling: seq<string>, k: nat)
    requires |isEnd| == |spelling| && k < |isEnd|
    ensures WordsOf(isEnd[k := true], spelling) == WordsOf(isEnd, spelling) + {spelling[k]}
  {
    var a, b := WordsOf(isEnd[k := true], spelling), WordsOf(isEnd, spelling) + {spelling[k]};
    forall w | w in a ensures w in b {
      var n :| 0 <= n < |isEnd| && isEnd[k := true][n] && spelling[n] == w;
      if n != k { assert isEnd[n]; }
    }
    forall w | w in b ensures w in a {
      if w != spelling[k] {
        var n :| 0 <= n < |isEnd| && isEnd[n] && spelling[n] == w;
        assert isEnd[k := true][n];
      } else {
        assert isEnd[k := true][k];
      }
    }
  }

  class Trie {
    var children: Edges
    var isEndOfWord: seq<bool>
    ghost var spelling: seq<string>

    ghost predicate Valid()
      reads this
    {
      && |children| == |isEndOfWord| == |spelling|
      && |children| > 0
      && spelling[0] == []
      && EdgesOk(children, spelling)
      && Reachable(children, spelling)
    }

    /** The words the trie holds: the labels of the nodes marked as word ends. */
    ghost function Words(): set<string>
      reads this
      requires Valid()
    {
      WordsOf(isEndOfWord, spelling)
    }

    /** Walking `s` from the root reaches a node marked as a word end. */
    ghost predicate Accepts(s: string)
      reads this
      requires Valid()
    {
      var r := Follow(children, 0, s);
      r.Some? && r.value < |isEndOfWord| && isEndOfWord[r.value]
    }

    lemma AcceptsIffWord(s: string)
      requires Valid()
      ensures Accepts(s) <==> s in Words()
    {
      if Accepts(s) {
        FollowSpelling(children, spelling, 0, s, |s|);
        assert s[..|s|] == s;
        var n := Follow(children, 0, s).value;
        assert spelling[n] == s;
      }
      if s in Words() {
        var n :| 0 <= n < |isEndOfWord| && isEndOfWord[n] && spelling[n] == s;
        assert Follow(children, 0, spelling[n]) == Some(n);
      }
    }

    /** A fresh root with no children: the empty dictionary. */
    constructor ()
      ensures Valid() && Words() == {} && |children| == 1
    {
      children := [map[]];
      isEndOfWord := [false];
      spelling := [""];
      new;
      assert Follow(children, 0, spelling[0]) == Some(0);
    }

    /** `getChild`: the child along `c`, None exactly when the node has no such edge;
        the child's spelling is the node's spelling followed by `c`. */
    function GetChild(node: nat, c: char): (r: Option<nat>)
      reads this
      requires Valid() && node < |children|
      ensures r.None? <==> c !in children[node]
      ensures r.Some? ==> r.value < |children| && r.value == children[node][c]
      ensures r.Some? ==> spelling[r.value] == spelling[node] + [c]
    {
      if c in children[node] then Some(children[node][c]) else None
    }

    /** `insert`: walks the word from the root, creating each missing child, and
        marks the last node as a word end. The dictionary gains exactly `word`,
        and every edge that existed before is still there. */
    method Insert(word: string)
      requires Valid()
      modifies this
      ensures Valid()
      ensures Words() == old(Words()) + {word}
      ensures Extends(old(children), children)
      ensures Accepts(word)
    {
      var current: nat := 0;
      var i := 0;
      while i < |word|
        invariant 0 <= i <= |word|
        invariant Valid()
        invariant current < |children| && spelling[current] == word[..i]
        invariant Words() == old(Words())
        invariant Extends(old(children), children)
      {
        var c := word[i];
        if c !in children[current] {
          AddChild(current, c);
        }
        current := children[current][c];
        assert word[..i + 1] == word[..i] + [c];
        i := i + 1;
      }
      assert word[..i] == word;
      WordsOfMark(isEndOfWord, spelling, current);
      isEndOfWord := isEndOfWord[current := true];
      AcceptsIffWord(word);
    }

    /** `current.children.set(c, new TrieNode())`. */
    method AddChild(current: nat, c: char)
      requires Valid() && current < |children| && c !in children[current]
      modifies this
      ensures Valid()
      ensures Words() == old(Words())
      ensures Extends(old(children), children)
      ensures |children| == old(|children|) + 1
      ensures c in children[current] && children[current][c] == old(|children|)
      ensures spelling[old(|children|)] == spelling[current] + [c]
      ensures forall n :: 0 <= n < old(|children|) ==> spelling[n] == old(spelling[n])
    {
      AppendChild(children, spelling, current, c);
      WordsOfAppendNode(isEndOfWord, spelling, spelling[current] + [c]);
      children := AddEdge(children, current, c);
      isEndOfWord := isEndOfWord + [false];
      spelling := spelling + [spelling[current] + [c]];
    }
  }
}
