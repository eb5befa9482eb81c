/** Ordering and de-duplication of results, shared by the three variants:
    the best-entry-per-word table, the comparator
    `(a, b) => b.score !== a.score ? b.score - a.score : b.word.length - a.word.length`,
    the descending sort of start cells, and the first-occurrence filter. */
module Ranking {
  import opened Types

  // ------------------------------------------------------------- sorting

  /** A two-level sort key, both levels descending. */
  datatype Key = Key(major: int, minor: int)

  /** `a` may come before `b`: higher major, or equal major and at least the minor. */
  predicate Before(a: Key, b: Key)
  {
    a.major > b.major || (a.major == b.major && a.minor >= b.minor)
  }

  predicate SortedBy<T>(s: seq<T>, key: T -> Key)
  {
    forall i, j :: 0 <= i < j < |s| ==> Before(key(s[i]), key(s[j]))
  }

  predicate NoDup<T(==)>(s: seq<T>)
  {
    forall i, j :: 0 <= i < j < |s| ==> s[i] != s[j]
  }

  /** Insert `x` into a sorted sequence in front of the first element it may precede. */
  function InsertBy<T(==)>(x: T, s: seq<T>, key: T -> Key): (r: seq<T>)
    ensures |r| == |s| + 1
    ensures multiset(r) == multiset(s) + multiset{x}
    decreases |s|
  {
    if s == [] || Before(key(x), key(s[0])) then [x] + s
    else
      assert s == [s[0]] + s[1..];
      [s[0]] + InsertBy(x, s[1..], key)
  }

  lemma MemberOfInsert<T>(x: T, s: seq<T>, key: T -> Key, y: T)
    requires y in InsertBy(x, s, key)
    ensures y == x || y in s
  {
    assert y in multiset(InsertBy(x, s, key));
  }

  lemma {:induction false} InsertBySorted<T>(x: T, s: seq<T>, key: T -> Key)
    requires SortedBy(s, key)
    ensures SortedBy(InsertBy(x, s, key), key)
    decreases |s|
  {
    if s != [] && !Before(key(x), key(s[0])) {
      var t := InsertBy(x, s[1..], key);
      InsertBySorted(x, s[1..], key);
      forall j | 0 <= j < |t| ensures Before(key(s[0]), key(t[j])) {
        MemberOfInsert(x, s[1..], key, t[j]);
      }
    }
  }

  lemma {:induction false} InsertByNoDup<T>(x: T, s: seq<T>, key: T -> Key)
    requires NoDup(s) && x !in s
    ensures NoDup(InsertBy(x, s, key))
    decreases |s|
  {
    if s != [] && !Before(key(x), key(s[0])) {
      var t := InsertBy(x, s[1..], key);
      InsertByNoDup(x, s[1..], key);
      forall j | 0 <= j < |t| ensures s[0] != t[j] {
        MemberOfInsert(x, s[1..], key, t[j]);
      }
    }
  }

  /** Insertion sort: the source's `Array.prototype.sort` with a descending comparator.
      The result is a sorted permutation of the input. */
  function SortBy<T(==)>(s: seq<T>, key: T -> Key): (r: seq<T>)
    ensures multiset(r) == multiset(s)
    ensures SortedBy(r, key)
    ensures NoDup(s) ==> NoDup(r)
    decreases |s|
  {
    if s == [] then []
    else
      var n := |s| - 1;
      var sorted := SortBy(s[..n], key);
      assert s == s[..n] + [s[n]];
      InsertBySorted(s[n], sorted, key);
      if NoDup(s) then
        assert s[n] !in s[..n];
        assert s[n] !in multiset(sorted);
        InsertByNoDup(s[n], sorted, key);
        InsertBy(s[n], sorted, key)
      else InsertBy(s[n], sorted, key)
  }

  // ------------------------------------------------------ found words

  /** The result order: by score, then by word length. */
  function RankKey(w: FoundWord): Key
  {
    Key(w.score, |w.word|)
  }

  predicate Ranked(s: seq<FoundWord>)
  {
    SortedBy(s, RankKey)
  }

  /** The source's comparator: negative when `a` sorts before `b`. */
  function Compare(a: FoundWord, b: FoundWord): int
  {
    if b.score != a.score then b.score - a.score else |b.word| - |a.word|
  }

  /** A ranked list is exactly one in which no pair is out of the comparator's order. */
  lemma RankedMeansComparatorOrder(s: seq<FoundWord>)
    ensures Ranked(s) <==> forall i, j :: 0 <= i < j < |s| ==> Compare(s[i], s[j]) <= 0
  {
    assert forall a, b :: Before(RankKey(a), RankKey(b)) <==> Compare(a, b) <= 0;
  }

  predicate DistinctWords(s: seq<FoundWord>)
  {
    forall i, j :: 0 <= i < j < |s| ==> s[i].word != s[j].word
  }

  lemma DistinctWordsNoDup(s: seq<FoundWord>)
    requires DistinctWords(s)
    ensures NoDup(s)
  {
  }

  /** Reordering a list with one entry per word, without repeating an element, keeps one entry per word. */
  lemma DistinctAfterPermutation(s: seq<FoundWord>, r: seq<FoundWord>)
    requires DistinctWords(s) && multiset(r) == multiset(s) && NoDup(r)
    ensures DistinctWords(r)
  {
    forall i, j | 0 <= i < j < |r| ensures r[i].word != r[j].word {
      assert r[i] in multiset(s) && r[j] in multiset(s);
      var a :| 0 <= a < |s| && s[a] == r[i];
      var b :| 0 <= b < |s| && s[b] == r[j];
      if a < b { assert s[a].word != s[b].word; }
      else if b < a { assert s[b].word != s[a].word; }
    }
  }

  /** Sorting results by rank keeps every entry and one entry per word. */
  function SortRanked(s: seq<FoundWord>): (r: seq<FoundWord>)
    ensures Ranked(r) && multiset(r) == multiset(s)
    ensures DistinctWords(s) ==> DistinctWords(r)
  {
    var r := SortBy(s, RankKey);
    if DistinctWords(s) then
      DistinctWordsNoDup(s);
      DistinctAfterPermutation(s, r);
      r
    else r
  }

  // ------------------------------------------- best entry per word

  /** A word-keyed table: every key is the word of its entry. */
  ghost predicate KeyedByWord(m: map<string, FoundWord>)
  {
    forall w :: w in m ==> m[w].word == w
  }

  /** `after` keeps every word of `before`, each with the same entry or one of strictly higher score. */
  ghost predicate KeptOrImproved(before: map<string, FoundWord>, after: map<string, FoundWord>)
  {
    forall w {:trigger w in before} :: w in before ==> w in after && (after[w] == before[w] || after[w].score > before[w].score)
  }

  lemma KeptOrImprovedTransitive(a: map<string, FoundWord>, b: map<string, FoundWord>, c: map<string, FoundWord>)
    requires KeptOrImproved(a, b) && KeptOrImproved(b, c)
    ensures KeptOrImproved(a, c)
  {
  }

  /** Every word added or replaced between `before` and `after` has at most `cap` letters. */
  ghost predicate ChangedWithin(before: map<string, FoundWord>, after: map<string, FoundWord>, cap: int)
  {
    forall w {:trigger w in after} :: w in after && (w !in before || after[w] != before[w]) ==> |w| <= cap
  }

  lemma ChangedWithinTransitive(a: map<string, FoundWord>, b: map<string, FoundWord>, c: map<string, FoundWord>, cap: int)
    requires ChangedWithin(a, b, cap) && ChangedWithin(b, c, cap)
    ensures ChangedWithin(a, c, cap)
  {
  }

  /** A word held with at least score `s` is still held with at least `s`. */
  lemma KeptScore(before: map<string, FoundWord>, after: map<string, FoundWord>, w: string, s: int)
    requires KeptOrImproved(before, after) && w in before && before[w].score >= s
    ensures w in after && after[w].score >= s
  {
  }

  lemma ChangedWithinWeaken(a: map<string, FoundWord>, b: map<string, FoundWord>, cap: int, cap2: int)
    requires ChangedWithin(a, b, cap) && cap <= cap2
    ensures ChangedWithin(a, b, cap2)
  {
  }

  /** The `Map<string, FoundWord>` both larger variants fill: one entry per word,
      replaced only by a strictly better one. */
  class BestByWord {
    var entries: map<string, FoundWord>

    constructor ()
      ensures entries == map[]
    {
      entries := map[];
    }

    /** `if (!existing || score > existing.score) foundWords.set(word, entry)`;
        `stored` tells whether the entry went in. */
    method Offer(e: FoundWord) returns (stored: bool)
      modifies this
      ensures stored <==> e.word !in old(entries) || e.score > old(entries)[e.word].score
      ensures entries == if stored then old(entries)[e.word := e] else old(entries)
      ensures KeptOrImproved(old(entries), entries)
      ensures e.word in entries && entries[e.word].score >= e.score
    {
      stored := e.word !in entries || e.score > entries[e.word].score;
      if stored {
        entries := entries[e.word := e];
      }
    }
  }

  /** One step of the values scan: appending the entry of a key not yet taken keeps the
      list free of repeats and made of table entries, and the taken keys listed. */
  lemma ValuesStep(m: map<string, FoundWord>, s: seq<FoundWord>, rest: set<string>, w: string)
    requires KeyedByWord(m) && w in rest && rest <= m.Keys
    requires DistinctWords(s)
    requires forall i :: 0 <= i < |s| ==> s[i].word in m && s[i].word !in rest && m[s[i].word] == s[i]
    requires forall v :: v in m && v !in rest ==> exists i :: 0 <= i < |s| && s[i].word == v
    ensures DistinctWords(s + [m[w]])
    ensures forall i :: 0 <= i < |s + [m[w]]| ==>
      (s + [m[w]])[i].word in m && (s + [m[w]])[i].word !in rest - {w} && m[(s + [m[w]])[i].word] == (s + [m[w]])[i]
    ensures forall v :: v in m && v !in rest - {w} ==> exists i :: 0 <= i < |s + [m[w]]| && (s + [m[w]])[i].word == v
  {
    var s1 := s + [m[w]];
    assert m[w].word == w;
    forall v | v in m && v !in rest - {w} ensures exists i :: 0 <= i < |s1| && s1[i].word == v {
      if v == w {
        assert s1[|s|].word == v;
      } else {
        var i :| 0 <= i < |s| && s[i].word == v;
        assert s1[i].word == v;
      }
    }
  }

  /** `Array.from(foundWords.values())`: the table's entries in some order, each once. */
  method ValuesOf(m: map<string, FoundWord>) returns (s: seq<FoundWord>)
    requires KeyedByWord(m)
    ensures DistinctWords(s)
    ensures forall i :: 0 <= i < |s| ==> s[i].word in m && m[s[i].word] == s[i]
    ensures forall w :: w in m ==> exists i :: 0 <= i < |s| && s[i].word == w
  {
    s := [];
    var rest := m.Keys;
    while rest != {}
      invariant rest <= m.Keys
      invariant DistinctWords(s)
      invariant forall i :: 0 <= i < |s| ==> s[i].word in m && s[i].word !in rest && m[s[i].word] == s[i]
      invariant forall w :: w in m && w !in rest ==> exists i :: 0 <= i < |s| && s[i].word == w
      decreases |rest|
    {
      var w :| w in rest;
      ValuesStep(m, s, rest, w);
      s := s + [m[w]];
      rest := rest - {w};
    }
  }

  /** The ranked result list of the two map-based variants: every table entry once, in rank order. */
  method RankedValues(m: map<string, FoundWord>) returns (r: seq<FoundWord>)
    requires KeyedByWord(m)
    ensures Ranked(r) && DistinctWords(r)
    ensures forall i :: 0 <= i < |r| ==> r[i].word in m && m[r[i].word] == r[i]
    ensures forall w :: w in m ==> exists i :: 0 <= i < |r| && r[i].word == w
  {
    var s := ValuesOf(m);
    r := SortRanked(s);
    forall i | 0 <= i < |r| ensures r[i].word in m && m[r[i].word] == r[i] {
      assert r[i] in multiset(s);
    }
    forall w | w in m ensures exists i :: 0 <= i < |r| && r[i].word == w {
      var k :| 0 <= k < |s| && s[k].word == w;
      assert s[k] in multiset(r);
      var i :| 0 <= i < |r| && r[i] == s[k];
    }
  }

  // ------------------------------------------ first-occurrence filter

  /** No earlier element carries the same word as `s[i]`: `i === self.findIndex(w => w.word === s[i].word)`. */
  predicate FirstOccurrence(s: seq<FoundWord>, i: int)
    requires 0 <= i < |s|
  {
    forall k :: 0 <= k < i ==> s[k].word != s[i].word
  }

  /** `filter((w, index, self) => index === self.findIndex(v => v.word === w.word))`. */
  function KeepFirst(s: seq<FoundWord>): seq<FoundWord>
    decreases |s|
  {
    if s == [] then []
    else
      var n := |s| - 1;
      if exists k :: 0 <= k < n && s[k].word == s[n].word then KeepFirst(s[..n])
      else KeepFirst(s[..n]) + [s[n]]
  }

  /** Whatever the filter keeps is the first occurrence of its word. */
  lemma {:induction false} KeepFirstSound(s: seq<FoundWord>, x: FoundWord)
    requires x in KeepFirst(s)
    ensures exists i :: 0 <= i < |s| && s[i] == x && FirstOccurrence(s, i)
    decreases |s|
  {
    var n := |s| - 1;
    var init := s[..n];
    if x in KeepFirst(init) {
      KeepFirstSound(init, x);
      var i :| 0 <= i < n && init[i] == x && FirstOccurrence(init, i);
      assert s[i] == x && FirstOccurrence(s, i);
    } else {
      assert x == s[n] && FirstOccurrence(s, n);
    }
  }

  /** The first occurrence of each word is kept. */
  lemma {:induction false} KeepFirstComplete(s: seq<FoundWord>, i: int)
    requires 0 <= i < |s| && FirstOccurrence(s, i)
    ensures s[i] in KeepFirst(s)
    decreases |s|
  {
    var n := |s| - 1;
    var init := s[..n];
    if i < n {
      assert init[i] == s[i] && FirstOccurrence(init, i);
      KeepFirstComplete(init, i);
      assert KeepFirst(init) <= KeepFirst(s);
    } else {
      assert !exists k :: 0 <= k < n && s[k].word == s[n].word;
      assert KeepFirst(s) == KeepFirst(init) + [s[n]];
    }
  }

  /** The filter keeps exactly the first occurrence of each word. */
  lemma KeepFirstMember(s: seq<FoundWord>, x: FoundWord)
    ensures x in KeepFirst(s) <==> exists i :: 0 <= i < |s| && s[i] == x && FirstOccurrence(s, i)
  {
    if x in KeepFirst(s) {
      KeepFirstSound(s, x);
    }
    if exists i :: 0 <= i < |s| && s[i] == x && FirstOccurrence(s, i) {
      var i :| 0 <= i < |s| && s[i] == x && FirstOccurrence(s, i);
      KeepFirstComplete(s, i);
    }
  }

  /** What the filter keeps has one entry per word. */
  lemma {:induction false} KeepFirstDistinct(s: seq<FoundWord>)
    ensures DistinctWords(KeepFirst(s))
    decreases |s|
  {
    if s != [] {
      var n := |s| - 1;
      var init := s[..n];
      KeepFirstDistinct(init);
      if !exists k :: 0 <= k < n && s[k].word == s[n].word {
        var r0 := KeepFirst(init);
        forall j | 0 <= j < |r0| ensures r0[j].word != s[n].word {
          KeepFirstMember(init, r0[j]);
          var i :| 0 <= i < n && init[i] == r0[j] && FirstOccurrence(init, i);
          assert s[i] == init[i];
        }
      }
    }
  }

  /** The filter only ever drops elements from the end of what it has built. */
  lemma KeepFirstPrefix(s: seq<FoundWord>)
    requires s != []
    ensures KeepFirst(s[..|s| - 1]) <= KeepFirst(s)
  {
  }

  /** Every word of the input survives the filter. */
  lemma {:induction false} KeepFirstCoversAt(s: seq<FoundWord>, i: int)
    requires 0 <= i < |s|
    ensures exists j :: 0 <= j < |KeepFirst(s)| && KeepFirst(s)[j].word == s[i].word
    decreases |s|
  {
    var n := |s| - 1;
    var init := s[..n];
    var r0, r := KeepFirst(init), KeepFirst(s);
    KeepFirstPrefix(s);
    if i < n {
      KeepFirstCoversAt(init, i);
      var j :| 0 <= j < |r0| && r0[j].word == init[i].word;
      assert r[j] == r0[j];
    } else if exists k :: 0 <= k < n && s[k].word == s[n].word {
      var k :| 0 <= k < n && s[k].word == s[n].word;
      KeepFirstCoversAt(init, k);
      var j :| 0 <= j < |r0| && r0[j].word == init[k].word;
      assert r[j] == r0[j];
    } else {
      assert r[|r0|] == s[n];
    }
  }

  /** A list that already has one entry per word passes the filter unchanged. */
  lemma {:induction false} KeepFirstIdentity(s: seq<FoundWord>)
    requires DistinctWords(s)
    ensures KeepFirst(s) == s
    decreases |s|
  {
    if s != [] {
      var n := |s| - 1;
      assert DistinctWords(s[..n]);
      KeepFirstIdentity(s[..n]);
      assert s == s[..n] + [s[n]];
    }
  }
}
