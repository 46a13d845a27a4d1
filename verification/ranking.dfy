/**
 De-duplication and ordering of Comprehend detections.

 Detections arrive in chunk order. They are folded into a table that keeps one
 entry per key, in first-seen order like a Python dict, and replaces an entry
 only when a later detection scores strictly higher. The table is then sorted
 by score, highest first, by a stable sort (Python's `sorted(..., reverse=True)`).
 Keys and scores are given as functions so that entities (`Type:Text`) and key
 phrases (lower-cased text) share one definition.
 */
module Ranking {
  import opened Wrappers

  /** No two entries share a key. */
  predicate KeysDistinct<T>(s: seq<T>, key: T -> string) {
    forall i, j :: 0 <= i < j < |s| ==> key(s[i]) != key(s[j])
  }

  /** Some entry has key `k`. */
  predicate HasKey<T>(s: seq<T>, k: string, key: T -> string) {
    exists i :: 0 <= i < |s| && key(s[i]) == k
  }

  /**
   `x` is what the merge must keep for its key: it occurs in `items`, no
   detection with its key scores higher, and every earlier detection with its
   key scores strictly lower (on equal scores the first one seen is kept).
   */
  predicate IsBestOf<T(==)>(items: seq<T>, x: T, key: T -> string, score: T -> int) {
    (forall i :: 0 <= i < |items| && key(items[i]) == key(x) ==> score(items[i]) <= score(x))
    && exists j :: 0 <= j < |items| && items[j] == x && FirstBest(items, j, key, score)
  }

  /** Every detection before position `j` with the same key scores strictly lower. */
  predicate FirstBest<T>(items: seq<T>, j: nat, key: T -> string, score: T -> int)
    requires j < |items|
  {
    forall i :: 0 <= i < j && key(items[i]) == key(items[j]) ==> score(items[i]) < score(items[j])
  }

  /** The position of the entry with key `k` (`key in table`). */
  function FindKey<T>(table: seq<T>, k: string, key: T -> string): (r: Option<nat>)
    ensures r.Some? ==> r.value < |table| && key(table[r.value]) == k
    ensures r.None? <==> !HasKey(table, k, key)
  {
    if table == [] then None
    else if key(table[0]) == k then Some(0)
    else
      match FindKey(table[1..], k, key)
      case None =>
        assert forall i :: 1 <= i < |table| ==> table[i] == table[1..][i - 1];
        None
      case Some(j) => Some(j + 1)
  }

  /** One step of the merge loop: insert when the key is new, replace on a strictly higher score. */
  function Upsert<T>(table: seq<T>, x: T, key: T -> string, score: T -> int): seq<T> {
    match FindKey(table, key(x), key)
    case None => table + [x]
    case Some(j) => if score(x) > score(table[j]) then table[j := x] else table
  }

  /** What one step of the merge does to the table's entries and keys. */
  lemma UpsertFacts<T>(t: seq<T>, x: T, key: T -> string, score: T -> int)
    requires KeysDistinct(t, key)
    ensures var r := Upsert(t, x, key, score);
      && KeysDistinct(r, key)
      && HasKey(r, key(x), key)
      && (forall k :: HasKey(t, k, key) ==> HasKey(r, k, key))
      && (forall i :: 0 <= i < |r| ==> r[i] == x || r[i] in t)
  {
    var r := Upsert(t, x, key, score);
    match FindKey(t, key(x), key)
    case None =>
      assert r[|t|] == x;
      forall k | HasKey(t, k, key) ensures HasKey(r, k, key) {
        var i :| 0 <= i < |t| && key(t[i]) == k;
        assert r[i] == t[i];
      }
    case Some(j) =>
      assert key(r[j]) == key(x);
      forall k | HasKey(t, k, key) ensures HasKey(r, k, key) {
        var i :| 0 <= i < |t| && key(t[i]) == k;
        assert key(r[i]) == k;
      }
  }

  /** The table after folding every detection of `items`, in order. */
  function MergeBest<T>(items: seq<T>, key: T -> string, score: T -> int): (r: seq<T>)
    ensures KeysDistinct(r, key)
    ensures forall j :: 0 <= j < |items| ==> HasKey(r, key(items[j]), key)
    ensures forall i :: 0 <= i < |r| ==> HasKey(items, key(r[i]), key)
  {
    if items == [] then []
    else
      var prefix := items[..|items| - 1];
      var t := MergeBest(prefix, key, score);
      var x := items[|items| - 1];
      var r := Upsert(t, x, key, score);
      UpsertFacts(t, x, key, score);
      assert forall j :: 0 <= j < |items| - 1 ==> items[j] == prefix[j];
      assert forall i :: 0 <= i < |r| ==> HasKey(items, key(r[i]), key) by {
        forall i | 0 <= i < |r| ensures HasKey(items, key(r[i]), key) {
          if r[i] != x {
            var m :| 0 <= m < |t| && t[m] == r[i];
            var j :| 0 <= j < |prefix| && key(prefix[j]) == key(t[m]);
            assert key(items[j]) == key(r[i]);
          }
        }
      }
      r
  }

  /** Merging one more detection keeps every entry the best of its key. */
  lemma UpsertKeepsBest<T>(items: seq<T>, t: seq<T>, x: T, key: T -> string, score: T -> int)
    requires KeysDistinct(t, key)
    requires forall j :: 0 <= j < |items| ==> HasKey(t, key(items[j]), key)
    requires forall i :: 0 <= i < |t| ==> IsBestOf(items, t[i], key, score)
    ensures forall i :: 0 <= i < |Upsert(t, x, key, score)| ==> IsBestOf(items + [x], Upsert(t, x, key, score)[i], key, score)
  {
    var all := items + [x];
    var r := Upsert(t, x, key, score);
    forall i | 0 <= i < |r| ensures IsBestOf(all, r[i], key, score) {
      var y := r[i];
      if y == x && (i == |t| || y != t[i]) {
        // `x` was inserted or replaced an entry: it beats every earlier detection of its key.
        var found := FindKey(t, key(x), key);
        if found.Some? {
          assert IsBestOf(items, t[found.value], key, score);
        }
        assert forall k :: 0 <= k < |items| && key(items[k]) == key(x) ==> HasKey(t, key(x), key);
        assert all[|items|] == x;
        assert FirstBest(all, |items|, key, score);
      } else {
        assert y == t[i];
        var j :| 0 <= j < |items| && items[j] == y && FirstBest(items, j, key, score);
        assert all[j] == y;
        assert FirstBest(all, j, key, score);
        if key(x) == key(y) {
          match FindKey(t, key(x), key)
          case None =>
          case Some(m) =>
            assert m == i;
        }
      }
    }
  }

  /**
   The merge keeps, for each key, the best detection of that key (the first
   one on equal scores), and nothing else.
   */
  lemma {:induction false} MergeBestKeepsBest<T>(items: seq<T>, key: T -> string, score: T -> int)
    ensures forall i :: 0 <= i < |MergeBest(items, key, score)| ==> IsBestOf(items, MergeBest(items, key, score)[i], key, score)
  {
    if items != [] {
      var prefix := items[..|items| - 1];
      MergeBestKeepsBest(prefix, key, score);
      UpsertKeepsBest(prefix, MergeBest(prefix, key, score), items[|items| - 1], key, score);
      assert prefix + [items[|items| - 1]] == items;
    }
  }

  /* ---------------------------------------------------------------------- */
  /* Stable sort by score, highest first                                    */
  /* ---------------------------------------------------------------------- */

  predicate SortedDesc<T>(s: seq<T>, score: T -> int) {
    forall i, j :: 0 <= i < j < |s| ==> score(s[i]) >= score(s[j])
  }

  /** Insert `x` in front of the first entry that does not score higher. */
  function Insert<T>(x: T, t: seq<T>, score: T -> int): (r: seq<T>)
    ensures |r| == |t| + 1
    ensures multiset(r) == multiset(t) + multiset{x}
  {
    if t == [] || score(t[0]) <= score(x) then [x] + t
    else
      assert t == [t[0]] + t[1..];
      [t[0]] + Insert(x, t[1..], score)
  }

  /** Inserting into a list sorted by score keeps it sorted. */
  lemma {:induction false} InsertSorted<T>(x: T, t: seq<T>, score: T -> int)
    requires SortedDesc(t, score)
    ensures SortedDesc(Insert(x, t, score), score)
  {
    if t == [] || score(t[0]) <= score(x) {
      PrependSorted(x, t, score);
    } else {
      var rest := Insert(x, t[1..], score);
      assert SortedDesc(t[1..], score);
      InsertSorted(x, t[1..], score);
      forall y | y in rest ensures score(y) <= score(t[0]) {
        assert y in multiset(rest);
        if y != x {
          assert y in multiset(t[1..]);
          var i :| 0 <= i < |t[1..]| && t[1..][i] == y;
          assert t[i + 1] == y;
        }
      }
      PrependSorted(t[0], rest, score);
    }
  }

  /** An entry scoring at least as high as everything in a sorted list can go in front. */
  lemma PrependSorted<T>(x: T, t: seq<T>, score: T -> int)
    requires SortedDesc(t, score)
    requires t == [] || score(t[0]) <= score(x) || forall y :: y in t ==> score(y) <= score(x)
    ensures SortedDesc([x] + t, score)
  {
    var r := [x] + t;
    forall i, j | 0 <= i < j < |r| ensures score(r[i]) >= score(r[j]) {
      assert r[j] == t[j - 1] && r[j] in t;
      if i == 0 {
        assert score(t[0]) >= score(t[j - 1]);
      } else {
        assert r[i] == t[i - 1];
      }
    }
  }

  /** `sorted(s, key=score, reverse=True)`. */
  function SortDesc<T>(s: seq<T>, score: T -> int): (r: seq<T>)
    ensures SortedDesc(r, score)
    ensures multiset(r) == multiset(s)
  {
    if s == [] then []
    else
      assert s == [s[0]] + s[1..];
      var t := SortDesc(s[1..], score);
      InsertSorted(s[0], t, score);
      Insert(s[0], t, score)
  }

  /** The entries scoring exactly `k`, in order. */
  function WithScore<T>(s: seq<T>, k: int, score: T -> int): seq<T> {
    if s == [] then []
    else (if score(s[0]) == k then [s[0]] else []) + WithScore(s[1..], k, score)
  }

  lemma {:induction false} InsertStable<T>(x: T, t: seq<T>, k: int, score: T -> int)
    ensures WithScore(Insert(x, t, score), k, score)
         == (if score(x) == k then [x] else []) + WithScore(t, k, score)
  {
    if t == [] || score(t[0]) <= score(x) {
      WithScoreCons(x, t, k, score);
    } else {
      InsertStable(x, t[1..], k, score);
      var rest := Insert(x, t[1..], score);
      assert Insert(x, t, score) == [t[0]] + rest;
      PassHigher(x, t, rest, k, score);
    }
  }

  /**
   Passing over an entry that scores higher than `x` keeps `x` ahead of the
   entries that score `k` after it, since at most one of the two scores `k`.
   */
  lemma PassHigher<T>(x: T, t: seq<T>, rest: seq<T>, k: int, score: T -> int)
    requires t != [] && score(t[0]) > score(x)
    requires WithScore(rest, k, score) == (if score(x) == k then [x] else []) + WithScore(t[1..], k, score)
    ensures WithScore([t[0]] + rest, k, score) == (if score(x) == k then [x] else []) + WithScore(t, k, score)
  {
    WithScoreCons(t[0], rest, k, score);
    WithScoreCons(t[0], t[1..], k, score);
    assert t == [t[0]] + t[1..];
    var own: seq<T> := if score(x) == k then [x] else [];
    var head: seq<T> := if score(t[0]) == k then [t[0]] else [];
    var tail := WithScore(t[1..], k, score);
    if head == [] {
      assert head + (own + tail) == own + (head + tail);
    } else {
      assert own == [];
      assert head + (own + tail) == own + (head + tail);
    }
  }

  /** The entries of `[y] + s` scoring `k`: `y` if it does, then those of `s`. */
  lemma WithScoreCons<T>(y: T, s: seq<T>, k: int, score: T -> int)
    ensures WithScore([y] + s, k, score) == (if score(y) == k then [y] else []) + WithScore(s, k, score)
  {
    assert ([y] + s)[0] == y && ([y] + s)[1..] == s;
  }

  /** The sort is stable: entries with equal scores keep their relative order. */
  lemma {:induction false} SortStable<T>(s: seq<T>, k: int, score: T -> int)
    ensures WithScore(SortDesc(s, score), k, score) == WithScore(s, k, score)
  {
    if s != [] {
      SortStable(s[1..], k, score);
      InsertStable(s[0], SortDesc(s[1..], score), k, score);
    }
  }

  lemma {:induction false} InsertKeepsKeysDistinct<T>(x: T, t: seq<T>, key: T -> string, score: T -> int)
    requires KeysDistinct(t, key)
    requires !HasKey(t, key(x), key)
    ensures KeysDistinct(Insert(x, t, score), key)
  {
    if t != [] && score(t[0]) > score(x) {
      assert !HasKey(t[1..], key(x), key) by {
        assert forall i :: 0 <= i < |t[1..]| ==> t[1..][i] == t[i + 1];
      }
      assert KeysDistinct(t[1..], key) by {
        assert forall i :: 0 <= i < |t[1..]| ==> t[1..][i] == t[i + 1];
      }
      InsertKeepsKeysDistinct(x, t[1..], key, score);
      var rest := Insert(x, t[1..], score);
      forall y | y in rest ensures key(y) != key(t[0]) {
        assert y in multiset(rest);
        if y != x {
          assert y in t[1..];
          var i :| 0 <= i < |t[1..]| && t[1..][i] == y;
          assert t[i + 1] == y;
        }
      }
    }
  }

  /** Sorting a table with distinct keys keeps the keys distinct. */
  lemma {:induction false} SortKeepsKeysDistinct<T>(s: seq<T>, key: T -> string, score: T -> int)
    requires KeysDistinct(s, key)
    ensures KeysDistinct(SortDesc(s, score), key)
  {
    if s != [] {
      assert KeysDistinct(s[1..], key) by {
        assert forall i :: 0 <= i < |s[1..]| ==> s[1..][i] == s[i + 1];
      }
      SortKeepsKeysDistinct(s[1..], key, score);
      var t := SortDesc(s[1..], score);
      forall i | 0 <= i < |t| ensures key(t[i]) != key(s[0]) {
        assert t[i] in multiset(s[1..]);
        var m :| 0 <= m < |s[1..]| && s[1..][m] == t[i];
        assert s[m + 1] == t[i];
      }
      InsertKeepsKeysDistinct(s[0], t, key, score);
    }
  }

  /* ---------------------------------------------------------------------- */
  /* The whole step                                                         */
  /* ---------------------------------------------------------------------- */

  /** De-duplicate by key keeping the best, then sort by score, highest first. */
  function Rank<T>(items: seq<T>, key: T -> string, score: T -> int): seq<T> {
    SortDesc(MergeBest(items, key, score), score)
  }

  /**
   The ranked list is sorted by score, holds one entry per key that occurs in
   the detections, and each entry is the best detection of its key.
   */
  lemma RankSpec<T>(items: seq<T>, key: T -> string, score: T -> int)
    ensures var r := Rank(items, key, score);
      && SortedDesc(r, score)
      && KeysDistinct(r, key)
      && (forall i :: 0 <= i < |r| ==> IsBestOf(items, r[i], key, score))
      && (forall j :: 0 <= j < |items| ==> HasKey(r, key(items[j]), key))
  {
    var m := MergeBest(items, key, score);
    var r := Rank(items, key, score);
    MergeBestKeepsBest(items, key, score);
    SortKeepsKeysDistinct(m, key, score);
    forall i | 0 <= i < |r| ensures IsBestOf(items, r[i], key, score) {
      assert r[i] in multiset(m);
    }
    forall j | 0 <= j < |items| ensures HasKey(r, key(items[j]), key) {
      var i :| 0 <= i < |m| && key(m[i]) == key(items[j]);
      assert m[i] in multiset(r);
      var i' :| 0 <= i' < |r| && r[i'] == m[i];
    }
  }
}
