/** The ranking step of `pick_skills`: `scored.sort(key=score, reverse=True)`
    (tools/skill_router.py:97), a stable sort by descending score. It is modelled
    by insertion sort; `StableSortUnique` shows that any stable descending sort
    gives the same sequence. */
module Ranking {

  /** A `(score, name)` pair as `pick_skills` collects it. */
  datatype Scored = Scored(score: int, name: string)

  /** Scores never increase along `s`. */
  predicate SortedDesc(s: seq<Scored>) {
    forall i, j :: 0 <= i < j < |s| ==> s[i].score >= s[j].score
  }

  /** The entries of `s` whose score is `v`, in their order in `s`. */
  function WithScore(s: seq<Scored>, v: int): seq<Scored> {
    if s == [] then []
    else (if s[0].score == v then [s[0]] else []) + WithScore(s[1..], v)
  }

  /** Inserts `x` after every entry scoring at least as much. */
  function Insert(x: Scored, s: seq<Scored>): (r: seq<Scored>)
    requires SortedDesc(s)
    ensures |r| == |s| + 1
    ensures multiset(r) == multiset(s) + multiset{x}
    ensures r[0] == x || (s != [] && r[0] == s[0])
    ensures SortedDesc(r)
  {
    if s == [] || s[0].score < x.score then
      ConsSorted(x, s);
      [x] + s
    else
      assert s == [s[0]] + s[1..];
      var rest := Insert(x, s[1..]);
      ConsSorted(s[0], rest);
      [s[0]] + rest
  }

  /** An entry scoring at least the head of a descending sequence can go in
      front of it. */
  lemma ConsSorted(h: Scored, t: seq<Scored>)
    requires SortedDesc(t)
    requires t == [] || h.score >= t[0].score
    ensures SortedDesc([h] + t)
  {
    var r := [h] + t;
    forall i, j | 0 <= i < j < |r|
      ensures r[i].score >= r[j].score
    {
      if i == 0 {
        assert r[j] == t[j - 1];
      } else {
        assert r[i] == t[i - 1] && r[j] == t[j - 1];
      }
    }
  }

  /** The ranked list: sorted by descending score, a permutation of the input. */
  function Rank(s: seq<Scored>): (r: seq<Scored>)
    ensures |r| == |s|
    ensures multiset(r) == multiset(s)
    ensures SortedDesc(r)
  {
    if s == [] then []
    else
      assert s == s[..|s| - 1] + [s[|s| - 1]];
      Insert(s[|s| - 1], Rank(s[..|s| - 1]))
  }

  // ---------------------------------------------------------------------------
  // Lemmas
  // ---------------------------------------------------------------------------

  /** Every ranked entry comes from the input. */
  lemma RankMember(s: seq<Scored>, k: int)
    requires 0 <= k < |Rank(s)|
    ensures Rank(s)[k] in s
  {
    var r := Rank(s);
    assert r[k] in multiset(r);
  }

  lemma {:induction false} WithScoreAppend(a: seq<Scored>, b: seq<Scored>, v: int)
    ensures WithScore(a + b, v) == WithScore(a, v) + WithScore(b, v)
    decreases |a|
  {
    if a == [] {
      assert a + b == b;
    } else {
      assert (a + b)[1..] == a[1..] + b;
      WithScoreAppend(a[1..], b, v);
    }
  }

  /** An entry scoring `v` shows up in `WithScore(s, v)`, and nothing else does. */
  lemma {:induction false} WithScoreMembers(s: seq<Scored>, v: int)
    ensures forall e :: e in WithScore(s, v) <==> e in s && e.score == v
    decreases |s|
  {
    if s != [] {
      WithScoreMembers(s[1..], v);
      assert s == [s[0]] + s[1..];
    }
  }

  lemma {:induction false} WithScoreNone(s: seq<Scored>, v: int)
    requires forall i :: 0 <= i < |s| ==> s[i].score < v
    ensures WithScore(s, v) == []
    decreases |s|
  {
    if s != [] {
      WithScoreNone(s[1..], v);
    }
  }

  /** The first entry of a non-empty sequence is the first entry with its score. */
  lemma FirstScoreShows(s: seq<Scored>)
    ensures s != [] ==> WithScore(s, s[0].score) != [] && WithScore(s, s[0].score)[0] == s[0]
  {
  }

  /** In a descending sequence, no score present exceeds the first one. */
  lemma HeadIsMax(s: seq<Scored>, v: int)
    requires SortedDesc(s)
    requires WithScore(s, v) != []
    ensures s != [] && s[0].score >= v
  {
    WithScoreMembers(s, v);
    var e := WithScore(s, v)[0];
    assert e in WithScore(s, v);
    var k :| 0 <= k < |s| && s[k] == e;
  }

  /** Inserting `x` puts it behind every entry with the same score. */
  lemma {:induction false} InsertStable(x: Scored, s: seq<Scored>, v: int)
    requires SortedDesc(s)
    ensures WithScore(Insert(x, s), v) == WithScore(s, v) + (if x.score == v then [x] else [])
    decreases |s|
  {
    if s == [] {
      WithScoreCons(x, s, v);
    } else if s[0].score < x.score {
      InsertFrontStable(x, s, v);
    } else {
      SortedTail(s);
      InsertStable(x, s[1..], v);
      InsertBehindStable(x, s, v);
    }
  }

  lemma SortedTail(s: seq<Scored>)
    requires SortedDesc(s) && s != []
    ensures SortedDesc(s[1..])
  {
  }

  lemma InsertBehindStable(x: Scored, s: seq<Scored>, v: int)
    requires SortedDesc(s) && s != [] && s[0].score >= x.score
    requires WithScore(Insert(x, s[1..]), v) == WithScore(s[1..], v) + (if x.score == v then [x] else [])
    ensures WithScore(Insert(x, s), v) == WithScore(s, v) + (if x.score == v then [x] else [])
  {
    var rest := Insert(x, s[1..]);
    var p := if s[0].score == v then [s[0]] else [];
    var q := if x.score == v then [x] else [];
    assert Insert(x, s) == [s[0]] + rest;
    WithScoreCons(s[0], rest, v);
    var w := WithScore(s[1..], v);
    assert WithScore(s, v) == p + w;
    AppendAssoc(p, w, q);
  }

  lemma AppendAssoc(a: seq<Scored>, b: seq<Scored>, c: seq<Scored>)
    ensures a + (b + c) == (a + b) + c
  {
  }

  lemma InsertFrontStable(x: Scored, s: seq<Scored>, v: int)
    requires SortedDesc(s) && s != [] && s[0].score < x.score
    ensures WithScore(Insert(x, s), v) == WithScore(s, v) + (if x.score == v then [x] else [])
  {
    assert Insert(x, s) == [x] + s;
    WithScoreCons(x, s, v);
    if x.score == v {
      WithScoreNone(s, v);
    }
  }

  lemma WithScoreCons(h: Scored, t: seq<Scored>, v: int)
    ensures WithScore([h] + t, v) == (if h.score == v then [h] else []) + WithScore(t, v)
  {
    assert ([h] + t)[1..] == t;
  }

  /** Equal scores keep their original relative order: for every score, the
      entries with that score appear in the ranking exactly as in the input. */
  lemma {:induction false} RankStable(s: seq<Scored>, v: int)
    ensures WithScore(Rank(s), v) == WithScore(s, v)
    decreases |s|
  {
    if s != [] {
      var init := s[..|s| - 1];
      var last := s[|s| - 1];
      WithScoreSnoc(init, last, v);
      assert init + [last] == s;
      RankStable(init, v);
      InsertStable(last, Rank(init), v);
    }
  }

  lemma WithScoreSnoc(init: seq<Scored>, last: Scored, v: int)
    ensures WithScore(init + [last], v) == WithScore(init, v) + (if last.score == v then [last] else [])
  {
    WithScoreAppend(init, [last], v);
    assert [last][1..] == [];
  }

  /** Sequences with the same entries per score are both empty or both not. */
  lemma SameScoresSameEmptiness(r1: seq<Scored>, r2: seq<Scored>)
    requires forall v :: WithScore(r1, v) == WithScore(r2, v)
    ensures r1 == [] <==> r2 == []
  {
    FirstScoreShows(r1);
    FirstScoreShows(r2);
    var v1 := if r1 != [] then r1[0].score else 0;
    var v2 := if r2 != [] then r2[0].score else 0;
    assert WithScore(r1, v1) == WithScore(r2, v1);
    assert WithScore(r1, v2) == WithScore(r2, v2);
  }

  /** Descending sequences with the same entries per score start alike. */
  lemma SameScoresSameHead(r1: seq<Scored>, r2: seq<Scored>)
    requires SortedDesc(r1) && SortedDesc(r2) && r1 != [] && r2 != []
    requires forall v :: WithScore(r1, v) == WithScore(r2, v)
    ensures r1[0] == r2[0]
  {
    var m1 := r1[0].score;
    var m2 := r2[0].score;
    assert WithScore(r1, m1) == WithScore(r2, m1);
    assert WithScore(r1, m2) == WithScore(r2, m2);
    SameHeadAt(r1, r2);
  }

  lemma SameHeadAt(r1: seq<Scored>, r2: seq<Scored>)
    requires SortedDesc(r1) && SortedDesc(r2) && r1 != [] && r2 != []
    requires WithScore(r1, r1[0].score) == WithScore(r2, r1[0].score)
    requires WithScore(r1, r2[0].score) == WithScore(r2, r2[0].score)
    ensures r1[0] == r2[0]
  {
    var m1 := r1[0].score;
    var m2 := r2[0].score;
    FirstScoreShows(r1);
    FirstScoreShows(r2);
    HeadIsMax(r2, m1);
    HeadIsMax(r1, m2);
    assert m1 == m2;
  }

  /** Dropping a common first entry keeps the entries per score equal. */
  lemma SameScoresTails(r1: seq<Scored>, r2: seq<Scored>)
    requires r1 != [] && r2 != [] && r1[0] == r2[0]
    requires forall v :: WithScore(r1, v) == WithScore(r2, v)
    ensures forall v :: WithScore(r1[1..], v) == WithScore(r2[1..], v)
  {
    forall v
      ensures WithScore(r1[1..], v) == WithScore(r2[1..], v)
    {
      var p := if r1[0].score == v then [r1[0]] else [];
      assert WithScore(r1, v) == p + WithScore(r1[1..], v);
      assert WithScore(r2, v) == p + WithScore(r2[1..], v);
      assert WithScore(r1[1..], v) == (p + WithScore(r1[1..], v))[|p|..];
      assert WithScore(r2[1..], v) == (p + WithScore(r2[1..], v))[|p|..];
    }
  }

  /** Any two descending sequences with the same entries per score are equal:
      a stable sort by descending score has exactly one possible result, so the
      ranking does not depend on which stable sort computes it. */
  lemma {:induction false} StableSortUnique(r1: seq<Scored>, r2: seq<Scored>)
    requires SortedDesc(r1) && SortedDesc(r2)
    requires forall v :: WithScore(r1, v) == WithScore(r2, v)
    ensures r1 == r2
    decreases |r1|
  {
    SameScoresSameEmptiness(r1, r2);
    if r1 != [] {
      SameScoresSameHead(r1, r2);
      SameScoresTails(r1, r2);
      StableSortUnique(r1[1..], r2[1..]);
      assert r1 == [r1[0]] + r1[1..];
      assert r2 == [r2[0]] + r2[1..];
    }
  }

  /** `Rank` is the stable descending sort: any sequence ordered by descending
      score that keeps the input's entries per score is `Rank` of the input. */
  lemma RankUnique(s: seq<Scored>, r: seq<Scored>)
    requires SortedDesc(r)
    requires forall v :: WithScore(r, v) == WithScore(s, v)
    ensures r == Rank(s)
  {
    forall v
      ensures WithScore(r, v) == WithScore(Rank(s), v)
    {
      RankStable(s, v);
    }
    StableSortUnique(r, Rank(s));
  }
}
