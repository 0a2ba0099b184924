/** The leaderboard's ranking: a copy of the team list ordered by score, highest first. */
module Ranking {
  import opened Types

  /** Scores never increase along the list. */
  predicate ByScoreDescending(s: seq<Team>)
  {
    forall i, j :: 0 <= i < j < |s| ==> s[i].score >= s[j].score
  }

  /** Inserts `t` into a ranked list ahead of every team scoring no more than it. */
  function Insert(t: Team, s: seq<Team>): (r: seq<Team>)
    requires ByScoreDescending(s)
    ensures |r| == |s| + 1
    ensures multiset(r) == multiset(s) + multiset{t}
    ensures ByScoreDescending(r)
  {
    if s == [] || s[0].score <= t.score then
      HeadBoundsAll(s, t.score);
      ConsOrdered(t, s);
      [t] + s
    else
      var rest := Insert(t, s[1..]);
      assert s == [s[0]] + s[1..];
      HeadBoundsTail(s);
      BoundKeptByPermutation(rest, s[1..], t, s[0].score);
      ConsOrdered(s[0], rest);
      [s[0]] + rest
  }

  /** A team scoring at least every team of a ranked list may head it. */
  lemma ConsOrdered(h: Team, s: seq<Team>)
    requires ByScoreDescending(s) && AtMost(s, h.score)
    ensures ByScoreDescending([h] + s)
  {
    var r := [h] + s;
    forall i, j | 0 <= i < j < |r|
      ensures r[i].score >= r[j].score
    {
      if i > 0 {
        assert r[i] == s[i - 1] && r[j] == s[j - 1];
      } else {
        assert r[j] == s[j - 1];
      }
    }
  }

  lemma HeadBoundsAll(s: seq<Team>, v: int)
    requires ByScoreDescending(s) && (s == [] || s[0].score <= v)
    ensures AtMost(s, v)
  {
  }

  /** Every score in the list is at most `v`. */
  predicate AtMost(s: seq<Team>, v: int)
  {
    forall k :: 0 <= k < |s| ==> s[k].score <= v
  }

  lemma HeadBoundsTail(s: seq<Team>)
    requires s != [] && ByScoreDescending(s)
    ensures AtMost(s[1..], s[0].score)
  {
  }

  /** A bound on the scores of `b` and on `t` is a bound on any rearrangement of `b` plus `t`. */
  lemma BoundKeptByPermutation(a: seq<Team>, b: seq<Team>, t: Team, v: int)
    requires multiset(a) == multiset(b) + multiset{t}
    requires AtMost(b, v) && t.score <= v
    ensures AtMost(a, v)
  {
    forall k | 0 <= k < |a|
      ensures a[k].score <= v
    {
      assert a[k] in multiset(a);
      if a[k] != t {
        assert a[k] in multiset(b);
        var i :| 0 <= i < |b| && b[i] == a[k];
      }
    }
  }

  /** `[...teams].sort((a, b) => b.score - a.score)`: the same teams, highest score first.
      The argument is a value, so the caller's list is left as it was. */
  function SortByScore(teams: seq<Team>): (r: seq<Team>)
    ensures |r| == |teams|
    ensures multiset(r) == multiset(teams)
    ensures ByScoreDescending(r)
  {
    if teams == [] then []
    else
      assert teams == [teams[0]] + teams[1..];
      Insert(teams[0], SortByScore(teams[1..]))
  }

  /** The scores of a list of teams, in list order. */
  function Scores(s: seq<Team>): (r: seq<int>)
    ensures |r| == |s| && forall k :: 0 <= k < |s| ==> r[k] == s[k].score
  {
    seq(|s|, k requires 0 <= k < |s| => s[k].score)
  }

  lemma ScoresConcat(x: seq<Team>, y: seq<Team>)
    ensures Scores(x + y) == Scores(x) + Scores(y)
  {
  }

  /** Dropping the element at `j` removes one occurrence of it. */
  lemma RemoveAt<T>(s: seq<T>, j: nat)
    requires j < |s|
    ensures multiset(s[..j] + s[j + 1..]) == multiset(s) - multiset{s[j]}
  {
    assert s == s[..j] + [s[j]] + s[j + 1..];
  }

  /** Dropping the head removes one occurrence of it. */
  lemma DropHead<T>(s: seq<T>)
    requires s != []
    ensures multiset(s[1..]) == multiset(s) - multiset{s[0]}
  {
    assert s == [s[0]] + s[1..];
  }

  /** Dropping the team at `j` drops one occurrence of its score. */
  lemma ScoresRemoveAt(b: seq<Team>, j: nat)
    requires j < |b|
    ensures multiset(Scores(b)) == multiset(Scores(b[..j] + b[j + 1..])) + multiset{b[j].score}
  {
    var pre, post := b[..j], b[j + 1..];
    assert b == pre + [b[j]] + post;
    ScoresConcat(pre + [b[j]], post);
    ScoresConcat(pre, [b[j]]);
    ScoresConcat(pre, post);
  }

  /** A value held in a sequence has an index. */
  lemma IndexOf<T>(s: seq<T>, x: T) returns (j: nat)
    requires x in multiset(s)
    ensures j < |s| && s[j] == x
  {
    assert x in s;
    j :| 0 <= j < |s| && s[j] == x;
  }

  /** Removing the same team from two rearrangements of each other leaves rearrangements. */
  lemma RemoveMatching(a: seq<Team>, b: seq<Team>, j: nat)
    requires a != [] && j < |b| && b[j] == a[0] && multiset(a) == multiset(b)
    ensures multiset(a[1..]) == multiset(b[..j] + b[j + 1..])
  {
    RemoveAt(b, j);
    DropHead(a);
  }

  /** The scores of a list are its head's score and the scores of its tail. */
  lemma ScoresHead(a: seq<Team>)
    requires a != []
    ensures multiset(Scores(a)) == multiset(Scores(a[1..])) + multiset{a[0].score}
  {
    ScoresRemoveAt(a, 0);
    assert a[..0] + a[1..] == a[1..];
  }

  /** Rearranging teams rearranges their scores. */
  lemma {:induction false} ScoresMultiset(a: seq<Team>, b: seq<Team>)
    requires multiset(a) == multiset(b)
    ensures multiset(Scores(a)) == multiset(Scores(b))
    decreases |a|
  {
    if a != [] {
      var j := IndexOf(b, a[0]);
      var rest := b[..j] + b[j + 1..];
      RemoveMatching(a, b, j);
      ScoresMultiset(a[1..], rest);
      ScoresHead(a);
      ScoresRemoveAt(b, j);
    }
  }

  predicate Descending(s: seq<int>)
  {
    forall i, j :: 0 <= i < j < |s| ==> s[i] >= s[j]
  }

  /** The head of a descending sequence bounds every value it holds. */
  lemma HeadIsMax(x: seq<int>, v: int)
    requires Descending(x) && v in multiset(x)
    ensures x[0] >= v
  {
    var i :| 0 <= i < |x| && x[i] == v;
  }

  lemma DescendingTail(x: seq<int>)
    requires x != [] && Descending(x)
    ensures Descending(x[1..])
  {
  }

  /** Descending sequences holding the same values start with the same value. */
  lemma HeadsAgree(x: seq<int>, y: seq<int>)
    requires x != [] && y != []
    requires multiset(x) == multiset(y)
    requires Descending(x) && Descending(y)
    ensures x[0] == y[0]
  {
    assert x[0] in multiset(x);
    HeadIsMax(y, x[0]);
    assert y[0] in multiset(y);
    HeadIsMax(x, y[0]);
  }

  /** Removing equal heads from sequences holding the same values leaves tails holding the same values. */
  lemma TailsAgree(x: seq<int>, y: seq<int>)
    requires x != [] && y != []
    requires multiset(x) == multiset(y) && x[0] == y[0]
    ensures multiset(x[1..]) == multiset(y[1..])
  {
    DropHead(x);
    DropHead(y);
  }

  /** Two descending integer sequences holding the same values are equal. */
  lemma {:induction false} DescendingUnique(x: seq<int>, y: seq<int>)
    requires multiset(x) == multiset(y)
    requires Descending(x) && Descending(y)
    ensures x == y
    decreases |x|
  {
    assert |x| == |multiset(x)| == |multiset(y)| == |y|;
    if x != [] {
      HeadsAgree(x, y);
      TailsAgree(x, y);
      DescendingTail(x);
      DescendingTail(y);
      DescendingUnique(x[1..], y[1..]);
      assert x == [x[0]] + x[1..] && y == [y[0]] + y[1..];
    }
  }

  /** Any two score-descending orderings of the same teams list the same scores in
      the same order: the ranking is fixed up to the order of teams with equal scores. */
  lemma RankingUniqueUpToTies(a: seq<Team>, b: seq<Team>)
    requires multiset(a) == multiset(b)
    requires ByScoreDescending(a) && ByScoreDescending(b)
    ensures Scores(a) == Scores(b)
  {
    ScoresMultiset(a, b);
    DescendingUnique(Scores(a), Scores(b));
  }

  /** Scores 5, 10, 1 are ranked 10, 5, 1. */
  lemma SortExample(a: Team, b: Team, c: Team)
    requires a.score == 5 && b.score == 10 && c.score == 1
    ensures SortByScore([a, b, c]) == [b, a, c]
  {
    var one := SortByScore([c]);
    SortStep([c]);
    assert one == [c];
    var two := SortByScore([b, c]);
    SortStep([b, c]);
    InsertFront(b, [c]);
    assert two == [b, c];
    SortStep([a, b, c]);
    InsertPast(a, [b, c]);
    InsertFront(a, [c]);
  }

  /** Ranking a non-empty list inserts its head into the ranked tail. */
  lemma SortStep(teams: seq<Team>)
    requires teams != []
    ensures SortByScore(teams) == Insert(teams[0], SortByScore(teams[1..]))
  {
  }

  /** A team scoring at least the head of a ranked list goes in front. */
  lemma InsertFront(t: Team, s: seq<Team>)
    requires ByScoreDescending(s) && (s == [] || s[0].score <= t.score)
    ensures Insert(t, s) == [t] + s
  {
  }

  /** A team scoring less than the head of a ranked list goes after it. */
  lemma InsertPast(t: Team, s: seq<Team>)
    requires ByScoreDescending(s) && s != [] && s[0].score > t.score
    ensures ByScoreDescending(s[1..])
    ensures Insert(t, s) == [s[0]] + Insert(t, s[1..])
  {
    HeadBoundsTail(s);
  }
}
