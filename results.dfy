/** The results screen: each position's candidates ranked by votes
    (a stable sort, so ties keep the order in which candidates are listed),
    the position's total, its winner and each candidate's rounded
    percentage. */
module Results {
  import opened Domain

  // ---------------------------------------------------------------------
  // The stable sort `sort((a, b) => b.votes - a.votes)`

  /** Inserts `x` before the first element that has no more votes than it,
      so `x` stays ahead of the equal-vote candidates listed after it. */
  function Insert(x: Candidate, s: seq<Candidate>): (r: seq<Candidate>)
    ensures |r| == |s| + 1
  {
    if s == [] then [x]
    else if s[0].votes <= x.votes then [x] + s
    else [s[0]] + Insert(x, s[1..])
  }

  function SortByVotes(s: seq<Candidate>): (r: seq<Candidate>)
    ensures |r| == |s|
  {
    if s == [] then [] else Insert(s[0], SortByVotes(s[1..]))
  }

  /** Non-increasing in votes. */
  predicate SortedByVotes(s: seq<Candidate>)
  {
    forall i, j :: 0 <= i < j < |s| ==> s[i].votes >= s[j].votes
  }

  /** The candidates of `s` that have exactly `v` votes, in order. */
  function WithVotes(s: seq<Candidate>, v: nat): seq<Candidate>
  {
    if s == [] then [] else (if s[0].votes == v then [s[0]] else []) + WithVotes(s[1..], v)
  }

  lemma {:induction false} InsertPermutes(x: Candidate, s: seq<Candidate>)
    ensures multiset(Insert(x, s)) == multiset(s) + multiset{x}
  {
    if s == [] {
      assert Insert(x, s) == [x];
    } else if s[0].votes <= x.votes {
      assert Insert(x, s) == [x] + s;
      assert multiset([x] + s) == multiset{x} + multiset(s);
    } else {
      InsertPermutes(x, s[1..]);
      assert Insert(x, s) == [s[0]] + Insert(x, s[1..]);
      assert multiset(Insert(x, s)) == multiset{s[0]} + multiset(Insert(x, s[1..]));
      assert s == [s[0]] + s[1..];
      assert multiset(s) == multiset{s[0]} + multiset(s[1..]);
    }
  }

  lemma {:induction false} InsertSorted(x: Candidate, s: seq<Candidate>)
    requires SortedByVotes(s)
    ensures SortedByVotes(Insert(x, s))
    ensures forall c :: c in Insert(x, s) ==> c == x || c in s
  {
    if s != [] && s[0].votes > x.votes {
      InsertSorted(x, s[1..]);
      var r := Insert(x, s);
      assert r == [s[0]] + Insert(x, s[1..]);
      forall i, j | 0 <= i < j < |r| ensures r[i].votes >= r[j].votes {
        if i == 0 {
          assert r[j] == x || r[j] in s[1..];
        }
      }
    }
  }

  /** `WithVotes` on a list with a known head. */
  lemma WithVotesCons(y: Candidate, s: seq<Candidate>, v: nat)
    ensures WithVotes([y] + s, v) == (if y.votes == v then [y] else []) + WithVotes(s, v)
  {
    assert ([y] + s)[0] == y && ([y] + s)[1..] == s;
  }

  /** Insertion keeps the equal-vote subsequences in order: `x` joins its own
      group at the front. */
  lemma {:induction false} InsertWithVotes(x: Candidate, s: seq<Candidate>, v: nat)
    ensures WithVotes(Insert(x, s), v) == (if x.votes == v then [x] else []) + WithVotes(s, v)
  {
    if s == [] {
      assert Insert(x, s) == [x] + s;
      WithVotesCons(x, s, v);
    } else if s[0].votes <= x.votes {
      assert Insert(x, s) == [x] + s;
      WithVotesCons(x, s, v);
    } else {
      var hx := if x.votes == v then [x] else [];
      var h0 := if s[0].votes == v then [s[0]] else [];
      var rest := WithVotes(s[1..], v);
      InsertWithVotes(x, s[1..], v);
      assert Insert(x, s) == [s[0]] + Insert(x, s[1..]);
      WithVotesCons(s[0], Insert(x, s[1..]), v);
      assert s == [s[0]] + s[1..];
      WithVotesCons(s[0], s[1..], v);
      assert hx == [] || h0 == [];
      assert h0 + (hx + rest) == hx + (h0 + rest);
    }
  }

  /** The sort is a permutation. */
  lemma {:induction false} SortPermutes(s: seq<Candidate>)
    ensures multiset(SortByVotes(s)) == multiset(s)
  {
    if s != [] {
      SortPermutes(s[1..]);
      InsertPermutes(s[0], SortByVotes(s[1..]));
      assert s == [s[0]] + s[1..];
    }
  }

  /** The sort orders by non-increasing votes. */
  lemma {:induction false} SortSorts(s: seq<Candidate>)
    ensures SortedByVotes(SortByVotes(s))
  {
    if s != [] {
      SortSorts(s[1..]);
      InsertSorted(s[0], SortByVotes(s[1..]));
    }
  }

  /** The sort is stable: the candidates with any given vote count appear in
      the order they were listed. */
  lemma {:induction false} SortStable(s: seq<Candidate>, v: nat)
    ensures WithVotes(SortByVotes(s), v) == WithVotes(s, v)
  {
    if s != [] {
      SortStable(s[1..], v);
      InsertWithVotes(s[0], SortByVotes(s[1..]), v);
    }
  }

  lemma {:induction false} WithVotesCount(s: seq<Candidate>, v: nat, c: Candidate)
    ensures multiset(WithVotes(s, v))[c] == if c.votes == v then multiset(s)[c] else 0
  {
    if s != [] {
      WithVotesCount(s[1..], v, c);
      assert s == [s[0]] + s[1..];
    }
  }

  /** Sorted, stable with respect to `s` and of the same length: these three
      facts determine the result, so any stable sort by votes gives it. */
  lemma {:induction false} StableSortUnique(r: seq<Candidate>, s: seq<Candidate>)
    requires SortedByVotes(r) && |r| == |s|
    requires forall v: nat :: WithVotes(r, v) == WithVotes(s, v)
    ensures r == SortByVotes(s)
  {
    var t := SortByVotes(s);
    SortSorts(s);
    forall v: nat ensures WithVotes(t, v) == WithVotes(r, v) {
      SortStable(s, v);
    }
    SortedStableEqual(r, t);
  }

  lemma {:induction false} SortedStableEqual(r: seq<Candidate>, t: seq<Candidate>)
    requires SortedByVotes(r) && SortedByVotes(t) && |r| == |t|
    requires forall v: nat :: WithVotes(r, v) == WithVotes(t, v)
    ensures r == t
  {
    if r != [] {
      var m := r[0].votes;
      // t[0] is in r, so it has at most r's largest vote count, and vice versa
      assert WithVotes(t, t[0].votes)[0] == t[0];
      WithVotesIn(r, t[0].votes);
      WithVotesIn(t, m);
      assert WithVotes(r, m)[0] == r[0];
      assert t[0].votes == m;
      assert r[0] == t[0];
      forall v: nat ensures WithVotes(r[1..], v) == WithVotes(t[1..], v) {
        var head := if r[0].votes == v then [r[0]] else [];
        assert WithVotes(r, v) == head + WithVotes(r[1..], v);
        assert WithVotes(t, v) == head + WithVotes(t[1..], v);
        assert (head + WithVotes(r[1..], v))[|head|..] == WithVotes(r[1..], v);
        assert (head + WithVotes(t[1..], v))[|head|..] == WithVotes(t[1..], v);
      }
      SortedTail(r);
      SortedTail(t);
      SortedStableEqual(r[1..], t[1..]);
      assert r == [r[0]] + r[1..] && t == [t[0]] + t[1..];
    }
  }

  lemma SortedTail(s: seq<Candidate>)
    requires SortedByVotes(s) && s != []
    ensures SortedByVotes(s[1..])
  {
    forall i, j | 0 <= i < j < |s| - 1 ensures s[1..][i].votes >= s[1..][j].votes {
      assert s[1..][i] == s[i + 1] && s[1..][j] == s[j + 1];
    }
  }

  /** The head of a non-empty vote group is an element of the list, with
      those votes, and the first such element. */
  lemma {:induction false} WithVotesIn(s: seq<Candidate>, v: nat)
    requires WithVotes(s, v) != []
    ensures exists k :: (0 <= k < |s| && s[k] == WithVotes(s, v)[0] && s[k].votes == v
      && forall j :: 0 <= j < k ==> s[j].votes != v)
  {
    if s[0].votes != v {
      WithVotesIn(s[1..], v);
      var k :| 0 <= k < |s| - 1 && s[1..][k] == WithVotes(s[1..], v)[0] && s[1..][k].votes == v
        && forall j :: 0 <= j < k ==> s[1..][j].votes != v;
      assert s[k + 1] == s[1..][k];
      forall j | 0 <= j < k + 1 ensures s[j].votes != v {
        if j > 0 {
          assert s[j] == s[1..][j - 1];
        }
      }
    } else {
      assert s[0] == WithVotes(s, v)[0];
    }
  }

  // ---------------------------------------------------------------------
  // The aggregates of one position

  /** `getPositionResults`. */
  function PositionResults(cs: seq<Candidate>, p: Position): seq<Candidate>
  {
    SortByVotes(OfPosition(cs, p))
  }

  /** `getTotalVotesForPosition`. */
  function TotalVotesForPosition(cs: seq<Candidate>, p: Position): nat
  {
    Sum(OfPosition(cs, p))
  }

  /** `getWinner`: the first ranked candidate, or nothing. */
  function Winner(cs: seq<Candidate>, p: Position): Option<Candidate>
  {
    var results := PositionResults(cs, p);
    if |results| > 0 then Some(results[0]) else None
  }

  /** `Math.round(votes / total * 100)` with the zero guard, in integers:
      the nearest whole percentage, halves rounded up. */
  function Percentage(votes: nat, total: nat): (r: nat)
    ensures total == 0 ==> r == 0
    ensures total > 0 ==> (2 * r - 1) * total <= 200 * votes < (2 * r + 1) * total
  {
    if total == 0 then 0 else (200 * votes + total) / (2 * total)
  }

  /** The winner preview appears only for a winner with at least one vote. */
  predicate ShowsWinnerPreview(cs: seq<Candidate>, p: Position)
  {
    Winner(cs, p).Some? && Winner(cs, p).value.votes > 0
  }

  /** One row of the expanded results: rank, candidate and percentage. */
  datatype ResultRow = ResultRow(rank: nat, candidate: Candidate, percentage: nat)

  /** The expanded list: `results.map((candidate, index) => ...)`. */
  function ResultRows(cs: seq<Candidate>, p: Position): (rows: seq<ResultRow>)
    ensures var results := PositionResults(cs, p);
      && |rows| == |results|
      && forall i :: 0 <= i < |rows| ==> rows[i].rank == i + 1 && rows[i].candidate == results[i]
  {
    var results := PositionResults(cs, p);
    var total := TotalVotesForPosition(cs, p);
    seq(|results|, i requires 0 <= i < |results| => ResultRow(i + 1, results[i], Percentage(results[i].votes, total)))
  }

  /** Which position's result list is expanded: tapping a header opens it,
      tapping it again closes it. */
  function ToggleExpanded(expanded: Option<Position>, tapped: Position): (r: Option<Position>)
    ensures r == Some(tapped) <==> expanded != Some(tapped)
    ensures r.Some? ==> r.value == tapped
  {
    if expanded == Some(tapped) then None else Some(tapped)
  }

  // ---------------------------------------------------------------------
  // Properties

  /** The results of `p` are a permutation of exactly the candidates listed
      for `p`. */
  lemma PositionResultsArePositionCandidates(cs: seq<Candidate>, p: Position, c: Candidate)
    ensures multiset(PositionResults(cs, p))[c] == if c.position == p then multiset(cs)[c] else 0
    ensures c in PositionResults(cs, p) <==> c in cs && c.position == p
  {
    SortPermutes(OfPosition(cs, p));
    OfPositionCount(cs, p, c);
  }

  /** The results are ordered by votes, ties in the listed order. */
  lemma PositionResultsOrdered(cs: seq<Candidate>, p: Position, v: nat)
    ensures SortedByVotes(PositionResults(cs, p))
    ensures WithVotes(PositionResults(cs, p), v) == WithVotes(OfPosition(cs, p), v)
  {
    SortSorts(OfPosition(cs, p));
    SortStable(OfPosition(cs, p), v);
  }

  lemma {:induction false} InsertSum(x: Candidate, s: seq<Candidate>)
    ensures Sum(Insert(x, s)) == x.votes + Sum(s)
  {
    if s != [] && s[0].votes > x.votes {
      InsertSum(x, s[1..]);
      assert ([s[0]] + Insert(x, s[1..]))[1..] == Insert(x, s[1..]);
    } else if s != [] {
      assert ([x] + s)[1..] == s;
    }
  }

  lemma {:induction false} SortSum(s: seq<Candidate>)
    ensures Sum(SortByVotes(s)) == Sum(s)
  {
    if s != [] {
      SortSum(s[1..]);
      InsertSum(s[0], SortByVotes(s[1..]));
    }
  }

  /** The position total is the sum over the ranked list. */
  lemma TotalIsSumOfResults(cs: seq<Candidate>, p: Position)
    ensures TotalVotesForPosition(cs, p) == Sum(PositionResults(cs, p))
  {
    SortSum(OfPosition(cs, p));
  }

  /** There is no winner exactly when no candidate stands for `p`. */
  lemma WinnerNoneIff(cs: seq<Candidate>, p: Position)
    ensures Winner(cs, p).None? <==> forall c :: c in cs ==> c.position != p
  {
    if Winner(cs, p).None? {
      assert OfPosition(cs, p) == [];
    } else {
      assert PositionResults(cs, p)[0] in PositionResults(cs, p);
      PositionResultsArePositionCandidates(cs, p, PositionResults(cs, p)[0]);
    }
  }

  /** The winner stands for `p` and has at least the votes of every
      candidate of `p`. */
  lemma WinnerIsMax(cs: seq<Candidate>, p: Position)
    requires Winner(cs, p).Some?
    ensures var w := Winner(cs, p).value;
      && w in cs && w.position == p
      && forall c :: c in cs && c.position == p ==> c.votes <= w.votes
  {
    var results := PositionResults(cs, p);
    var w := results[0];
    PositionResultsArePositionCandidates(cs, p, w);
    SortSorts(OfPosition(cs, p));
    forall c | c in cs && c.position == p ensures c.votes <= w.votes {
      PositionResultsArePositionCandidates(cs, p, c);
      var i :| 0 <= i < |results| && results[i] == c;
    }
  }

  /** The winner is the first listed candidate of `p` with the winning
      vote count: every candidate of `p` listed before it has fewer votes. */
  lemma WinnerIsEarliest(cs: seq<Candidate>, p: Position)
    requires Winner(cs, p).Some?
    ensures var w := Winner(cs, p).value;
      exists k :: 0 <= k < |OfPosition(cs, p)| && OfPosition(cs, p)[k] == w
        && forall j :: 0 <= j < k ==> OfPosition(cs, p)[j].votes < w.votes
  {
    var f := OfPosition(cs, p);
    var w := PositionResults(cs, p)[0];
    WinnerIsMax(cs, p);
    SortStable(f, w.votes);
    assert WithVotes(PositionResults(cs, p), w.votes)[0] == w;
    WithVotesIn(f, w.votes);
    var k :| 0 <= k < |f| && f[k] == WithVotes(f, w.votes)[0] && f[k].votes == w.votes
      && forall j :: 0 <= j < k ==> f[j].votes != w.votes;
    forall j | 0 <= j < k ensures f[j].votes < w.votes {
      assert f[j] in f;
    }
  }

  /** Rank 1 is the winner. */
  lemma RankOneIsWinner(cs: seq<Candidate>, p: Position)
    requires ResultRows(cs, p) != []
    ensures ResultRows(cs, p)[0].rank == 1 && Winner(cs, p) == Some(ResultRows(cs, p)[0].candidate)
  {
  }

  /** Every displayed percentage lies in 0..100. */
  lemma PercentagesBounded(cs: seq<Candidate>, p: Position)
    ensures forall row :: row in ResultRows(cs, p) ==> 0 <= row.percentage <= 100
  {
    var results := PositionResults(cs, p);
    TotalIsSumOfResults(cs, p);
    forall i | 0 <= i < |results| ensures results[i].votes <= TotalVotesForPosition(cs, p) {
      VotesAtMostSum(results, results[i]);
    }
    forall row | row in ResultRows(cs, p) ensures row.percentage <= 100 {
      var i :| 0 <= i < |results| && ResultRows(cs, p)[i] == row;
      PercentageAtMost100(results[i].votes, TotalVotesForPosition(cs, p));
    }
  }

  lemma PercentageAtMost100(votes: nat, total: nat)
    requires votes <= total
    ensures Percentage(votes, total) <= 100
  {
    if total > 0 {
      // 200 * votes + total < 202 * total
      assert 200 * votes + total < 101 * (2 * total);
      DivBelow(200 * votes + total, 2 * total, 101);
    }
  }

  lemma DivBelow(a: nat, d: nat, q: nat)
    requires d > 0 && a < q * d
    ensures a / d < q
  {
  }

  /** The preview is shown exactly when the position has received a vote. */
  lemma WinnerPreviewIff(cs: seq<Candidate>, p: Position)
    ensures ShowsWinnerPreview(cs, p) <==> TotalVotesForPosition(cs, p) > 0
  {
    var f := OfPosition(cs, p);
    SumPositiveIff(f);
    if Winner(cs, p).Some? {
      WinnerIsMax(cs, p);
    } else {
      WinnerNoneIff(cs, p);
    }
  }

  /** A candidate of another position changes nothing about `p`'s results. */
  lemma ResultsIgnoreOtherPositions(a: seq<Candidate>, c: Candidate, b: seq<Candidate>, p: Position)
    requires c.position != p
    ensures PositionResults(a + [c] + b, p) == PositionResults(a + b, p)
    ensures TotalVotesForPosition(a + [c] + b, p) == TotalVotesForPosition(a + b, p)
    ensures Winner(a + [c] + b, p) == Winner(a + b, p)
  {
    OfPositionAppend(a + [c], b, p);
    OfPositionAppend(a, [c], p);
    OfPositionAppend(a, b, p);
    assert OfPosition([c], p) == [] by {
      assert [c][1..] == [];
    }
    assert OfPosition(a + [c], p) == OfPosition(a, p);
    assert OfPosition(a + [c] + b, p) == OfPosition(a + b, p);
  }

  /** Votes 5, 5 and 2 give 42%, 42% and 17%. */
  lemma PercentageExample()
    ensures Percentage(5, 12) == 42 && Percentage(2, 12) == 17
  {
  }
}
