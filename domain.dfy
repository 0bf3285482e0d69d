/** The election's data model: candidates, the election state singleton,
    voters' ballot records and the user record the login collaborator
    supplies, together with the sequence helpers every screen shares
    (the per-position filter, the vote sum, subsequences). */
module Domain {

  datatype Option<+T> = None | Some(value: T)

  /** A position identifier, such as "VP". */
  type Position = string

  datatype Candidate = Candidate(
    id: string,
    name: string,
    studentId: string,
    position: Position,
    department: string,
    session: string,
    manifesto: string,
    symbol: string,
    votes: nat)

  datatype ElectionState = ElectionState(isActive: bool, votedCount: nat, totalVoters: nat)

  /** The stored `voter_<studentId>` record; its `votedPositions` field may be missing. */
  datatype VoterRecord = VoterRecord(votedPositions: Option<seq<Position>>)

  datatype User = User(studentId: string, name: string, department: string, isAdmin: bool)

  /** `candidates.filter(c => c.position === p)`. */
  function OfPosition(cs: seq<Candidate>, p: Position): (r: seq<Candidate>)
    ensures |r| <= |cs|
    ensures forall c :: c in r ==> c in cs && c.position == p
    ensures forall c :: c in cs && c.position == p ==> c in r
  {
    if cs == [] then []
    else (if cs[0].position == p then [cs[0]] else []) + OfPosition(cs[1..], p)
  }

  /** `reduce((sum, c) => sum + c.votes, 0)`. */
  function Sum(cs: seq<Candidate>): nat
  {
    if cs == [] then 0 else cs[0].votes + Sum(cs[1..])
  }

  /** `sub` is `s` with some elements dropped and the rest kept in order. */
  predicate IsSubsequence<T(==)>(sub: seq<T>, s: seq<T>)
    decreases |s|
  {
    if sub == [] then true
    else if s == [] then false
    else if sub[0] == s[0] then IsSubsequence(sub[1..], s[1..])
    else IsSubsequence(sub, s[1..])
  }

  lemma {:induction false} OfPositionAppend(a: seq<Candidate>, b: seq<Candidate>, p: Position)
    ensures OfPosition(a + b, p) == OfPosition(a, p) + OfPosition(b, p)
  {
    if a == [] {
      assert a + b == b;
    } else {
      assert (a + b)[0] == a[0] && (a + b)[1..] == a[1..] + b;
      OfPositionAppend(a[1..], b, p);
    }
  }

  /** The filter keeps exactly the candidates of `p`, with their multiplicities. */
  lemma {:induction false} OfPositionCount(cs: seq<Candidate>, p: Position, c: Candidate)
    ensures multiset(OfPosition(cs, p))[c] == if c.position == p then multiset(cs)[c] else 0
  {
    if cs != [] {
      OfPositionCount(cs[1..], p, c);
      assert cs == [cs[0]] + cs[1..];
      ConsCount(cs[0], cs[1..], c);
      if cs[0].position == p {
        assert OfPosition(cs, p) == [cs[0]] + OfPosition(cs[1..], p);
        ConsCount(cs[0], OfPosition(cs[1..], p), c);
      } else {
        assert OfPosition(cs, p) == OfPosition(cs[1..], p);
      }
    }
  }

  lemma ConsCount<T>(x: T, s: seq<T>, c: T)
    ensures multiset([x] + s)[c] == (if x == c then 1 else 0) + multiset(s)[c]
  {
    assert multiset([x] + s) == multiset{x} + multiset(s);
  }

  /** The filter keeps input order. */
  lemma {:induction false} OfPositionSubsequence(cs: seq<Candidate>, p: Position)
    ensures IsSubsequence(OfPosition(cs, p), cs)
  {
    if cs != [] {
      OfPositionSubsequence(cs[1..], p);
      if cs[0].position == p {
        assert OfPosition(cs, p) == [cs[0]] + OfPosition(cs[1..], p);
        assert OfPosition(cs, p)[1..] == OfPosition(cs[1..], p);
      } else {
        assert OfPosition(cs, p) == OfPosition(cs[1..], p);
        SubsequenceOfTail(OfPosition(cs, p), cs);
      }
    }
  }

  lemma {:induction false} SubsequenceOfTail<T>(sub: seq<T>, s: seq<T>)
    requires s != [] && IsSubsequence(sub, s[1..])
    ensures IsSubsequence(sub, s)
    decreases |s|, 0
  {
    if sub != [] && sub[0] == s[0] {
      // IsSubsequence(sub, s[1..]) also gives IsSubsequence(sub[1..], s[1..])
      SubsequenceDropHead(sub, s[1..]);
    }
  }

  lemma {:induction false} SubsequenceDropHead<T>(sub: seq<T>, s: seq<T>)
    requires sub != [] && IsSubsequence(sub, s)
    ensures IsSubsequence(sub[1..], s)
    decreases |s|, 1
  {
    if sub[0] == s[0] {
      if sub[1..] != [] {
        SubsequenceOfTail(sub[1..], s);
      }
    } else {
      SubsequenceDropHead(sub, s[1..]);
      if sub[1..] != [] {
        SubsequenceOfTail(sub[1..], s);
      }
    }
  }

  lemma {:induction false} SumAppend(a: seq<Candidate>, b: seq<Candidate>)
    ensures Sum(a + b) == Sum(a) + Sum(b)
  {
    if a == [] {
      assert a + b == b;
    } else {
      assert (a + b)[0] == a[0] && (a + b)[1..] == a[1..] + b;
      SumAppend(a[1..], b);
    }
  }

  /** Every candidate's votes are bounded by the sum of the list it is in. */
  lemma {:induction false} VotesAtMostSum(cs: seq<Candidate>, c: Candidate)
    requires c in cs
    ensures c.votes <= Sum(cs)
  {
    if cs[0] != c {
      VotesAtMostSum(cs[1..], c);
    }
  }

  /** A sum of naturals is positive exactly when some term is. */
  lemma {:induction false} SumPositiveIff(cs: seq<Candidate>)
    ensures Sum(cs) > 0 <==> exists c :: c in cs && c.votes > 0
  {
    if cs != [] {
      SumPositiveIff(cs[1..]);
      assert forall c :: c in cs <==> c == cs[0] || c in cs[1..];
    }
  }
}
