/** The administrator's panel: the candidate form and its validation, the
    save, vote-reset and election-toggle actions, the live tallies and
    leaders, and the candidate search. */
module Admin {
  import opened Domain
  import opened Text
  import opened Results
  import opened Storage

  // ---------------------------------------------------------------------
  // The candidate form

  /** The seven editable fields of a candidate. */
  datatype CandidateForm = CandidateForm(
    name: string,
    studentId: string,
    position: Position,
    department: string,
    session: string,
    manifesto: string,
    symbol: string)

  /** The blank form: every text field empty, the position preset to "VP". */
  const EmptyForm := CandidateForm("", "", "VP", "", "", "", "")

  /** The form pre-filled from a candidate being edited. */
  function FormOf(c: Candidate): CandidateForm
  {
    CandidateForm(c.name, c.studentId, c.position, c.department, c.session, c.manifesto, c.symbol)
  }

  /** The candidate `c` with its seven form fields replaced by `f`. */
  function WithForm(c: Candidate, f: CandidateForm): Candidate
  {
    c.(name := f.name, studentId := f.studentId, position := f.position, department := f.department,
       session := f.session, manifesto := f.manifesto, symbol := f.symbol)
  }

  /** Editing copies exactly the seven form fields: writing the copied form
      back gives the candidate unchanged, and the form of a rewritten
      candidate is the form written. */
  lemma FormRoundTrip(c: Candidate, f: CandidateForm)
    ensures WithForm(c, FormOf(c)) == c
    ensures FormOf(WithForm(c, f)) == f
    ensures WithForm(c, f).id == c.id && WithForm(c, f).votes == c.votes
  {
  }

  /** The four required fields are non-blank after trimming. */
  predicate FormValid(f: CandidateForm)
  {
    !IsBlank(f.name) && !IsBlank(f.studentId) && !IsBlank(f.department) && !IsBlank(f.symbol)
  }

  /** A form is valid exactly when each of name, student id, department and
      symbol has a non-whitespace character; position, session and
      manifesto play no part. */
  lemma FormValidIff(f: CandidateForm, position: Position, session: string, manifesto: string)
    ensures FormValid(f) <==>
      (exists i :: 0 <= i < |f.name| && !IsSpace(f.name[i]))
      && (exists i :: 0 <= i < |f.studentId| && !IsSpace(f.studentId[i]))
      && (exists i :: 0 <= i < |f.department| && !IsSpace(f.department[i]))
      && (exists i :: 0 <= i < |f.symbol| && !IsSpace(f.symbol[i]))
    ensures FormValid(f) == FormValid(f.(position := position, session := session, manifesto := manifesto))
  {
    BlankIffAllSpace(f.name);
    BlankIffAllSpace(f.studentId);
    BlankIffAllSpace(f.department);
    BlankIffAllSpace(f.symbol);
  }

  /** The collaborator call a save makes. */
  datatype SaveCall = NoCall | UpdateCall(id: string, form: CandidateForm) | AddCall(form: CandidateForm)

  /** Which call the save makes: none for an invalid form, an update of the
      candidate being edited, or an addition. */
  function SaveRequest(f: CandidateForm, editing: Option<Candidate>): (r: SaveCall)
    ensures r.NoCall? <==> !FormValid(f)
    ensures r.UpdateCall? <==> FormValid(f) && editing.Some?
    ensures r.UpdateCall? ==> r.id == editing.value.id && r.form == f
    ensures r.AddCall? ==> r.form == f && editing.None?
  {
    if !FormValid(f) then NoCall
    else if editing.Some? then UpdateCall(editing.value.id, f)
    else AddCall(f)
  }

  /** The blank form cannot be saved: its required fields are empty. */
  lemma EmptyFormNotSavable(editing: Option<Candidate>)
    ensures SaveRequest(EmptyForm, editing) == NoCall
  {
    assert IsBlank(EmptyForm.name);
  }

  // ---------------------------------------------------------------------
  // Vote reset

  /** Every candidate with its tally set to zero. */
  function ZeroVotes(cs: seq<Candidate>): (r: seq<Candidate>)
    ensures |r| == |cs|
    ensures forall i :: 0 <= i < |cs| ==> r[i] == cs[i].(votes := 0)
  {
    if cs == [] then [] else [cs[0].(votes := 0)] + ZeroVotes(cs[1..])
  }

  lemma {:induction false} ZeroVotesPerPosition(cs: seq<Candidate>, p: Position)
    ensures OfPosition(ZeroVotes(cs), p) == ZeroVotes(OfPosition(cs, p))
  {
    if cs != [] {
      ZeroVotesPerPosition(cs[1..], p);
      assert ZeroVotes(cs)[1..] == ZeroVotes(cs[1..]);
      if cs[0].position == p {
        assert OfPosition(cs, p)[1..] == OfPosition(cs[1..], p);
      }
    }
  }

  lemma {:induction false} ZeroVotesSum(cs: seq<Candidate>)
    ensures Sum(ZeroVotes(cs)) == 0
  {
    if cs != [] {
      ZeroVotesSum(cs[1..]);
      assert ZeroVotes(cs)[1..] == ZeroVotes(cs[1..]);
    }
  }

  /** After a reset no position has a vote and no winner or leader is
      shown. */
  lemma ResetClearsTallies(cs: seq<Candidate>, p: Position)
    ensures Sum(ZeroVotes(cs)) == 0
    ensures TotalVotesForPosition(ZeroVotes(cs), p) == 0
    ensures !ShowsWinnerPreview(ZeroVotes(cs), p)
  {
    ZeroVotesSum(cs);
    ZeroVotesPerPosition(cs, p);
    ZeroVotesSum(OfPosition(cs, p));
    WinnerPreviewIff(ZeroVotes(cs), p);
  }

  // ---------------------------------------------------------------------
  // Tallies and leaders

  /** `getTotalVotes`: all candidates' votes together. */
  function TotalVotes(cs: seq<Candidate>): (r: nat)
    ensures forall c :: c in cs ==> c.votes <= r
    ensures r > 0 <==> exists c :: c in cs && c.votes > 0
  {
    SumPositiveIff(cs);
    assert forall c :: c in cs ==> c.votes <= Sum(cs) by {
      forall c | c in cs ensures c.votes <= Sum(cs) {
        VotesAtMostSum(cs, c);
      }
    }
    Sum(cs)
  }

  /** The sum of the position totals over `ps`. */
  function SumOfTotals(cs: seq<Candidate>, ps: seq<Position>): nat
  {
    if ps == [] then 0 else TotalVotesForPosition(cs, ps[0]) + SumOfTotals(cs, ps[1..])
  }

  predicate Distinct(ps: seq<Position>)
  {
    forall i, j :: 0 <= i < j < |ps| ==> ps[i] != ps[j]
  }

  /** With a list of distinct positions that covers every candidate, the
      overall total is the sum of the position totals. */
  lemma {:induction false} TotalIsSumOfPositionTotals(cs: seq<Candidate>, ps: seq<Position>)
    requires Distinct(ps)
    requires forall c :: c in cs ==> c.position in ps
    ensures TotalVotes(cs) == SumOfTotals(cs, ps)
  {
    if cs != [] {
      TotalIsSumOfPositionTotals(cs[1..], ps);
      assert cs == [cs[0]] + cs[1..];
      SumOfTotalsAppend([cs[0]], cs[1..], ps);
      SumOfTotalsSingle(cs[0], ps);
    } else {
      SumOfTotalsEmpty(ps);
    }
  }

  lemma {:induction false} SumOfTotalsEmpty(ps: seq<Position>)
    ensures SumOfTotals([], ps) == 0
  {
    if ps != [] {
      SumOfTotalsEmpty(ps[1..]);
    }
  }

  lemma {:induction false} SumOfTotalsAppend(a: seq<Candidate>, b: seq<Candidate>, ps: seq<Position>)
    ensures SumOfTotals(a + b, ps) == SumOfTotals(a, ps) + SumOfTotals(b, ps)
  {
    if ps != [] {
      SumOfTotalsAppend(a, b, ps[1..]);
      OfPositionAppend(a, b, ps[0]);
      SumAppend(OfPosition(a, ps[0]), OfPosition(b, ps[0]));
    }
  }

  lemma {:induction false} SumOfTotalsSingle(c: Candidate, ps: seq<Position>)
    requires Distinct(ps)
    ensures SumOfTotals([c], ps) == if c.position in ps then c.votes else 0
  {
    if ps != [] {
      DistinctTail(ps);
      SumOfTotalsSingle(c, ps[1..]);
      TotalOfSingle(c, ps[0]);
      assert c.position in ps <==> c.position == ps[0] || c.position in ps[1..] by {
        assert ps == [ps[0]] + ps[1..];
      }
    }
  }

  lemma DistinctTail(ps: seq<Position>)
    requires ps != [] && Distinct(ps)
    ensures Distinct(ps[1..]) && ps[0] !in ps[1..]
  {
    forall i, j | 0 <= i < j < |ps| - 1 ensures ps[1..][i] != ps[1..][j] {
      assert ps[1..][i] == ps[i + 1] && ps[1..][j] == ps[j + 1];
    }
    forall k | 0 <= k < |ps| - 1 ensures ps[1..][k] != ps[0] {
      assert ps[1..][k] == ps[k + 1];
    }
  }

  lemma TotalOfSingle(c: Candidate, p: Position)
    ensures TotalVotesForPosition([c], p) == if c.position == p then c.votes else 0
  {
    assert [c][1..] == [];
    assert OfPosition([c], p) == if c.position == p then [c] else [];
    assert Sum([c]) == c.votes;
  }

  /** `getTopCandidate`: a candidate of `p` with the most votes, absent
      exactly when `p` has no candidate. */
  function TopCandidate(cs: seq<Candidate>, p: Position): (r: Option<Candidate>)
    ensures r.None? <==> forall c :: c in cs ==> c.position != p
    ensures r.Some? ==> (r.value in cs && r.value.position == p
      && forall c :: c in cs && c.position == p ==> c.votes <= r.value.votes)
  {
    WinnerNoneIff(cs, p);
    if Winner(cs, p).Some? then
      WinnerIsMax(cs, p);
      Winner(cs, p)
    else
      None
  }

  /** The live-results card shows a leader only when its top candidate has
      a vote. */
  predicate ShowsLeader(cs: seq<Candidate>, p: Position)
  {
    TopCandidate(cs, p).Some? && TopCandidate(cs, p).value.votes > 0
  }

  /** The leader's share of the position total, rounded to the nearest
      percent and zero-guarded: the same figure the results screen shows. */
  function LeaderPercentage(cs: seq<Candidate>, p: Position): (r: nat)
    requires TopCandidate(cs, p).Some?
    ensures r == Percentage(TopCandidate(cs, p).value.votes, TotalVotesForPosition(cs, p))
    ensures TotalVotesForPosition(cs, p) == 0 ==> r == 0
    ensures r <= 100
  {
    var top := TopCandidate(cs, p).value;
    var total := TotalVotesForPosition(cs, p);
    assert top.votes <= total by {
      VotesAtMostSum(OfPosition(cs, p), top);
    }
    PercentageAtMost100(top.votes, total);
    Percentage(top.votes, total)
  }

  /** A leader is shown exactly when the position has received a vote. */
  lemma ShowsLeaderIff(cs: seq<Candidate>, p: Position)
    ensures ShowsLeader(cs, p) <==> TotalVotesForPosition(cs, p) > 0
  {
    WinnerPreviewIff(cs, p);
  }

  // ---------------------------------------------------------------------
  // Search

  /** Name or department contains the query ignoring case, or the student
      id contains it exactly. */
  predicate MatchesQuery(c: Candidate, q: string)
  {
    Includes(ToLower(c.name), ToLower(q)) || Includes(c.studentId, q)
      || Includes(ToLower(c.department), ToLower(q))
  }

  /** The candidate list narrowed by the search box, in list order. */
  function SearchFilter(cs: seq<Candidate>, q: string): (r: seq<Candidate>)
    ensures |r| <= |cs|
    ensures forall c :: c in r <==> c in cs && MatchesQuery(c, q)
  {
    if cs == [] then []
    else (if MatchesQuery(cs[0], q) then [cs[0]] else []) + SearchFilter(cs[1..], q)
  }

  lemma {:induction false} SearchFilterSubsequence(cs: seq<Candidate>, q: string)
    ensures IsSubsequence(SearchFilter(cs, q), cs)
  {
    if cs != [] {
      SearchFilterSubsequence(cs[1..], q);
      if MatchesQuery(cs[0], q) {
        assert SearchFilter(cs, q)[1..] == SearchFilter(cs[1..], q);
      } else {
        assert SearchFilter(cs, q) == SearchFilter(cs[1..], q);
        SubsequenceOfTail(SearchFilter(cs, q), cs);
      }
    }
  }

  /** The search keeps every matching candidate with its multiplicity and
      drops every other one. */
  lemma {:induction false} SearchFilterCount(cs: seq<Candidate>, q: string, c: Candidate)
    ensures multiset(SearchFilter(cs, q))[c] == if MatchesQuery(c, q) then multiset(cs)[c] else 0
  {
    if cs != [] {
      SearchFilterCount(cs[1..], q, c);
      assert cs == [cs[0]] + cs[1..];
      ConsCount(cs[0], cs[1..], c);
      if MatchesQuery(cs[0], q) {
        assert SearchFilter(cs, q) == [cs[0]] + SearchFilter(cs[1..], q);
        ConsCount(cs[0], SearchFilter(cs[1..], q), c);
      } else {
        assert SearchFilter(cs, q) == SearchFilter(cs[1..], q);
      }
    }
  }

  /** The empty query keeps every candidate, in order. */
  lemma {:induction false} SearchEmptyQuery(cs: seq<Candidate>)
    ensures SearchFilter(cs, "") == cs
  {
    if cs != [] {
      IncludesEmpty(ToLower(cs[0].name));
      SearchEmptyQuery(cs[1..]);
      assert cs == [cs[0]] + cs[1..];
    }
  }

  // ---------------------------------------------------------------------
  // The screen's state

  class AdminScreen {
    var isElectionActive: bool
    var showCandidateModal: bool
    var editingCandidate: Option<Candidate>
    var candidateForm: CandidateForm

    /** The switch starts from the election state known when the screen opens. */
    constructor (st: ElectionState)
      ensures isElectionActive == st.isActive && !showCandidateModal
      ensures editingCandidate == None && candidateForm == EmptyForm
    {
      isElectionActive := st.isActive;
      showCandidateModal := false;
      editingCandidate := None;
      candidateForm := EmptyForm;
    }

    /** `handleToggleElection`: once confirmed, the switch shows `value` and
        the stored state is the known one with only `isActive` replaced. */
    method ToggleElection(store: Store, known: ElectionState, value: bool, confirmed: bool)
      modifies this`isElectionActive, store`electionState
      ensures confirmed ==> isElectionActive == value && store.electionState == known.(isActive := value)
      ensures !confirmed ==> (isElectionActive == old(isElectionActive)
        && store.electionState == old(store.electionState))
      ensures store.electionState.votedCount == (if confirmed then known else old(store.electionState)).votedCount
      ensures store.electionState.totalVoters == (if confirmed then known else old(store.electionState)).totalVoters
    {
      if confirmed {
        isElectionActive := value;
        store.electionState := known.(isActive := value);
      }
    }

    /** `resetCandidateForm`. */
    method ResetCandidateForm()
      modifies this`candidateForm, this`editingCandidate
      ensures candidateForm == EmptyForm && editingCandidate == None
    {
      candidateForm := EmptyForm;
      editingCandidate := None;
    }

    /** `handleAddCandidate`: a blank form in the opened modal. */
    method AddCandidatePressed()
      modifies this`candidateForm, this`editingCandidate, this`showCandidateModal
      ensures candidateForm == EmptyForm && editingCandidate == None && showCandidateModal
    {
      ResetCandidateForm();
      showCandidateModal := true;
    }

    /** `handleEditCandidate`: the candidate's fields in the opened modal. */
    method EditCandidate(c: Candidate)
      modifies this`candidateForm, this`editingCandidate, this`showCandidateModal
      ensures candidateForm == FormOf(c) && editingCandidate == Some(c) && showCandidateModal
      ensures WithForm(c, candidateForm) == c
    {
      candidateForm := FormOf(c);
      editingCandidate := Some(c);
      showCandidateModal := true;
    }

    /** `handleSaveCandidate`, with `saved` standing for the collaborator's
        answer (false also covers a thrown error). An invalid form makes no
        call; a successful call closes and resets the modal; a failed one
        leaves everything as it was. */
    method SaveCandidate(saved: bool) returns (call: SaveCall)
      modifies this`candidateForm, this`editingCandidate, this`showCandidateModal
      ensures call == SaveRequest(old(candidateForm), old(editingCandidate))
      ensures call.NoCall? <==> !FormValid(old(candidateForm))
      ensures !call.NoCall? && saved ==>
        (!showCandidateModal && candidateForm == EmptyForm && editingCandidate == None)
      ensures call.NoCall? || !saved ==>
        (showCandidateModal == old(showCandidateModal) && candidateForm == old(candidateForm)
         && editingCandidate == old(editingCandidate))
    {
      call := SaveRequest(candidateForm, editingCandidate);
      if !call.NoCall? && saved {
        showCandidateModal := false;
        ResetCandidateForm();
      }
    }

    /** The modal's close and cancel buttons. */
    method CloseCandidateModal()
      modifies this`candidateForm, this`editingCandidate, this`showCandidateModal
      ensures !showCandidateModal && candidateForm == EmptyForm && editingCandidate == None
    {
      showCandidateModal := false;
      ResetCandidateForm();
    }

    /** `handleResetVotes`: once confirmed, the stored candidates are the
        known ones with zero votes and the stored state has `votedCount`
        zero; only those two keys are written, so ballot records, users and
        passwords are untouched. */
    method ResetVotes(store: Store, known: seq<Candidate>, st: ElectionState, confirmed: bool)
      modifies store`candidates, store`electionState
      ensures confirmed ==> (store.candidates == ZeroVotes(known)
        && store.electionState == ElectionState(st.isActive, 0, st.totalVoters))
      ensures !confirmed ==> (store.candidates == old(store.candidates)
        && store.electionState == old(store.electionState))
      ensures store.voterRecords == old(store.voterRecords)
        && store.customUsers == old(store.customUsers)
        && store.customPasswords == old(store.customPasswords)
    {
      if confirmed {
        store.candidates := ZeroVotes(known);
        store.electionState := st.(votedCount := 0);
      }
    }
  }
}
