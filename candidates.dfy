/** The candidate gallery: a position filter (or all positions), the count
    of what is shown, and the detail modal of one candidate. */
module CandidatesList {
  import opened Domain

  datatype PositionFilter = All | Only(position: Position)

  /** The candidates shown under a filter. */
  function Filtered(cs: seq<Candidate>, f: PositionFilter): (r: seq<Candidate>)
    ensures f.All? ==> r == cs
    ensures f.Only? ==> forall c :: c in r ==> c.position == f.position
    ensures forall c :: c in r <==> c in cs && (f.All? || c.position == f.position)
  {
    match f
    case All => cs
    case Only(p) => OfPosition(cs, p)
  }

  /** The filter keeps list order and drops no candidate that matches:
      every candidate of the position appears as often as in the list. */
  lemma FilteredIsOrderedRecall(cs: seq<Candidate>, f: PositionFilter, c: Candidate)
    ensures IsSubsequence(Filtered(cs, f), cs)
    ensures f.Only? && c.position == f.position ==> multiset(Filtered(cs, f))[c] == multiset(cs)[c]
  {
    match f {
      case All =>
        SubsequenceReflexive(cs);
      case Only(p) =>
        OfPositionSubsequence(cs, p);
        OfPositionCount(cs, p, c);
    }
  }

  lemma {:induction false} SubsequenceReflexive(s: seq<Candidate>)
    ensures IsSubsequence(s, s)
  {
    if s != [] {
      SubsequenceReflexive(s[1..]);
    }
  }

  /** The "total candidates" figure. */
  function DisplayedCount(cs: seq<Candidate>, f: PositionFilter): (n: nat)
    ensures n <= |cs|
    ensures f.All? ==> n == |cs|
    ensures n == 0 <==> forall c :: c in cs ==> !(f.All? || c.position == f.position)
  {
    var r := Filtered(cs, f);
    assert r != [] ==> r[0] in r;
    |r|
  }

  /** The screen's two pieces of state: the filter and the candidate whose
      details are open. */
  datatype View = View(filter: PositionFilter, selected: Option<Candidate>)

  const InitialView := View(All, None)

  predicate ModalVisible(v: View)
  {
    v.selected.Some?
  }

  /** Tapping a card opens its details. */
  function OpenDetails(v: View, c: Candidate): (r: View)
    ensures ModalVisible(r) && r.selected.value == c && r.filter == v.filter
  {
    v.(selected := Some(c))
  }

  /** Every close action (back, the cross, the close button). */
  function CloseDetails(v: View): (r: View)
    ensures !ModalVisible(r) && r.filter == v.filter
  {
    v.(selected := None)
  }

  /** Tapping a filter chip. */
  function ChooseFilter(v: View, f: PositionFilter): (r: View)
    ensures r.filter == f && r.selected == v.selected
  {
    v.(filter := f)
  }

  /** Opening and then closing returns to the closed view; the modal is
      visible after the open and hidden again after the close. */
  lemma OpenCloseRoundTrip(v: View, c: Candidate)
    requires !ModalVisible(v)
    ensures ModalVisible(OpenDetails(v, c))
    ensures !ModalVisible(CloseDetails(OpenDetails(v, c)))
    ensures CloseDetails(OpenDetails(v, c)) == v
  {
  }
}
