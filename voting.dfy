/** The ballot screen: one tab per position, a selection per position, the
    cast button that votes directly for an already verified voter or first
    opens the ID-card scanner, and the scanner's success and close
    callbacks. The collaborator's `castVote`, `isIdVerified` and
    `verifyStudentId` are not part of this model: each method receives the
    answer the collaborator gives, and a ghost log records every `castVote`
    call the screen makes. */
module Voting {
  import opened Domain
  import opened Storage

  /** What `castVote` did: resolved true, resolved false, or threw. */
  datatype VoteOutcome = Cast | Refused | Threw

  /** A vote waiting for the scanner's verification. */
  datatype PendingVote = PendingVote(candidateId: string, position: Position)

  /** The tab shown after a successful vote on tab `i` of `n`: the next one,
      or the same one when `i` is the last. */
  function NextIndex(i: nat, n: nat): (r: nat)
    requires i < n
    ensures r < n
    ensures r == i + 1 || (r == i && i == n - 1)
    ensures r == i <==> i == n - 1
  {
    if i < n - 1 then i + 1 else i
  }

  /** The selection the cast button acts on: `selectedCandidates.get(p)`
      counts only when present and non-empty. */
  function SelectionFor(selected: map<Position, string>, p: Position): (r: Option<string>)
    ensures r.Some? <==> p in selected && selected[p] != ""
    ensures r.Some? ==> r.value == selected[p]
  {
    if p in selected && selected[p] != "" then Some(selected[p]) else None
  }

  /** `data.votedPositions || []` for a stored ballot record. */
  function StoredPositions(rec: VoterRecord): (r: seq<Position>)
    ensures rec.votedPositions.Some? ==> r == rec.votedPositions.value
    ensures rec.votedPositions.None? ==> r == []
  {
    match rec.votedPositions
    case Some(ps) => ps
    case None => []
  }

  class VotingScreen {
    const positions: seq<Position>
    const user: Option<User>
    var selected: map<Position, string>
    var votedPositions: seq<Position>
    var currentIndex: nat
    var isVoting: bool
    var showScanner: bool
    var pendingVote: Option<PendingVote>
    /** Every `castVote(candidateId, position)` call made so far. */
    ghost var castLog: seq<PendingVote>

    /** The current tab exists, and between handlers no vote is in flight
        (each handler runs to completion in this model). */
    predicate Valid()
      reads this
    {
      currentIndex < |positions| && !isVoting
    }

    function CurrentPosition(): Position
      reads this
      requires Valid()
    {
      positions[currentIndex]
    }

    predicate HasVotedForCurrent()
      reads this
      requires Valid()
    {
      CurrentPosition() in votedPositions
    }

    /** The screen opens on the first tab with nothing selected or voted.
        An empty position list has no first tab. */
    constructor (ps: seq<Position>, u: Option<User>)
      requires |ps| > 0
      ensures Valid()
      ensures positions == ps && user == u
      ensures selected == map[] && votedPositions == [] && currentIndex == 0
      ensures !isVoting && !showScanner && pendingVote == None && castLog == []
    {
      positions := ps;
      user := u;
      selected := map[];
      votedPositions := [];
      currentIndex := 0;
      isVoting := false;
      showScanner := false;
      pendingVote := None;
      castLog := [];
    }

    /** `loadVotedPositions`: a signed-in voter's stored record replaces the
        voted positions; without a user or a record nothing changes. */
    method LoadVotedPositions(store: Store)
      modifies this`votedPositions
      ensures user.Some? && VoterKey(user.value.studentId) in store.voterRecords ==>
        votedPositions == StoredPositions(store.voterRecords[VoterKey(user.value.studentId)])
      ensures !(user.Some? && VoterKey(user.value.studentId) in store.voterRecords) ==>
        votedPositions == old(votedPositions)
    {
      if user.Some? {
        var key := VoterKey(user.value.studentId);
        if key in store.voterRecords {
          votedPositions := StoredPositions(store.voterRecords[key]);
        }
      }
    }

    /** `handleSelectCandidate`: a no-op on a position already voted for;
        otherwise only the current position's selection changes. */
    method SelectCandidate(candidateId: string)
      requires Valid()
      modifies this`selected
      ensures Valid()
      ensures old(HasVotedForCurrent()) ==> selected == old(selected)
      ensures !old(HasVotedForCurrent()) ==> selected == old(selected)[CurrentPosition() := candidateId]
      ensures forall p :: p != CurrentPosition() ==>
        (p in selected <==> p in old(selected)) && (p in selected ==> selected[p] == old(selected)[p])
    {
      if !HasVotedForCurrent() {
        selected := selected[CurrentPosition() := candidateId];
      }
    }

    /** A tab press. */
    method SelectPosition(index: nat)
      requires Valid() && index < |positions|
      modifies this`currentIndex
      ensures Valid() && currentIndex == index
    {
      currentIndex := index;
    }

    /** `proceedWithVoting`: one `castVote` call; on success the position is
        recorded and the screen moves to the next tab when there is one; on
        a refusal or an error neither changes. The in-flight flag is down
        once it returns. */
    method ProceedWithVoting(candidateId: string, position: Position, outcome: VoteOutcome)
      requires Valid()
      modifies this`votedPositions, this`currentIndex, this`isVoting, this`castLog
      ensures Valid() && !isVoting
      ensures castLog == old(castLog) + [PendingVote(candidateId, position)]
      ensures outcome == Cast ==> (votedPositions == old(votedPositions) + [position]
        && currentIndex == NextIndex(old(currentIndex), |positions|))
      ensures outcome != Cast ==> votedPositions == old(votedPositions) && currentIndex == old(currentIndex)
    {
      isVoting := true;
      castLog := castLog + [PendingVote(candidateId, position)];
      if outcome == Cast {
        votedPositions := votedPositions + [position];
        if currentIndex < |positions| - 1 {
          currentIndex := currentIndex + 1;
        }
      }
      isVoting := false;
    }

    /** `handleCastVote`, with `idVerified` standing for `isIdVerified` and
        `outcome` for the `castVote` answer. Without a selection or a user
        nothing changes; a verified voter votes for the selection at once;
        otherwise the vote is parked and the scanner opens, with no
        `castVote` call. */
    method CastVote(idVerified: bool, outcome: VoteOutcome)
      requires Valid()
      modifies this`votedPositions, this`currentIndex, this`isVoting, this`castLog,
        this`pendingVote, this`showScanner
      ensures Valid() && !isVoting && selected == old(selected)
      ensures old(SelectionFor(selected, CurrentPosition())).None? || user.None? ==>
        castLog == old(castLog) && votedPositions == old(votedPositions)
        && currentIndex == old(currentIndex) && pendingVote == old(pendingVote)
        && showScanner == old(showScanner)
      ensures old(SelectionFor(selected, CurrentPosition())).Some? && user.Some? && idVerified ==>
        castLog == old(castLog) + [PendingVote(old(SelectionFor(selected, CurrentPosition())).value, old(CurrentPosition()))]
        && pendingVote == old(pendingVote) && showScanner == old(showScanner)
        && (outcome == Cast ==> (votedPositions == old(votedPositions) + [old(CurrentPosition())]
            && currentIndex == NextIndex(old(currentIndex), |positions|)))
        && (outcome != Cast ==> votedPositions == old(votedPositions) && currentIndex == old(currentIndex))
      ensures old(SelectionFor(selected, CurrentPosition())).Some? && user.Some? && !idVerified ==>
        castLog == old(castLog) && votedPositions == old(votedPositions)
        && currentIndex == old(currentIndex)
        && pendingVote == Some(PendingVote(old(SelectionFor(selected, CurrentPosition())).value, old(CurrentPosition())))
        && showScanner
    {
      var selectedId := SelectionFor(selected, CurrentPosition());
      if selectedId.None? {
        return;
      }
      if user.None? {
        return;
      }
      if idVerified {
        ProceedWithVoting(selectedId.value, CurrentPosition(), outcome);
      } else {
        pendingVote := Some(PendingVote(selectedId.value, CurrentPosition()));
        showScanner := true;
      }
    }

    /** `handleScanSuccess`, with `verified` standing for the answer of
        `verifyStudentId` (false also covers a thrown error). Without a user
        or a parked vote nothing happens; a verified scan casts exactly the
        parked vote and clears it; an unverified one keeps it. */
    method HandleScanSuccess(verified: bool, outcome: VoteOutcome)
      requires Valid()
      modifies this`votedPositions, this`currentIndex, this`isVoting, this`castLog, this`pendingVote
      ensures Valid() && !isVoting
      ensures old(user.None? || pendingVote.None?) || !verified ==>
        castLog == old(castLog) && votedPositions == old(votedPositions)
        && currentIndex == old(currentIndex) && pendingVote == old(pendingVote)
      ensures old(user.Some? && pendingVote.Some?) && verified ==>
        castLog == old(castLog) + [old(pendingVote).value] && pendingVote == None
      ensures old(user.Some? && pendingVote.Some?) && verified && outcome == Cast ==>
        votedPositions == old(votedPositions) + [old(pendingVote).value.position]
        && currentIndex == NextIndex(old(currentIndex), |positions|)
      ensures old(user.Some? && pendingVote.Some?) && verified && outcome != Cast ==>
        votedPositions == old(votedPositions) && currentIndex == old(currentIndex)
    {
      if user.None? || pendingVote.None? {
        return;
      }
      if verified {
        var pv := pendingVote.value;
        ProceedWithVoting(pv.candidateId, pv.position, outcome);
        pendingVote := None;
      }
    }

    /** The scanner's close callback: hide it and drop any parked vote,
        casting nothing. */
    method CloseScanner()
      modifies this`showScanner, this`pendingVote
      ensures !showScanner && pendingVote == None
    {
      showScanner := false;
      pendingVote := None;
    }
  }
}
