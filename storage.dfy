/** The persistent key-value store the screens read and write, one field per
    key: `candidates`, `electionState`, the `voter_<studentId>` ballot
    records, `customUsers`, `customPasswords` and `currentUser`. Values are
    kept decoded; serialisation is not part of this model. */
module Storage {
  import opened Domain

  /** The key under which a voter's ballot record is stored. */
  function VoterKey(studentId: string): (k: string)
    ensures |k| == |studentId| + 6 && k[..6] == "voter_" && k[6..] == studentId
  {
    "voter_" + studentId
  }

  /** Distinct students have distinct record keys. */
  lemma VoterKeyInjective(a: string, b: string)
    ensures VoterKey(a) == VoterKey(b) <==> a == b
  {
    if VoterKey(a) == VoterKey(b) {
      assert a == VoterKey(a)[6..];
    }
  }

  class Store {
    var candidates: seq<Candidate>
    var electionState: ElectionState
    /** Ballot records by key, `voter_<studentId>`. */
    var voterRecords: map<string, VoterRecord>
    /** Profile overrides by student id. */
    var customUsers: map<string, User>
    /** Changed passwords by student id. */
    var customPasswords: map<string, string>
    var currentUser: Option<User>

    constructor (cs: seq<Candidate>, st: ElectionState)
      ensures candidates == cs && electionState == st
      ensures voterRecords == map[] && customUsers == map[] && customPasswords == map[]
      ensures currentUser == None
    {
      candidates := cs;
      electionState := st;
      voterRecords := map[];
      customUsers := map[];
      customPasswords := map[];
      currentUser := None;
    }
  }
}
