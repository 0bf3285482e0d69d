/** The ID-card scanner component: turning the text decoded from a QR code or
    barcode into a student identifier, comparing it with the logged-in
    voter's identifier on the last nine characters, and the scanner's
    processing guard. */
module IdScanner {
  import opened Domain
  import opened Text

  /** One entry of the pattern list that the extractor tries in order. */
  datatype Pattern =
    | Labelled(tag: string)       // `<label>\s*(\d+)`, case-insensitive; the label is written in lower case
    | DigitRun(min: nat, max: nat)  // `(\d{min,max})`

  /** The four patterns, in the order the extractor tries them. */
  const Patterns: seq<Pattern> := [Labelled("id:"), Labelled("student:"), DigitRun(6, 10), Labelled("sid:")]

  function Min(a: int, b: int): int
  {
    if a <= b then a else b
  }

  /** Under the `i` flag a lower-case ASCII letter also matches its upper-case
      form; every other character matches only itself. */
  predicate MatchesLetter(c: char, l: char)
  {
    c == l || ('a' <= l <= 'z' && c as int == l as int - 32)
  }

  predicate LabelAt(s: string, k: nat, tag: string)
  {
    k + |tag| <= |s| && forall m :: 0 <= m < |tag| ==> MatchesLetter(s[k + m], tag[m])
  }

  /** The end of the whitespace run starting at `j` (`\s*`, greedy). */
  function SkipSpaces(s: string, j: nat): (e: nat)
    requires j <= |s|
    ensures j <= e <= |s|
    ensures forall m :: j <= m < e ==> IsSpace(s[m])
    ensures e == |s| || !IsSpace(s[e])
    decreases |s| - j
  {
    if j < |s| && IsSpace(s[j]) then SkipSpaces(s, j + 1) else j
  }

  /** The end of the digit run starting at `j` (`\d+`, greedy). */
  function RunEnd(s: string, j: nat): (e: nat)
    requires j <= |s|
    ensures j <= e <= |s|
    ensures forall m :: j <= m < e ==> IsDigit(s[m])
    ensures e == |s| || !IsDigit(s[e])
    decreases |s| - j
  {
    if j < |s| && IsDigit(s[j]) then RunEnd(s, j + 1) else j
  }

  /** Where the digits of a labelled match at `k` would start. */
  function DigitsStart(s: string, tag: string, k: nat): nat
    requires k + |tag| <= |s|
  {
    SkipSpaces(s, k + |tag|)
  }

  /** `<label>\s*\d+` matches at position `k`. */
  predicate LabelledAt(s: string, tag: string, k: nat)
  {
    LabelAt(s, k, tag) && DigitsStart(s, tag, k) < |s| && IsDigit(s[DigitsStart(s, tag, k)])
  }

  /** The capture group of a labelled match at `k`. */
  function LabelledDigits(s: string, tag: string, k: nat): (r: string)
    requires LabelledAt(s, tag, k)
    ensures r != [] && AllDigits(r)
  {
    var j := DigitsStart(s, tag, k);
    s[j..RunEnd(s, j)]
  }

  /** The leftmost position at or after `from` where `<label>\s*\d+` matches. */
  function LeftmostLabelled(s: string, tag: string, from: nat): (r: Option<nat>)
    ensures r.Some? ==> from <= r.value && LabelledAt(s, tag, r.value)
    ensures r.Some? ==> forall k :: from <= k < r.value ==> !LabelledAt(s, tag, k)
    ensures r.None? ==> forall k :: from <= k ==> !LabelledAt(s, tag, k)
    decreases |s| - from
  {
    if from >= |s| then None
    else if LabelledAt(s, tag, from) then Some(from)
    else LeftmostLabelled(s, tag, from + 1)
  }

  /** The capture group of the leftmost labelled match at or after `from`. */
  function FindLabelled(s: string, tag: string, from: nat): (r: Option<string>)
    ensures r.Some? ==> r.value != [] && AllDigits(r.value)
  {
    match LeftmostLabelled(s, tag, from)
    case None => None
    case Some(k) => Some(LabelledDigits(s, tag, k))
  }

  /** At least `n` digits start at position `k`. */
  predicate DigitsAt(s: string, k: nat, n: nat)
  {
    k + n <= |s| && forall m :: k <= m < k + n ==> IsDigit(s[m])
  }

  /** The leftmost position at or after `from` where `n` digits start. */
  function FindRun(s: string, n: nat, from: nat): (r: Option<nat>)
    ensures r.Some? ==> from <= r.value && DigitsAt(s, r.value, n)
    ensures r.Some? ==> forall k :: from <= k < r.value ==> !DigitsAt(s, k, n)
    ensures r.None? ==> forall k :: from <= k ==> !DigitsAt(s, k, n)
    decreases |s| - from
  {
    if from + n > |s| then None
    else if DigitsAt(s, from, n) then Some(from)
    else FindRun(s, n, from + 1)
  }

  /** `data.match(pattern)`, giving the capture group of the leftmost match. */
  function MatchPattern(p: Pattern, s: string): Option<string>
  {
    match p
    case Labelled(tag) => FindLabelled(s, tag, 0)
    case DigitRun(min, max) =>
      match FindRun(s, min, 0)
      case None => None
      case Some(k) => Some(s[k..Min(RunEnd(s, k), k + max)])
  }

  /** The loop over the pattern list: the first pattern that matches decides. */
  function FirstMatch(ps: seq<Pattern>, s: string): Option<string>
  {
    if ps == [] then None
    else match MatchPattern(ps[0], s)
      case Some(r) => Some(r)
      case None => FirstMatch(ps[1..], s)
  }

  /** `extractStudentId`: the four patterns in order, then the first digit run,
      then the text itself. */
  function ExtractStudentId(data: string): string
  {
    match FirstMatch(Patterns, data)
    case Some(id) => id
    case None =>
      match FindRun(data, 1, 0)
      case Some(k) => data[k..RunEnd(data, k)]
      case None => data
  }

  // ---------------------------------------------------------------------
  // Properties of the extractor

  lemma DigitsAtRunEnd(s: string, k: nat, n: nat)
    requires k <= |s|
    ensures DigitsAt(s, k, n) <==> RunEnd(s, k) >= k + n
  {
  }

  /** A pattern whose match, when there is one, is a non-empty digit string. */
  predicate WellFormed(p: Pattern)
  {
    match p
    case Labelled(tag) => true
    case DigitRun(min, max) => 1 <= min <= max
  }

  lemma {:induction false} MatchIsDigits(p: Pattern, s: string)
    requires WellFormed(p)
    ensures MatchPattern(p, s).Some? ==> MatchPattern(p, s).value != [] && AllDigits(MatchPattern(p, s).value)
    ensures MatchPattern(p, s).Some? ==> HasDigit(s)
  {
    match p
    case Labelled(tag) =>
      match LeftmostLabelled(s, tag, 0) {
        case None =>
        case Some(k) =>
          assert IsDigit(s[DigitsStart(s, tag, k)]);
      }
    case DigitRun(min, max) =>
      match FindRun(s, min, 0)
      case None =>
      case Some(k) =>
        DigitsAtRunEnd(s, k, min);
        assert IsDigit(s[k]);
  }

  lemma {:induction false} FirstMatchIsDigits(ps: seq<Pattern>, s: string)
    requires forall i :: 0 <= i < |ps| ==> WellFormed(ps[i])
    ensures FirstMatch(ps, s).Some? ==> FirstMatch(ps, s).value != [] && AllDigits(FirstMatch(ps, s).value)
    ensures FirstMatch(ps, s).Some? ==> HasDigit(s)
  {
    if ps != [] {
      MatchIsDigits(ps[0], s);
      FirstMatchIsDigits(ps[1..], s);
    }
  }

  /** Text with a digit in it always yields a non-empty string of digits. */
  lemma ExtractDigits(data: string)
    requires HasDigit(data)
    ensures ExtractStudentId(data) != [] && AllDigits(ExtractStudentId(data))
  {
    FirstMatchIsDigits(Patterns, data);
    if FirstMatch(Patterns, data).None? {
      var i :| 0 <= i < |data| && IsDigit(data[i]);
      assert DigitsAt(data, i, 1);
      var k := FindRun(data, 1, 0).value;
      DigitsAtRunEnd(data, k, 1);
    }
  }

  /** Text without a digit comes back unchanged, so the suffix comparison
      fails on it instead of throwing. */
  lemma ExtractNoDigits(data: string)
    requires !HasDigit(data)
    ensures ExtractStudentId(data) == data
  {
    FirstMatchIsDigits(Patterns, data);
  }

  /** Wherever `SID:\s*\d+` matches, `ID:\s*\d+` matches one character later. */
  lemma SidContainsId(s: string, k: nat)
    requires LabelledAt(s, "sid:", k)
    ensures LabelledAt(s, "id:", k + 1)
  {
    assert DigitsStart(s, "sid:", k) == DigitsStart(s, "id:", k + 1);
    forall m | 0 <= m < 3 ensures MatchesLetter(s[k + 1 + m], "id:"[m]) {
      assert MatchesLetter(s[k + (m + 1)], "sid:"[m + 1]);
    }
  }

  /** The `SID:` pattern never decides: whenever it matches, the `ID:`
      pattern, tried first, matches too, so dropping it changes nothing. */
  lemma SidUnreachable(data: string)
    ensures MatchPattern(Patterns[3], data).Some? ==> MatchPattern(Patterns[0], data).Some?
    ensures FirstMatch(Patterns, data) == FirstMatch(Patterns[..3], data)
  {
    match LeftmostLabelled(data, "sid:", 0) {
      case None =>
      case Some(k) =>
        SidContainsId(data, k);
        assert LeftmostLabelled(data, "id:", 0).Some?;
    }
    FirstMatchUnfolded(data);
    var q := Patterns[..3];
    var q1 := q[1..];
    var q2 := q1[1..];
    assert q2 == [DigitRun(6, 10)] && q2[1..] == [];
    assert FirstMatch(q2, data) == MatchPattern(DigitRun(6, 10), data);
    assert q1[0] == Labelled("student:");
    assert q[0] == Labelled("id:");
  }

  /** The pattern loop over the four patterns, written out. */
  lemma FirstMatchUnfolded(data: string)
    ensures FirstMatch(Patterns, data) ==
      if FindLabelled(data, "id:", 0).Some? then FindLabelled(data, "id:", 0)
      else if FindLabelled(data, "student:", 0).Some? then FindLabelled(data, "student:", 0)
      else if MatchPattern(DigitRun(6, 10), data).Some? then MatchPattern(DigitRun(6, 10), data)
      else FindLabelled(data, "sid:", 0)
  {
    var p1 := Patterns[1..];
    var p2 := p1[1..];
    var p3 := p2[1..];
    assert p3 == [Labelled("sid:")] && p3[1..] == [];
    assert FirstMatch(p3, data) == FindLabelled(data, "sid:", 0);
    assert p2[0] == DigitRun(6, 10);
    assert FirstMatch(p2, data) ==
      if MatchPattern(DigitRun(6, 10), data).Some? then MatchPattern(DigitRun(6, 10), data) else FirstMatch(p3, data);
    assert p1[0] == Labelled("student:");
    assert FirstMatch(p1, data) ==
      if FindLabelled(data, "student:", 0).Some? then FindLabelled(data, "student:", 0) else FirstMatch(p2, data);
  }

  /** The leftmost `ID:` label followed by digits decides. */
  lemma ExtractLabelledId(data: string, k: nat)
    requires LabelledAt(data, "id:", k)
    requires forall m :: 0 <= m < k ==> !LabelledAt(data, "id:", m)
    ensures ExtractStudentId(data) == LabelledDigits(data, "id:", k)
  {
    FindLabelledFirst(data, "id:", 0, k);
    FirstMatchUnfolded(data);
  }

  /** With no `ID:` label followed by digits anywhere, the leftmost `Student:`
      label followed by digits decides. */
  lemma ExtractStudentLabelledId(data: string, k: nat)
    requires forall m :: 0 <= m < |data| ==> !LabelledAt(data, "id:", m)
    requires LabelledAt(data, "student:", k)
    requires forall m :: 0 <= m < k ==> !LabelledAt(data, "student:", m)
    ensures ExtractStudentId(data) == LabelledDigits(data, "student:", k)
  {
    assert FindLabelled(data, "id:", 0).None?;
    FindLabelledFirst(data, "student:", 0, k);
    FirstMatchUnfolded(data);
  }

  lemma FindLabelledFirst(s: string, tag: string, from: nat, k: nat)
    requires from <= k && LabelledAt(s, tag, k)
    requires forall m :: from <= m < k ==> !LabelledAt(s, tag, m)
    ensures FindLabelled(s, tag, from) == Some(LabelledDigits(s, tag, k))
  {
    assert LeftmostLabelled(s, tag, from) == Some(k);
  }

  /** Neither `ID:` nor `Student:` is followed by digits anywhere in the text. */
  predicate Unlabelled(s: string)
  {
    forall k :: 0 <= k < |s| ==> !LabelledAt(s, "id:", k) && !LabelledAt(s, "student:", k)
  }

  lemma UnlabelledNoMatch(s: string)
    requires Unlabelled(s)
    ensures FindLabelled(s, "id:", 0).None? && FindLabelled(s, "student:", 0).None?
  {
  }

  /** In unlabelled text the leftmost place where six digits start decides;
      the run there is returned, cut after ten digits. */
  lemma ExtractUnlabelledRun(data: string, i: nat)
    requires Unlabelled(data)
    requires DigitsAt(data, i, 6)
    requires forall k :: 0 <= k < i ==> !DigitsAt(data, k, 6)
    ensures ExtractStudentId(data) == data[i..Min(RunEnd(data, i), i + 10)]
  {
    UnlabelledNoMatch(data);
    FirstMatchUnfolded(data);
    assert FindRun(data, 6, 0) == Some(i);
  }

  /** A run of six to ten digits, the leftmost run that long, comes back exactly. */
  lemma ExtractExactRun(data: string, i: nat, j: nat)
    requires Unlabelled(data)
    requires i + 6 <= j <= i + 10 && j <= |data|
    requires forall m :: i <= m < j ==> IsDigit(data[m])
    requires j == |data| || !IsDigit(data[j])
    requires forall k :: 0 <= k < i ==> !DigitsAt(data, k, 6)
    ensures ExtractStudentId(data) == data[i..j]
  {
    assert DigitsAt(data, i, 6);
    ExtractUnlabelledRun(data, i);
    RunEndIs(data, i, j);
  }

  /** A longer run yields its first ten digits. */
  lemma ExtractLongRun(data: string, i: nat)
    requires Unlabelled(data)
    requires DigitsAt(data, i, 11)
    requires forall k :: 0 <= k < i ==> !DigitsAt(data, k, 6)
    ensures ExtractStudentId(data) == data[i..i + 10]
  {
    assert DigitsAt(data, i, 6);
    ExtractUnlabelledRun(data, i);
    DigitsAtRunEnd(data, i, 11);
  }

  /** In unlabelled text with no six-digit run, the first digit run of any
      length is returned; it is shorter than six digits. */
  lemma ExtractShortRun(data: string, i: nat)
    requires Unlabelled(data)
    requires forall k :: 0 <= k ==> !DigitsAt(data, k, 6)
    requires i < |data| && IsDigit(data[i])
    requires forall k :: 0 <= k < i ==> !IsDigit(data[k])
    ensures ExtractStudentId(data) == data[i..RunEnd(data, i)]
    ensures |ExtractStudentId(data)| < 6
  {
    UnlabelledNoMatch(data);
    FirstMatchUnfolded(data);
    assert FindRun(data, 6, 0).None?;
    match LeftmostLabelled(data, "sid:", 0) {
      case None =>
      case Some(k) =>
        SidContainsId(data, k);
    }
    forall k | 0 <= k < i ensures !DigitsAt(data, k, 1) {
      assert !IsDigit(data[k]);
    }
    FindRunIs(data, 1, i);
    DigitsAtRunEnd(data, i, 6);
  }

  /** The leftmost place where `n` digits start is what the search finds. */
  lemma FindRunIs(s: string, n: nat, k: nat)
    requires DigitsAt(s, k, n)
    requires forall j :: 0 <= j < k ==> !DigitsAt(s, j, n)
    ensures FindRun(s, n, 0) == Some(k)
  {
  }

  lemma RunEndIs(s: string, i: nat, j: nat)
    requires i <= j <= |s|
    requires forall m :: i <= m < j ==> IsDigit(s[m])
    requires j == |s| || !IsDigit(s[j])
    ensures RunEnd(s, i) == j
    decreases j - i
  {
    if i < j {
      RunEndIs(s, i + 1, j);
    }
  }

  // ---------------------------------------------------------------------
  // The suffix comparison

  /** `s.slice(-9)`: the last nine characters, or all of a shorter string. */
  function Last9(s: string): (r: string)
    ensures |r| == Min(|s|, 9)
    ensures r == s[|s| - |r|..]
  {
    if |s| <= 9 then s else s[|s| - 9..]
  }

  /** `scannedLast9 === expectedLast9`. */
  predicate SuffixMatch(scanned: string, expected: string)
  {
    Last9(scanned) == Last9(expected)
  }

  /** Two identifiers match exactly when both have at least nine characters
      and agree on the last nine, or both are shorter and equal. */
  lemma SuffixMatchIff(a: string, b: string)
    ensures SuffixMatch(a, b) <==>
      (|a| >= 9 && |b| >= 9 && a[|a| - 9..] == b[|b| - 9..]) || (|a| < 9 && a == b)
  {
    if SuffixMatch(a, b) {
      assert |Last9(a)| == |Last9(b)|;
    }
  }

  lemma SuffixMatchSymmetric(a: string, b: string)
    ensures SuffixMatch(a, b) <==> SuffixMatch(b, a)
  {
  }

  /** Whatever precedes the last nine characters is ignored. */
  lemma SuffixMatchIgnoresPrefix(p: string, a: string, q: string, b: string)
    requires |a| >= 9 && |b| >= 9
    ensures SuffixMatch(p + a, q + b) <==> SuffixMatch(a, b)
  {
    assert (p + a)[|p + a| - 9..] == a[|a| - 9..];
    assert (q + b)[|q + b| - 9..] == b[|b| - 9..];
  }

  // ---------------------------------------------------------------------
  // The scanner component's state

  /** The alert shown after the timer: success offers "vote", mismatch "retry". */
  datatype Verdict = Accepted(id: string) | Rejected(id: string)

  class Scanner {
    const expectedId: string
    var scannedText: string
    var isProcessing: bool
    /** The identifier waiting for the one-second timer, if it is armed. */
    var pendingCheck: Option<string>
    /** The alert waiting for the operator's tap, if one is shown. */
    var alert: Option<Verdict>

    constructor(expectedId: string)
      ensures this.expectedId == expectedId
      ensures scannedText == [] && !isProcessing && pendingCheck == None && alert == None
    {
      this.expectedId := expectedId;
      scannedText := [];
      isProcessing := false;
      pendingCheck := None;
      alert := None;
    }

    /** The camera reports a code. The handler is attached only while
        `scannedText` is empty, and it ignores codes while processing. */
    method OnBarcodeScanned(data: string)
      modifies this
      ensures old(scannedText) != [] || old(isProcessing) ==>
        scannedText == old(scannedText) && isProcessing == old(isProcessing)
        && pendingCheck == old(pendingCheck) && alert == old(alert)
      ensures old(scannedText) == [] && !old(isProcessing) ==>
        isProcessing && scannedText == ExtractStudentId(data)
        && pendingCheck == Some(ExtractStudentId(data)) && alert == old(alert)
    {
      if scannedText == [] {
        HandleBarCodeScanned(data);
      }
    }

    /** `handleBarCodeScanned` up to arming the timer. */
    method HandleBarCodeScanned(data: string)
      modifies this
      ensures old(isProcessing) ==>
        scannedText == old(scannedText) && isProcessing && pendingCheck == old(pendingCheck) && alert == old(alert)
      ensures !old(isProcessing) ==>
        isProcessing && scannedText == ExtractStudentId(data)
        && pendingCheck == Some(ExtractStudentId(data)) && alert == old(alert)
    {
      if isProcessing {
        return;
      }
      isProcessing := true;
      var extracted := ExtractStudentId(data);
      scannedText := extracted;
      pendingCheck := Some(extracted);
    }

    /** The timer callback: `verifyScannedId` on the extracted identifier,
        then processing ends. */
    method TimerFires()
      modifies this
      ensures old(pendingCheck).None? ==>
        scannedText == old(scannedText) && isProcessing == old(isProcessing)
        && pendingCheck == None && alert == old(alert)
      ensures old(pendingCheck).Some? ==>
        var id := old(pendingCheck).value;
        && !isProcessing && pendingCheck == None && scannedText == old(scannedText)
        && alert == Some(if SuffixMatch(id, expectedId) then Accepted(id) else Rejected(id))
    {
      match pendingCheck
      case None =>
      case Some(id) =>
        alert := Some(if SuffixMatch(id, expectedId) then Accepted(id) else Rejected(id));
        isProcessing := false;
        pendingCheck := None;
    }

    /** The operator taps the alert's button. On a match the parent's
        `onScanSuccess` receives the identifier and `onClose` is called; on a
        mismatch `scannedText` is cleared, which re-attaches the handler. */
    method DismissAlert() returns (delivered: Option<string>, closeRequested: bool)
      modifies this
      ensures old(alert).None? ==>
        delivered == None && !closeRequested && scannedText == old(scannedText) && alert == None
      ensures (old(alert).Some? && old(alert).value.Accepted?) ==>
        delivered == Some(old(alert).value.id) && closeRequested && scannedText == old(scannedText) && alert == None
      ensures (old(alert).Some? && old(alert).value.Rejected?) ==>
        delivered == None && !closeRequested && scannedText == [] && alert == None
      ensures isProcessing == old(isProcessing) && pendingCheck == old(pendingCheck)
    {
      delivered, closeRequested := None, false;
      match alert {
        case None =>
        case Some(Accepted(id)) =>
          delivered, closeRequested := Some(id), true;
        case Some(Rejected(_)) =>
          scannedText := [];
      }
      alert := None;
    }
  }

  /** Only an identifier that passes the suffix comparison ever reaches
      `onScanSuccess`: a code scanned, verified and acknowledged delivers
      its extracted identifier exactly when it matches; after a rejection
      the scanner is ready for the next scan. */
  method ScanAndAcknowledge(s: Scanner, data: string) returns (delivered: Option<string>)
    requires s.scannedText == [] && !s.isProcessing && s.alert == None
    modifies s
    ensures delivered.Some? <==> SuffixMatch(ExtractStudentId(data), s.expectedId)
    ensures delivered.Some? ==> delivered.value == ExtractStudentId(data)
    ensures !delivered.Some? ==>
      (s.scannedText == [] && !s.isProcessing && s.alert == None && s.pendingCheck == None)
  {
    ghost var id := ExtractStudentId(data);
    s.OnBarcodeScanned(data);
    assert s.pendingCheck == Some(id) && s.alert == None;
    s.TimerFires();
    assert s.alert == Some(if SuffixMatch(id, s.expectedId) then Accepted(id) else Rejected(id));
    var close;
    delivered, close := s.DismissAlert();
  }
}
