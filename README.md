# JOKSHU campus election: the screens' election rules, verified

This project models in Dafny the logic of the JOKSHU campus voting app's
screens. The app is written in React Native. The model covers:

- turning a scanned ID-card code into a student identifier, and the scanner's
  processing guard;
- the results aggregation: per position, a stable sort by votes, the total,
  the winner, and rounded percentages with ranks;
- the administrator panel: candidate form and validation, save, vote reset,
  election toggle, live tallies and leaders, search;
- the ballot screen's state machine: select, cast, optional ID scan, success
  or failure, cancel;
- the profile update's ordered checks and its writes to the stored user and
  password dictionaries;
- the candidate gallery's position filter and detail modal.

Modules follow the app's files:

| module | file | models |
|---|---|---|
| `Domain` | `domain.dfy` | candidates, election state, ballot records, users; the per-position filter, the vote sum, subsequences |
| `Text` | `text.dfy` | JavaScript whitespace (`\s` and `trim` share one set), `\d`, `trim`, ASCII `toLowerCase`, `includes` |
| `Storage` | `storage.dfy` | the key–value store, one field per key (`Store`); its constructor only builds the initial store the model starts from, so it has no row below |
| `IdScanner` | `id_scanner.dfy` | `extractStudentId`, the last-nine comparison, the scanner component (`Scanner`) |
| `Results` | `results.dfy` | the results screen |
| `Admin` | `admin.dfy` | the admin screen (`AdminScreen`) |
| `Voting` | `voting.dfy` | the ballot screen (`VotingScreen`) |
| `Profile` | `profile.dfy` | the profile screen (`ProfileScreen`) |
| `CandidatesList` | `candidates.dfy` | the candidate gallery |

Each screen whose handlers write the store or call a collaborator is a
class. Each handler is a method with its frame, and the result it promises is stated in its
postconditions. Pure computations are functions, and their properties are
lemmas.

The collaborator functions of the shared context are passed in as the answer
each call gives. This covers `castVote`, `isIdVerified`, `verifyStudentId`,
`addCandidate` and `updateCandidate`. `VotingScreen` keeps a ghost log of
every `castVote` call it makes. This lets its contracts say when a vote is
cast and when none is.

The ID extractor tries its four regular expressions as hand-written scanners.
They follow JavaScript's rules:

- the leftmost match wins;
- quantifiers are greedy;
- `\s` is JavaScript's whitespace set;
- `\d` is ASCII;
- `/i` folds only ASCII letters for these ASCII labels.

One consequence is proved. The fourth pattern, `SID:`, can never decide:
wherever it matches, `ID:` matches one character later, and `ID:` is tried
first.

The per-candidate percentage is `Math.round(votes / total * 100)` with a
zero guard. It is modelled in integers as `(200·votes + total) div
(2·total)`, which rounds halves up. Votes `[5, 5, 2]` give 42, 42 and 17.

## Model

| member | source | states |
|---|---|---|
| Domain.OfPosition | src/screens/ResultsScreen.tsx:18-20 | the position filter keeps only candidates of the position, keeps every one of them, and never grows the list |
| Domain.OfPositionCount | src/screens/ResultsScreen.tsx:19 | each candidate of the position keeps its multiplicity, and every other candidate is dropped |
| Domain.OfPositionSubsequence | src/screens/CandidatesScreen.tsx:20 | the position filter keeps list order (a subsequence of the input) |
| Domain.Sum | src/screens/ResultsScreen.tsx:26 | the vote sum `reduce((sum, c) => sum + c.votes, 0)`; its properties are stated by `Domain.SumAppend`, `Domain.VotesAtMostSum` and `Domain.SumPositiveIff` |
| Domain.VotesAtMostSum | src/screens/ResultsScreen.tsx:23-27 | no candidate's votes exceed the sum over a list that contains it |
| Domain.SumPositiveIff | src/screens/ResultsScreen.tsx:23-27 | a vote sum is positive exactly when some candidate has a vote |
| Text.Trim | src/screens/ProfileScreen.tsx:49 | `trim`: the JavaScript whitespace stripped from both ends; what it keeps and drops is stated by `Text.TrimKeepsCore`, and `!s.trim()` by `Text.BlankIffAllSpace` |
| Text.BlankIffAllSpace | src/screens/AdminScreen.tsx:100-101 | `!s.trim()` holds exactly when every character is whitespace |
| Text.TrimKeepsCore | src/screens/ProfileScreen.tsx:49 | the trimmed string has no whitespace at either end and is a contiguous piece of the input, and everything dropped before and after it is whitespace |
| Text.ToLower | src/screens/AdminScreen.tsx:201 | lower-casing keeps the length and maps each character by itself |
| Text.Includes | src/screens/AdminScreen.tsx:201-203 | `includes` is true exactly when the substring occurs at some position |
| Text.IncludesEmpty | src/screens/AdminScreen.tsx:201-203 | every string includes the empty query |
| IdScanner.RunEnd | src/components/IDCardScanner.tsx:69 | the greedy `\d+` run: all digits up to the end, followed by a non-digit or the end of the text |
| IdScanner.LeftmostLabelled | src/components/IDCardScanner.tsx:62 | the match position of a labelled pattern is the leftmost one; none means no match anywhere |
| IdScanner.FindLabelled | src/components/IDCardScanner.tsx:54-55 | a labelled pattern's capture group is a non-empty digit string |
| IdScanner.FindRun | src/components/IDCardScanner.tsx:57 | the leftmost position where a run of the given length starts; none means no such run |
| IdScanner.MatchPattern | src/components/IDCardScanner.tsx:54-63 | one pattern's capture `match[1]`: a labelled pattern's digits or a bounded digit run; stated by `IdScanner.FindLabelled`, `IdScanner.FindRun`, `IdScanner.ExtractExactRun` and `IdScanner.ExtractLongRun` |
| IdScanner.FirstMatch | src/components/IDCardScanner.tsx:61-66 | the first pattern in order that matches decides; stated by `IdScanner.SidUnreachable`, `IdScanner.ExtractLabelledId`, `IdScanner.ExtractStudentLabelledId` and `IdScanner.ExtractUnlabelledRun` |
| IdScanner.ExtractStudentId | src/components/IDCardScanner.tsx:52-71 | `extractStudentId`: the patterns, then the first digit run, then the text itself; stated by `IdScanner.ExtractDigits`, `IdScanner.ExtractNoDigits` and `IdScanner.ExtractShortRun` |
| IdScanner.ExtractDigits | src/components/IDCardScanner.tsx:61-70 | text containing a digit always yields a non-empty string made only of digits |
| IdScanner.ExtractNoDigits | src/components/IDCardScanner.tsx:69-70 | text without a digit comes back unchanged |
| IdScanner.SidContainsId | src/components/IDCardScanner.tsx:55-58 | wherever `SID:\s*\d+` matches, `ID:\s*\d+` matches one character later |
| IdScanner.SidUnreachable | src/components/IDCardScanner.tsx:54-66 | when `SID:` matches, `ID:` also matches, so the four-pattern loop gives the same result as the first three patterns alone |
| IdScanner.ExtractLabelledId | src/components/IDCardScanner.tsx:54-66 | the capture group of the leftmost `ID:` match is the result |
| IdScanner.ExtractStudentLabelledId | src/components/IDCardScanner.tsx:54-66 | with no `ID:` match anywhere, the capture group of the leftmost `Student:` match is the result |
| IdScanner.ExtractUnlabelledRun | src/components/IDCardScanner.tsx:57-66 | in text with no labelled match, the leftmost place where six digits start decides, and at most ten digits of that run are taken |
| IdScanner.ExtractExactRun | src/components/IDCardScanner.tsx:57-66 | a leftmost six- to ten-digit run bounded by non-digits comes back exactly |
| IdScanner.ExtractLongRun | src/components/IDCardScanner.tsx:57-66 | a longer leftmost run yields its first ten digits |
| IdScanner.ExtractShortRun | src/components/IDCardScanner.tsx:69-70 | with no six-digit run, the first digit run of any length is returned, and it is shorter than six |
| IdScanner.Last9 | src/components/IDCardScanner.tsx:75-76 | `slice(-9)` is the suffix of length min(length, 9) |
| IdScanner.SuffixMatchIff | src/components/IDCardScanner.tsx:75-78 | two ids match exactly when both have at least nine characters and the same last nine, or both are shorter and equal |
| IdScanner.SuffixMatchSymmetric | src/components/IDCardScanner.tsx:75-78 | the comparison is symmetric |
| IdScanner.SuffixMatchIgnoresPrefix | src/components/IDCardScanner.tsx:75-78 | whatever precedes the last nine characters is ignored |
| IdScanner.Scanner.constructor | src/components/IDCardScanner.tsx:28-29 | the scanner opens empty and idle |
| IdScanner.Scanner.OnBarcodeScanned | src/components/IDCardScanner.tsx:151 | the camera's event reaches the handler only while no id is shown |
| IdScanner.Scanner.HandleBarCodeScanned | src/components/IDCardScanner.tsx:38-50 | an event while processing changes nothing; otherwise the extracted id is shown and its check is armed |
| IdScanner.Scanner.TimerFires | src/components/IDCardScanner.tsx:46-49 | the armed check yields the accepting or rejecting alert by the last-nine comparison, and processing ends |
| IdScanner.Scanner.DismissAlert | src/components/IDCardScanner.tsx:83-100 | acceptance delivers the id to the parent and requests closing; rejection clears the shown id, which re-enables scanning |
| IdScanner.ScanAndAcknowledge | src/components/IDCardScanner.tsx:38-104 | a full scan delivers an id exactly when the extracted id passes the comparison; it delivers that id; otherwise the scanned text is cleared, nothing is processing, no alert is shown and no check is pending, so a second scan can start |
| Results.SortByVotes | src/screens/ResultsScreen.tsx:20 | the stable sort by votes; stated by `Results.SortPermutes`, `Results.SortSorts`, `Results.SortStable` and `Results.StableSortUnique` |
| Results.SortPermutes | src/screens/ResultsScreen.tsx:20 | the sort by votes is a permutation |
| Results.SortSorts | src/screens/ResultsScreen.tsx:20 | the sorted list is non-increasing in votes |
| Results.SortStable | src/screens/ResultsScreen.tsx:20 | candidates with equal votes keep their listed order |
| Results.StableSortUnique | src/screens/ResultsScreen.tsx:20 | any sorted, stable rearrangement equals the model's sort, so the sort is the one JavaScript's stable sort gives |
| Results.PositionResults | src/screens/ResultsScreen.tsx:17-21 | `getPositionResults`; stated by `Results.PositionResultsArePositionCandidates` and `Results.PositionResultsOrdered` |
| Results.TotalVotesForPosition | src/screens/ResultsScreen.tsx:23-27 | `getTotalVotesForPosition`; stated by `Results.TotalIsSumOfResults` and `Results.WinnerPreviewIff` |
| Results.Winner | src/screens/ResultsScreen.tsx:29-32 | `getWinner`; stated by `Results.WinnerNoneIff`, `Results.WinnerIsMax` and `Results.WinnerIsEarliest` |
| Results.ShowsWinnerPreview | src/screens/ResultsScreen.tsx:95 | `winner && winner.votes > 0`; stated by `Results.WinnerPreviewIff` |
| Results.PositionResultsArePositionCandidates | src/screens/ResultsScreen.tsx:17-21 | a position's results are a permutation of exactly its candidates |
| Results.PositionResultsOrdered | src/screens/ResultsScreen.tsx:17-21 | a position's results are ordered by votes, ties in listed order |
| Results.TotalIsSumOfResults | src/screens/ResultsScreen.tsx:23-27 | the position total is the vote sum over its ranked results |
| Results.WinnerNoneIff | src/screens/ResultsScreen.tsx:29-32 | there is no winner exactly when no candidate stands for the position |
| Results.WinnerIsMax | src/screens/ResultsScreen.tsx:29-32 | the winner stands for the position and has at least the votes of every candidate of it |
| Results.WinnerIsEarliest | src/screens/ResultsScreen.tsx:29-32 | every candidate of the position listed before the winner has fewer votes, so the winner is the earliest listed among those tied with it |
| Results.Percentage | src/screens/ResultsScreen.tsx:114-117 | zero for a zero total; otherwise the nearest whole percentage, halves rounded up |
| Results.PercentagesBounded | src/screens/ResultsScreen.tsx:114-117 | every displayed percentage lies in 0..100 |
| Results.PercentageExample | src/screens/ResultsScreen.tsx:114-117 | votes 5, 5 and 2 give 42, 42 and 17 |
| Results.WinnerPreviewIff | src/screens/ResultsScreen.tsx:95 | the winner preview is shown exactly when the position has a vote |
| Results.ResultRows | src/screens/ResultsScreen.tsx:113-128 | one row per ranked candidate, in order, with rank index + 1 |
| Results.RankOneIsWinner | src/screens/ResultsScreen.tsx:125-128 | rank 1 is the winner |
| Results.ToggleExpanded | src/screens/ResultsScreen.tsx:72-80 | tapping a header expands it unless it was expanded, which collapses it |
| Results.ResultsIgnoreOtherPositions | src/screens/ResultsScreen.tsx:17-27 | a candidate of another position changes neither the results, the total nor the winner |
| Storage.VoterKey | src/screens/VotingScreen.tsx:50 | a ballot record's key is `voter_` followed by the student id |
| Storage.VoterKeyInjective | src/screens/VotingScreen.tsx:50 | distinct students have distinct record keys |
| Admin.FormRoundTrip | src/screens/AdminScreen.tsx:85-97 | editing copies exactly the seven form fields: writing them back restores the candidate, and id and votes are never touched |
| Admin.FormValid | src/screens/AdminScreen.tsx:100-101 | the four required fields are non-blank after trimming; stated by `Admin.FormValidIff` |
| Admin.FormValidIff | src/screens/AdminScreen.tsx:100-104 | a form is valid exactly when name, student id, department and symbol each have a non-whitespace character; position, session and manifesto do not matter |
| Admin.SaveRequest | src/screens/AdminScreen.tsx:99-112 | no call for an invalid form; otherwise an update of the edited candidate's id or an addition, with the form as given |
| Admin.EmptyFormNotSavable | src/screens/AdminScreen.tsx:67-83 | the blank form the add button opens cannot be saved as it stands: the save makes no call |
| Admin.ZeroVotes | src/screens/AdminScreen.tsx:158 | the reset list has the same length and order, every tally zero and every other field unchanged |
| Admin.ZeroVotesPerPosition | src/screens/AdminScreen.tsx:158 | resetting and then filtering by position equals filtering and then resetting |
| Admin.ResetClearsTallies | src/screens/AdminScreen.tsx:158 | on the reset candidate list the overall and per-position totals are zero and no winner preview is computed from it |
| Admin.TotalVotes | src/screens/AdminScreen.tsx:189-191 | the overall total bounds every candidate's votes and is positive exactly when some candidate has a vote |
| Admin.TotalIsSumOfPositionTotals | src/screens/AdminScreen.tsx:189-191 | with distinct positions covering every candidate, the overall total is the sum of the position totals |
| Admin.TopCandidate | src/screens/AdminScreen.tsx:193-198 | absent exactly when the position has no candidate; otherwise a candidate of the position with the most votes |
| Admin.LeaderPercentage | src/screens/AdminScreen.tsx:274-277 | the leader's percentage is the rounded percentage of the top candidate's votes over the position total (the results screen's `Percentage`), zero for a zero total and at most 100 |
| Admin.ShowsLeader | src/screens/AdminScreen.tsx:268 | `topCandidate && topCandidate.votes > 0`; stated by `Admin.ShowsLeaderIff` |
| Admin.ShowsLeaderIff | src/screens/AdminScreen.tsx:268 | a leader is shown exactly when the position has a vote |
| Admin.MatchesQuery | src/screens/AdminScreen.tsx:200-204 | the search test on name, student id and department; stated through `Admin.SearchFilter` and `Admin.SearchFilterCount` |
| Admin.SearchFilter | src/screens/AdminScreen.tsx:200-204 | a candidate is kept exactly when one of three holds: its lower-cased name contains the lower-cased query, its student id contains the query, or its lower-cased department contains the lower-cased query |
| Admin.SearchFilterSubsequence | src/screens/AdminScreen.tsx:200-204 | the search keeps list order |
| Admin.SearchFilterCount | src/screens/AdminScreen.tsx:200-204 | a matching candidate is kept as often as it occurs in the list; any other is dropped |
| Admin.SearchEmptyQuery | src/screens/AdminScreen.tsx:200-204 | the empty query keeps every candidate in order |
| Admin.AdminScreen.constructor | src/screens/AdminScreen.tsx:20-33 | the switch starts from the known election state, the modal closed and the form blank |
| Admin.AdminScreen.ToggleElection | src/screens/AdminScreen.tsx:47-65 | once confirmed, the stored state is the known one with only `isActive` replaced; cancelled, nothing changes |
| Admin.AdminScreen.ResetCandidateForm | src/screens/AdminScreen.tsx:67-78 | every text field empty, position "VP", no candidate being edited |
| Admin.AdminScreen.AddCandidatePressed | src/screens/AdminScreen.tsx:80-83 | a blank form in the opened modal, which cannot be saved as it is |
| Admin.AdminScreen.EditCandidate | src/screens/AdminScreen.tsx:85-97 | the candidate's fields in the opened modal, with that candidate being edited |
| Admin.AdminScreen.SaveCandidate | src/screens/AdminScreen.tsx:99-124 | the call made is the one the form and the edited candidate call for; success closes and resets the modal; an invalid form or a failure leaves it as it was |
| Admin.AdminScreen.CloseCandidateModal | src/screens/AdminScreen.tsx:361-364 | the modal closes and the form resets |
| Admin.AdminScreen.ResetVotes | src/screens/AdminScreen.tsx:148-169 | once confirmed, the stored candidates are the known ones with zero votes and `votedCount` is zero with `isActive` and `totalVoters` kept; ballot records, users and passwords are never written |
| Voting.NextIndex | src/screens/VotingScreen.tsx:108-110 | after a vote the tab moves on unless it was the last, and always stays in range |
| Voting.SelectionFor | src/screens/VotingScreen.tsx:74-78 | a selection counts exactly when it is present and non-empty |
| Voting.StoredPositions | src/screens/VotingScreen.tsx:52-53 | the record's voted positions, or none when the field is missing |
| Voting.VotingScreen.constructor | src/screens/VotingScreen.tsx:36-41 | the screen opens on the first tab with nothing selected, voted or pending |
| Voting.VotingScreen.LoadVotedPositions | src/screens/VotingScreen.tsx:47-59 | a signed-in voter's stored record replaces the voted positions; without a user or a record nothing changes |
| Voting.VotingScreen.SelectCandidate | src/screens/VotingScreen.tsx:65-71 | a no-op on a position already voted for; otherwise only the current position's selection is set |
| Voting.VotingScreen.SelectPosition | src/screens/VotingScreen.tsx:163 | a tab press makes that tab current |
| Voting.VotingScreen.ProceedWithVoting | src/screens/VotingScreen.tsx:96-121 | exactly one `castVote` call; on success the position is appended and the tab advances unless last; on refusal or error neither changes; the in-flight flag is down afterwards |
| Voting.VotingScreen.CastVote | src/screens/VotingScreen.tsx:73-121 | without a selection or a user nothing changes; a verified voter votes at once for the selection, and a cast vote records the position and moves to the next tab while a refused or failed one changes neither; otherwise the vote is parked, the scanner opens and no vote is cast |
| Voting.VotingScreen.HandleScanSuccess | src/screens/VotingScreen.tsx:96-138 | without a user or a parked vote nothing happens; a verified scan casts exactly the parked vote and clears it, and a cast vote records the parked position and moves to the next tab while a refused or failed one changes neither; an unverified scan keeps the vote and changes nothing |
| Voting.VotingScreen.CloseScanner | src/screens/VotingScreen.tsx:252-255 | the scanner hides and the parked vote is dropped without a vote |
| Profile.PreCheck | src/screens/ProfileScreen.tsx:43-68 | the ordered checks before anything is loaded; stated by `Profile.PreCheckOrder` and `Profile.PreCheckPassed` |
| Profile.PreCheckOrder | src/screens/ProfileScreen.tsx:43-68 | the first failing check in order is reported: scan, non-blank name, then, only when a new or confirmed password was typed, current password given, passwords equal, length at least four; the pre-checks never report a wrong current password |
| Profile.PreCheckPassed | src/screens/ProfileScreen.tsx:55-68 | passing means no password change at all, or a confirmed new password of at least four characters with a current one given |
| Profile.CurrentPasswordAccepted | src/screens/ProfileScreen.tsx:82-101 | the current-password test; stated by `Profile.CustomPasswordPrecedence` and `Profile.ChangedPasswordAccepted` |
| Profile.CustomPasswordPrecedence | src/screens/ProfileScreen.tsx:84-101 | a stored non-empty custom password alone decides; the original table is consulted only without one |
| Profile.ChangedPasswordAccepted | src/screens/ProfileScreen.tsx:104-105 | after a change the new password is accepted for that student, and every other student's test gives the same answer as before for any typed password |
| Profile.ProfileScreen.constructor | src/screens/ProfileScreen.tsx:21-27 | unverified and idle, with the name field holding the user's name |
| Profile.ProfileScreen.HandleScanSuccess | src/screens/ProfileScreen.tsx:29-41 | a last-nine match against the user's id (empty without a user) verifies and closes the scanner; a mismatch changes neither |
| Profile.ProfileScreen.OpenScanner | src/screens/ProfileScreen.tsx:178 | the scanner opens |
| Profile.ProfileScreen.CloseScanner | src/screens/ProfileScreen.tsx:258 | the scanner closes |
| Profile.ProfileScreen.HandleUpdateProfile | src/screens/ProfileScreen.tsx:43-137 | the outcome and the three stored entries are the update result of the pre-checks and the save on the entries before the call; a failed check leaves the busy flag as it was, otherwise it ends down |
| Profile.UpdateResult | src/screens/ProfileScreen.tsx:43-136 | the whole update's outcome and writes; stated by `Profile.UpdateRefusalWritesNothing` |
| Profile.SaveResult | src/screens/ProfileScreen.tsx:70-136 | the save's outcome and writes past the checks; stated by `Profile.SaveRefusal`, `Profile.SavePasswords` and `Profile.SaveUsers` |
| Profile.UpdateRefusalWritesNothing | src/screens/ProfileScreen.tsx:43-101 | a refused update writes nothing; a failed check is reported with its own error; past the checks the only refusal is a wrong current password |
| Profile.SaveRefusal | src/screens/ProfileScreen.tsx:82-101 | past the checks, the save refuses exactly when a new password was typed and the current-password test fails; a refusal reports a wrong current password and writes nothing |
| Profile.SavePasswords | src/screens/ProfileScreen.tsx:103-105 | an update changes the stored passwords only under the student's key, and only when a new password was typed, which is then stored there |
| Profile.SaveUsers | src/screens/ProfileScreen.tsx:108-115 | an update changes the stored users only under the student's id, where the user with only the name replaced (department and admin flag kept) is stored and also becomes the current user; without a user neither changes |
| Profile.ProfileScreen.SaveProfile | src/screens/ProfileScreen.tsx:70-136 | the outcome and the three stored entries are exactly those the save result gives for the stored entries before the call; the busy flag ends down on every way out |
| Profile.ProfileScreen.WritePassword | src/screens/ProfileScreen.tsx:82-106 | the current-password test passes exactly when no new password was typed or the stored custom password (else the original) matches; on a pass the new password, if any, is written under the student's key, otherwise nothing changes |
| Profile.ProfileScreen.WriteUser | src/screens/ProfileScreen.tsx:108-115 | with a user, the trimmed-name copy is stored under the student's id and as the current user; without one nothing changes |
| CandidatesList.Filtered | src/screens/CandidatesScreen.tsx:18-20 | "all" shows the list unchanged; a position shows exactly that position's candidates |
| CandidatesList.FilteredIsOrderedRecall | src/screens/CandidatesScreen.tsx:18-20 | the filter keeps list order and every candidate of the position with its multiplicity |
| CandidatesList.DisplayedCount | src/screens/CandidatesScreen.tsx:69 | the count is the full length under "all", never more, and zero exactly when nothing matches |
| CandidatesList.OpenDetails | src/screens/CandidatesScreen.tsx:81 | tapping a card makes the modal visible with that candidate |
| CandidatesList.CloseDetails | src/screens/CandidatesScreen.tsx:122-125 | every close action hides the modal and keeps the filter |
| CandidatesList.ChooseFilter | src/screens/CandidatesScreen.tsx:32-51 | a filter chip replaces the filter and keeps the modal |
| CandidatesList.OpenCloseRoundTrip | src/screens/CandidatesScreen.tsx:122-139 | the modal is visible after an open and hidden after the close, and opening then closing returns the closed view |

## Left out

- Rendering, styles, alert texts and the web `showAlert` variant: presentation only. Alerts matter only through the buttons that continue a flow. Those buttons are the confirmation flag of `ToggleElection` and `ResetVotes`, and `Scanner.DismissAlert`.
- Camera permission, the camera view and the one-second timer: device I/O and timing. The timer's callback is `Scanner.TimerFires`, a separate step.
- The shared context's `castVote`, `verifyStudentId`, `isIdVerified`, `addCandidate`, `updateCandidate`, `deleteCandidate`, `login` and `logout`: their code is not part of this model. Each method receives the answer the call gives. The one-ballot-per-voter rule lives in that code and is not claimed.
- `handleDeleteCandidate`: it only forwards to `deleteCandidate` and shows an alert.
- `handleClearAllData`: it wipes the whole store.
- Serialisation and faults of the key–value store, and the `catch` paths they lead to. Each key is a decoded field of `Store`. A malformed ballot record is not modelled.
- Asynchronous interleaving: each handler runs to completion in order. `proceedWithVoting` is not awaited in `handleScanSuccess`, and the scanner's close callback runs while `verifyStudentId` is pending. The model does both in sequence. It also does not model React's stale state captured in closures.
- The screens' gates render only a notice and offer no handler. These are the admin-only gate and the "election closed" gate, and the model leaves both out.
- Turnout `votedCount / totalVoters`: floating-point division with no guard against a zero divisor.
- Stale in-memory state after a reset or a toggle: `handleResetVotes` writes the store and asks for a restart; `handleToggleElection` sets the screen's own switch and writes `electionState`, with no message. The shared context's `candidates` and `electionState`, which the screens read, are not refreshed, so until a restart the app still shows the old tallies and winner and the voting gate keeps the old `isActive`. The model states only what each handler writes: the store and, for the toggle, the screen's switch.
- IdScanner.Last9: counts Unicode scalar values, whereas `slice(-9)` counts UTF-16 code units. The two differ for strings longer than nine code units that contain characters outside the Basic Multilingual Plane, such as a digit-free scan that `ExtractStudentId` returns unchanged.
- Results.Percentage: the integer form idealises `Math.round` over a floating-point quotient. It may differ from the app where the quotient is not exactly representable.
- Text.ToLower: only ASCII letters are lower-cased; full Unicode case mapping is not modelled.
- Profile.PreCheck: string length counts Unicode scalar values, whereas JavaScript counts UTF-16 code units. The two differ for characters outside the Basic Multilingual Plane.
- Voting.VotingScreen.constructor: requires a non-empty position list, because the app's handlers fail on an empty one (there is no current position).
- The password table of the mock data is passed to `HandleUpdateProfile` as a map, as external data.
- Home and login screens: navigation and the login form's empty-field checks.
