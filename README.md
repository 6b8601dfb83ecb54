# Online voting: voter verification and vote casting

This project models the core of the Online-Voting server. The server is a
state machine over one voter record per `(voterId, phone)` pair. There are
four guarded steps:

1. **send-otp** finds or creates the record, stores a fresh six-digit OTP and
   clears `otpVerified`.
2. **verify-otp** compares the submitted code with the stored OTP and, on a
   match, sets `otpVerified`.
3. **verify-iris** needs a verified OTP. It accepts only a sample from the
   fixed iris dataset and stores it as `irisHash`.
4. **vote** needs a verified OTP and a stored iris hash. It records the party
   once and closes the one-way `hasVoted` latch.

Each handler checks its errors in a fixed order. It answers with either
success or exactly one error, and it saves the record only on success.

Files and modules:

- `otp.dfy` (module `Otp`): `generateOTP` as the decimal rendering of
  `100000 + seed`. Also the rendering, its inverse, and proofs that every
  code has six digits and that distinct seeds give distinct codes.
- `iris.dfy` (module `Iris`): `irisDataset` and the `includes` membership
  test.
- `voters.dfy` (module `Voters`): the record (`voterSchema`), the responses,
  and the four handlers as pure transitions. Their contracts give the order
  of the error checks, what each success changes, and that every failure
  leaves the store unchanged. The module also holds the invariant every
  stored record keeps.
- `server.dfy` (module `Server`): the application as a class `VotingServer`
  holding the collection as a `map`. It has one method per route, written as
  the handler is (load the record, change its fields, save it back). Each
  method is proved equal to its transition and to keep the invariant.
- `traces.dfy` (module `Traces`): requests handled one after another. It
  proves the invariant over any run, the vote latch, and at most one recorded
  vote per voter. It also proves two gates. A voter whose OTP was not
  verified at the start gets a vote recorded only after an accepted OTP since
  the last send-otp, even when an iris hash was kept. A voter who had no iris
  hash at the start gets a vote recorded only after an accepted iris sample. The same OTP gate
  holds for verify-iris over any run.
- `scenarios.dfy` (module `Scenarios`): consequences over a few steps. These
  are re-issue, repeated verification and missing inputs, plus the
  end-to-end voter flows.

Modelling decisions:

- A record is a value (`datatype Voter`). Each handler's `findOne` returns
  its own copy of the document, and `save()` writes the changed fields back. So
  "change the fields, then save" is modelled as building an updated value and
  storing it under the key. Every handler is treated as atomic.
- A missing or empty string field of the request body (a JavaScript falsy
  string) is modelled as `""`.
- The random part of `generateOTP` is a parameter `seed` in 0..899999. The
  OTP is the decimal rendering of `100000 + seed`.
- Responses map to the `Status` datatype. `HttpCode` gives the status code of
  each response.
- A fresh record's placeholder `otp: ''` is overwritten before the first
  save. So every stored OTP is a six-digit code.
- A second send-otp replaces the stored OTP. So the first code is refused
  exactly when the two draws differ; `ReissueReplacesCode` proves both
  cases.

## Model

| member | source | states |
|---|---|---|
| `Otp.DecimalString` | Online-Voting/server.js:51 | the rendering of an integer is a non-empty string of decimal digits with no leading zero |
| `Otp.DecimalRoundTrip` | Online-Voting/server.js:51 | reading back the decimal rendering of x gives x |
| `Otp.DecimalLength` | Online-Voting/server.js:51 | a number in 10^k..10^(k+1)-1 renders as exactly k+1 characters |
| `Otp.GenerateOtp` | Online-Voting/server.js:50-52 | every generated OTP is exactly six decimal digits, does not start with '0', and denotes 100000 + seed, which lies in 100000..999999 |
| `Otp.GenerateOtpInjective` | Online-Voting/server.js:50-52 | two draws give the same OTP if and only if they are the same draw |
| `Iris.Includes` | Online-Voting/server.js:117 | the scan finds a sample exactly when it occurs in the dataset |
| `Iris.UnknownSampleRefused` | Online-Voting/server.js:28-39 | "unknown_sample" is not in the dataset and is refused |
| `Voters.HttpCode` | Online-Voting/server.js:57-151 | success is answered with 200 and only success; "Voter not found" with 404 and only it; everything else with 400 |
| `Voters.SendOtpStep` | Online-Voting/server.js:57-85 | missing id or phone is an error that leaves the store unchanged; otherwise the call succeeds, the key is present afterwards, its OTP is the generated code and `otpVerified` is false; an existing record keeps `irisHash`, `hasVoted` and `votedParty`; a new one starts with an empty hash, not voted and an empty party; no other key changes |
| `Voters.VerifyOtpStep` | Online-Voting/server.js:88-102 | the errors come in the order missing data, not found, invalid OTP, each exactly under its condition and leaving the store unchanged; success happens exactly when the submitted code equals the stored OTP, and it sets only `otpVerified` |
| `Voters.VerifyIrisStep` | Online-Voting/server.js:105-124 | the errors come in the order missing data, not found, OTP not verified, iris failed, each exactly under its condition and leaving the store unchanged; success happens exactly when the OTP is verified and the sample is in the dataset, and it sets only `irisHash` |
| `Voters.VoteStep` | Online-Voting/server.js:127-151 | the errors come in the order missing data, not found, authentication incomplete (OTP not verified or no iris hash), already voted, each exactly under its condition and leaving the store unchanged; success sets only `hasVoted` and `votedParty` |
| `Voters.SendOtpKeepsInv` | Online-Voting/server.js:61-79 | send-otp keeps every record's OTP six digits, iris hash from the dataset, and a voted record's party and hash non-empty |
| `Voters.VerifyOtpKeepsInv` | Online-Voting/server.js:95-97 | verify-otp keeps the record invariant |
| `Voters.VerifyIrisKeepsInv` | Online-Voting/server.js:117-119 | verify-iris keeps the record invariant: an iris hash is stored only if the dataset contains it |
| `Voters.VoteKeepsInv` | Online-Voting/server.js:129-145 | vote keeps the record invariant: a recorded vote has a non-empty party and a non-empty iris hash |
| `Server.VotingServer.constructor` | Online-Voting/server.js:25 | a new server starts with an empty collection that satisfies the invariant |
| `Server.VotingServer.SendOtp` | Online-Voting/server.js:57-85 | the handler's response and the new collection are those of `SendOtpStep`, and the invariant is kept |
| `Server.VotingServer.VerifyOtp` | Online-Voting/server.js:88-102 | the handler's response and the new collection are those of `VerifyOtpStep`, and the invariant is kept |
| `Server.VotingServer.VerifyIris` | Online-Voting/server.js:105-124 | the handler's response and the new collection are those of `VerifyIrisStep`, and the invariant is kept |
| `Server.VotingServer.Vote` | Online-Voting/server.js:127-151 | the handler's response and the new collection are those of `VoteStep`, and the invariant is kept |
| `Traces.Step` | Online-Voting/server.js:57-151 | any failed request leaves the store unchanged; a request touches only its own key; no record is ever deleted; only send-otp creates a record |
| `Traces.Run` | Online-Voting/server.js:57-151 | a run answers every request exactly once and never removes a key from the store |
| `Traces.RunPrefix` | Online-Voting/server.js:57-151 | requests are answered in order: the responses to a prefix of the requests are the first responses of the whole run |
| `Traces.StepKeepsInv` | Online-Voting/server.js:57-151 | every handler keeps the record invariant |
| `Traces.RunKeepsInv` | Online-Voting/server.js:57-151 | every store reachable from one that satisfies the invariant satisfies it too: six-digit OTPs, dataset iris hashes, and voted records with a party and an iris hash |
| `Traces.StepKeepsLatch` | Online-Voting/server.js:138-144 | once `hasVoted` is set, no request clears it or changes `votedParty`, and no vote for that key succeeds |
| `Traces.StepVoteCloses` | Online-Voting/server.js:138-144 | a successful vote happens only on an open latch, and it closes the latch with the request's party |
| `Traces.LatchPersists` | Online-Voting/server.js:138-144 | over any run, a closed latch stays closed and the recorded party stays the same |
| `Traces.AtMostOneVoteStep` | Online-Voting/server.js:138-145 | one more request keeps the count of successful votes for a key within its bound, and a single successful vote leaves the latch closed with that vote's party |
| `Traces.AtMostOneVote` | Online-Voting/server.js:138-145 | in any run, a voter who had not voted gets at most one successful vote and a voter who had voted gets none; after the one success the latch is closed and the stored party is that vote's |
| `Traces.StepOtpVerified` | Online-Voting/server.js:76-97 | after any request, `otpVerified` for a key comes from that request being a successful verify-otp, or it was already set and the request was not a successful send-otp for the key |
| `Traces.StepIrisHash` | Online-Voting/server.js:117-118 | after any request, a key's iris hash comes from that request being a successful verify-iris, or it was already there |
| `Traces.OtpVerifiedHasCause` | Online-Voting/server.js:76-97 | for a key whose OTP was not verified at the start, if `otpVerified` holds after a run, a verify-otp for that key succeeded in the run and no send-otp for it succeeded after that |
| `Traces.IrisHashHasCause` | Online-Voting/server.js:117-118 | for a key with no iris hash at the start, if it has one after a run, a verify-iris for that key succeeded in the run |
| `Traces.VoteNeedsVerifiedOtp` | Online-Voting/server.js:134-136 | a vote for a voter whose OTP was not verified at the start succeeds only after a successful verify-otp for that voter with no successful send-otp since, whatever iris hash was kept |
| `Traces.VoteNeedsIris` | Online-Voting/server.js:134-136 | a vote for a voter who had no iris hash at the start succeeds only after a successful verify-iris for that voter, whatever the OTP state |
| `Traces.VerifyIrisNeedsVerifiedOtp` | Online-Voting/server.js:112-118 | a successful verify-iris for a voter whose OTP was not verified at the start comes only after a successful verify-otp for that voter with no successful send-otp since |
| `Scenarios.ReissueBlocksVote` | Online-Voting/server.js:76-136 | right after send-otp, a vote with complete data is refused as authentication incomplete, even when an accepted iris hash is kept |
| `Scenarios.ReissueAfterVoteReportsIncomplete` | Online-Voting/server.js:134-140 | send-otp after a vote succeeds and leaves the vote as it was, and a further vote then gets "Authentication incomplete" rather than "Already voted" |
| `Scenarios.ReissueReplacesCode` | Online-Voting/server.js:76-95 | after two send-otp calls the first code is accepted exactly when both draws were equal, and is otherwise refused as invalid |
| `Scenarios.RepeatVerifyOtp` | Online-Voting/server.js:95-98 | a successful verify-otp succeeds again with the same code and changes nothing further |
| `Scenarios.IrisNeedsVerifiedOtp` | Online-Voting/server.js:112-114 | right after send-otp, verify-iris is refused as OTP not verified and changes nothing |
| `Scenarios.MissingIdentityRejected` | Online-Voting/server.js:59 | a request of any route with an empty voter id or phone is refused as missing data and creates no record |
| `Scenarios.VoterFlow` | Online-Voting/server.js:57-151 | send, wrong code, right code, dataset iris and vote succeed or fail as expected, a second vote is refused as already voted, and the party stays "PartyA" |
| `Scenarios.UnknownIrisFlow` | Online-Voting/server.js:117-122 | an unknown sample is refused after a verified OTP, and the record keeps an empty iris hash |
| `Scenarios.Votes` | Online-Voting/server.js:127-128 | one request per party, and request i is the vote of this voter for party i |
| `Scenarios.FirstVote` | Online-Voting/server.js:134-144 | an authenticated voter's first vote is recorded with its party, and the authentication is kept |
| `Scenarios.VoteAgain` | Online-Voting/server.js:138-140 | a further vote of an authenticated voter who has voted is refused as already voted and changes nothing |
| `Scenarios.RepeatedVotes` | Online-Voting/server.js:127-151 | for an authenticated voter, one or more vote requests with non-empty parties give exactly one success (the first) and "Already voted" for every later one, and the first party stays recorded |

## Left out

- Express, body-parser, cors, dotenv, the port and `app.listen` (Online-Voting/server.js:1-12, 153-155): HTTP framing and configuration. Responses are the `Status` values; the JSON message texts are only named in comments.
- The Mongoose connection, the schema object and `save()` as I/O (Online-Voting/server.js:25, 42-47): the collection is an in-memory map, and each handler is applied atomically with its save.
- Concurrency: the handlers read and then save without any atomic conditional update. Two concurrent votes for the same key can both see `hasVoted` false and both succeed. Two concurrent send-otp requests for the same new key can both find no record (Online-Voting/server.js:61-62), both build a new document and both save it (64-79); `voterSchema` (15-23) declares no unique index, so the collection then holds two documents for one key. The model runs requests one after another, so it captures neither race.
- `Math.random` in `generateOTP` (Online-Voting/server.js:51): a floating-point, nondeterministic source. It is replaced by an integer seed in 0..899999 that the caller supplies.
- `console.log` of the OTP and of the vote confirmation (Online-Voting/server.js:82, 148): output only, with no effect on state or responses.
- Request bodies whose fields are not strings (numbers, objects): every field is a string, and a missing field is `""`.
- Documents created outside these handlers (for example with an `irisHash` of `undefined`) and duplicate documents for one key: in the model, requests run one at a time and records enter the store only through send-otp, so there is at most one per key.
- Voters.HttpCode: gives the status code of each response but not its JSON message text.
- Voters.SendOtpStep: send-otp's 400 reply has its own text, "Voter ID and phone required" (Online-Voting/server.js:59). The model folds it into `MissingData` together with the "Missing data" replies of the other routes.
