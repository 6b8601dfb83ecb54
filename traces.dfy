/** Sequences of requests handled one after another, and what the handlers of
    server.js guarantee across them: the vote latch, at most one recorded
    vote per voter, and that a vote is only recorded after an OTP check since
    the last OTP was issued and after an iris check. */
module Traces {
  import opened Otp
  import opened Voters

  /** The body of a request to one of the four routes. */
  datatype Request =
    | SendOtpReq(voterId: string, phone: string, seed: OtpSeed)
    | VerifyOtpReq(voterId: string, phone: string, otp: string)
    | VerifyIrisReq(voterId: string, phone: string, irisHash: string)
    | VoteReq(voterId: string, phone: string, party: string)

  function KeyOf(req: Request): Key {
    (req.voterId, req.phone)
  }

  /** Dispatch a request to its route's handler. */
  function Step(t: Table, req: Request): (o: Outcome)
    ensures o.status != Ok ==> o.voters == t
    ensures OthersUnchanged(t, o.voters, KeyOf(req))
    ensures t.Keys <= o.voters.Keys
    ensures KeyOf(req) in o.voters ==> KeyOf(req) in t || req.SendOtpReq?
  {
    match req
    case SendOtpReq(voterId, phone, seed) => SendOtpStep(t, voterId, phone, seed)
    case VerifyOtpReq(voterId, phone, otp) => VerifyOtpStep(t, voterId, phone, otp)
    case VerifyIrisReq(voterId, phone, irisHash) => VerifyIrisStep(t, voterId, phone, irisHash)
    case VoteReq(voterId, phone, party) => VoteStep(t, voterId, phone, party)
  }

  /** A run: the store after the last request and the response to each
      request, in order. */
  datatype Trace = Trace(final: Table, statuses: seq<Status>)

  /** Handle `reqs` one after another, starting from the store `t`. */
  function Run(t: Table, reqs: seq<Request>): (r: Trace)
    ensures |r.statuses| == |reqs|
    ensures t.Keys <= r.final.Keys
  {
    if reqs == [] then Trace(t, [])
    else
      var p := Run(t, reqs[..|reqs| - 1]);
      var o := Step(p.final, reqs[|reqs| - 1]);
      Trace(o.voters, p.statuses + [o.status])
  }

  /** Runs are handled in order: a prefix of the requests gives the same
      responses as the first part of the whole run. */
  lemma {:induction false} RunPrefix(t: Table, reqs: seq<Request>, i: nat)
    requires i <= |reqs|
    ensures Run(t, reqs[..i]).statuses == Run(t, reqs).statuses[..i]
    decreases |reqs|
  {
    if i < |reqs| {
      var init := reqs[..|reqs| - 1];
      assert init[..i] == reqs[..i];
      RunPrefix(t, init, i);
    } else {
      assert reqs[..i] == reqs;
    }
  }

  lemma StepKeepsInv(t: Table, req: Request)
    requires Inv(t)
    ensures Inv(Step(t, req).voters)
  {
    match req
    case SendOtpReq(voterId, phone, seed) => SendOtpKeepsInv(t, voterId, phone, seed);
    case VerifyOtpReq(voterId, phone, otp) => VerifyOtpKeepsInv(t, voterId, phone, otp);
    case VerifyIrisReq(voterId, phone, irisHash) => VerifyIrisKeepsInv(t, voterId, phone, irisHash);
    case VoteReq(voterId, phone, party) => VoteKeepsInv(t, voterId, phone, party);
  }

  /** Every reachable store satisfies the record invariant: stored OTPs are
      six digits, stored iris hashes are dataset samples, and a voter who has
      voted has a non-empty party and iris hash. */
  lemma {:induction false} RunKeepsInv(t: Table, reqs: seq<Request>)
    requires Inv(t)
    ensures Inv(Run(t, reqs).final)
    decreases |reqs|
  {
    if reqs != [] {
      var init := reqs[..|reqs| - 1];
      RunKeepsInv(t, init);
      StepKeepsInv(Run(t, init).final, reqs[|reqs| - 1]);
    }
  }

  /** The vote latch over one request: no handler reopens `hasVoted` or
      changes `votedParty` once a vote is recorded, and no vote for that key
      succeeds again. */
  lemma StepKeepsLatch(t: Table, req: Request, k: Key)
    requires k in t && t[k].hasVoted
    ensures k in Step(t, req).voters
    ensures Step(t, req).voters[k].hasVoted
    ensures Step(t, req).voters[k].votedParty == t[k].votedParty
    ensures req.VoteReq? && KeyOf(req) == k ==> Step(t, req).status != Ok
  {
  }

  /** A successful vote for key k closes the latch with the request's party. */
  lemma StepVoteCloses(t: Table, req: Request, k: Key)
    requires req.VoteReq? && KeyOf(req) == k && Step(t, req).status == Ok
    ensures k in t && !t[k].hasVoted
    ensures k in Step(t, req).voters && Step(t, req).voters[k].hasVoted
    ensures Step(t, req).voters[k].votedParty == req.party
  {
  }

  predicate IsOkSend(req: Request, s: Status, k: Key) {
    req.SendOtpReq? && KeyOf(req) == k && s == Ok
  }

  predicate IsOkVote(req: Request, s: Status, k: Key) {
    req.VoteReq? && KeyOf(req) == k && s == Ok
  }

  /** How many requests of a run are votes for key k that succeeded. */
  function OkVotes(reqs: seq<Request>, ss: seq<Status>, k: Key): nat
    requires |reqs| == |ss|
  {
    if reqs == [] then 0
    else
      OkVotes(reqs[..|reqs| - 1], ss[..|ss| - 1], k)
        + (if IsOkVote(reqs[|reqs| - 1], ss[|ss| - 1], k) then 1 else 0)
  }

  /** Some request of a run is a successful vote for key k for `party`. */
  ghost predicate VotedFor(reqs: seq<Request>, ss: seq<Status>, k: Key, party: string)
    requires |reqs| == |ss|
  {
    exists j :: 0 <= j < |reqs| && IsOkVote(reqs[j], ss[j], k) && reqs[j].party == party
  }

  lemma VotedForExtends(reqs: seq<Request>, ss: seq<Status>, k: Key, party: string)
    requires 0 < |reqs| == |ss|
    requires VotedFor(reqs[..|reqs| - 1], ss[..|ss| - 1], k, party)
    ensures VotedFor(reqs, ss, k, party)
  {
    var n := |reqs|;
    var init, ps := reqs[..n - 1], ss[..n - 1];
    var j :| 0 <= j < n - 1 && IsOkVote(init[j], ps[j], k) && init[j].party == party;
    assert reqs[j] == init[j] && ss[j] == ps[j];
  }

  /** The vote latch over any run: once closed it stays closed, with the
      same party. */
  lemma {:induction false} LatchPersists(t: Table, reqs: seq<Request>, k: Key)
    requires k in t && t[k].hasVoted
    ensures k in Run(t, reqs).final && Run(t, reqs).final[k].hasVoted
    ensures Run(t, reqs).final[k].votedParty == t[k].votedParty
    decreases |reqs|
  {
    if reqs != [] {
      var init := reqs[..|reqs| - 1];
      LatchPersists(t, init, k);
      StepKeepsLatch(Run(t, init).final, reqs[|reqs| - 1], k);
    }
  }

  /** The inductive step of AtMostOneVote: one more request, given what
      holds of the run before it. */
  lemma AtMostOneVoteStep(
    latched: bool, k: Key, init: seq<Request>, ps: seq<Status>, prev: Table, req: Request)
    requires |init| == |ps|
    requires OkVotes(init, ps, k) <= (if latched then 0 else 1)
    requires OkVotes(init, ps, k) == 1 ==>
      k in prev && prev[k].hasVoted && VotedFor(init, ps, k, prev[k].votedParty)
    requires latched ==> k in prev && prev[k].hasVoted
    ensures var o := Step(prev, req);
      OkVotes(init + [req], ps + [o.status], k) <= (if latched then 0 else 1)
    ensures var o := Step(prev, req);
      OkVotes(init + [req], ps + [o.status], k) == 1 ==>
        k in o.voters && o.voters[k].hasVoted
        && VotedFor(init + [req], ps + [o.status], k, o.voters[k].votedParty)
  {
    var o := Step(prev, req);
    var reqs, ss := init + [req], ps + [o.status];
    var n := |reqs|;
    assert reqs[..n - 1] == init && ss[..n - 1] == ps;
    var before := OkVotes(init, ps, k);
    assert OkVotes(reqs, ss, k) == before + (if IsOkVote(req, o.status, k) then 1 else 0);
    if k in prev && prev[k].hasVoted {
      StepKeepsLatch(prev, req, k);
      if before == 1 {
        VotedForExtends(reqs, ss, k, o.voters[k].votedParty);
      }
    } else if IsOkVote(req, o.status, k) {
      StepVoteCloses(prev, req, k);
      assert IsOkVote(reqs[n - 1], ss[n - 1], k) && reqs[n - 1].party == o.voters[k].votedParty;
    }
  }

  /** Exactly-once voting, for any sequence of requests: a voter who had not
      voted gets at most one successful vote and one who had voted gets none;
      after the one successful vote the latch is closed and the stored party
      is that vote's. */
  lemma {:induction false} AtMostOneVote(t: Table, reqs: seq<Request>, k: Key)
    ensures var r := Run(t, reqs);
      OkVotes(reqs, r.statuses, k) <= (if k in t && t[k].hasVoted then 0 else 1)
    ensures var r := Run(t, reqs);
      OkVotes(reqs, r.statuses, k) == 1 ==>
        k in r.final && r.final[k].hasVoted && VotedFor(reqs, r.statuses, k, r.final[k].votedParty)
    decreases |reqs|
  {
    if reqs != [] {
      var init := reqs[..|reqs| - 1];
      var req := reqs[|reqs| - 1];
      var p := Run(t, init);
      assert reqs == init + [req];
      assert Run(t, reqs) == Trace(Step(p.final, req).voters, p.statuses + [Step(p.final, req).status]);
      AtMostOneVote(t, init, k);
      var latched := k in t && t[k].hasVoted;
      if latched {
        LatchPersists(t, init, k);
      }
      AtMostOneVoteStep(latched, k, init, p.statuses, p.final, req);
    }
  }

  /** Among the first n requests, a verify-otp for key k succeeded, and no
      send-otp for k succeeded after it. */
  ghost predicate OtpVerifiedSinceLastSend(reqs: seq<Request>, ss: seq<Status>, k: Key, n: nat)
    requires n <= |reqs| == |ss|
  {
    exists j :: 0 <= j < n && reqs[j].VerifyOtpReq? && KeyOf(reqs[j]) == k && ss[j] == Ok
      && forall m :: j < m < n ==> !IsOkSend(reqs[m], ss[m], k)
  }

  /** Among the first n requests, a verify-iris for key k succeeded. */
  ghost predicate IrisVerifiedBefore(reqs: seq<Request>, ss: seq<Status>, k: Key, n: nat)
    requires n <= |reqs| == |ss|
  {
    exists j :: 0 <= j < n && reqs[j].VerifyIrisReq? && KeyOf(reqs[j]) == k && ss[j] == Ok
  }

  /** Over one request, `otpVerified` for key k either comes from that request
      being a successful verify-otp for k, or was already there and the
      request is not a successful send-otp for k. */
  lemma StepOtpVerified(prev: Table, req: Request, k: Key)
    requires k in Step(prev, req).voters && Step(prev, req).voters[k].otpVerified
    ensures
      || (req.VerifyOtpReq? && KeyOf(req) == k && Step(prev, req).status == Ok)
      || (k in prev && prev[k].otpVerified && !IsOkSend(req, Step(prev, req).status, k))
  {
    match req
    case SendOtpReq(voterId, phone, seed) =>
    case VerifyOtpReq(voterId, phone, otp) =>
    case VerifyIrisReq(voterId, phone, irisHash) =>
    case VoteReq(voterId, phone, party) =>
  }

  /** Over one request, a non-empty `irisHash` for key k either comes from
      that request being a successful verify-iris for k, or was already there. */
  lemma StepIrisHash(prev: Table, req: Request, k: Key)
    requires k in Step(prev, req).voters && Step(prev, req).voters[k].irisHash != ""
    ensures
      || (req.VerifyIrisReq? && KeyOf(req) == k && Step(prev, req).status == Ok)
      || (k in prev && prev[k].irisHash != "")
  {
  }

  /** A successful verify-otp for k as the last request is a witness. */
  lemma OtpWitnessAtLast(reqs: seq<Request>, ss: seq<Status>, k: Key)
    requires 0 < |reqs| == |ss|
    requires reqs[|reqs| - 1].VerifyOtpReq? && KeyOf(reqs[|reqs| - 1]) == k && ss[|ss| - 1] == Ok
    ensures OtpVerifiedSinceLastSend(reqs, ss, k, |reqs|)
  {
  }

  /** A witness among the earlier requests stays one when the last request is
      not a successful send-otp for k. */
  lemma OtpWitnessExtends(reqs: seq<Request>, ss: seq<Status>, k: Key)
    requires 0 < |reqs| == |ss|
    requires OtpVerifiedSinceLastSend(reqs[..|reqs| - 1], ss[..|ss| - 1], k, |reqs| - 1)
    requires !IsOkSend(reqs[|reqs| - 1], ss[|ss| - 1], k)
    ensures OtpVerifiedSinceLastSend(reqs, ss, k, |reqs|)
  {
    var n := |reqs|;
    var init, ps := reqs[..n - 1], ss[..n - 1];
    var j :| 0 <= j < n - 1 && init[j].VerifyOtpReq? && KeyOf(init[j]) == k && ps[j] == Ok
      && forall m :: j < m < n - 1 ==> !IsOkSend(init[m], ps[m], k);
    assert forall m :: j < m < n ==> !IsOkSend(reqs[m], ss[m], k) by {
      forall m | j < m < n ensures !IsOkSend(reqs[m], ss[m], k) {
        if m < n - 1 {
          assert reqs[m] == init[m] && ss[m] == ps[m];
        }
      }
    }
    assert reqs[j] == init[j] && ss[j] == ps[j];
  }

  /** A witness among the earlier requests stays one. */
  lemma IrisWitnessExtends(reqs: seq<Request>, ss: seq<Status>, k: Key)
    requires 0 < |reqs| == |ss|
    requires IrisVerifiedBefore(reqs[..|reqs| - 1], ss[..|ss| - 1], k, |reqs| - 1)
    ensures IrisVerifiedBefore(reqs, ss, k, |reqs|)
  {
    var n := |reqs|;
    var init, ps := reqs[..n - 1], ss[..n - 1];
    var j :| 0 <= j < n - 1 && init[j].VerifyIrisReq? && KeyOf(init[j]) == k && ps[j] == Ok;
    assert reqs[j] == init[j] && ss[j] == ps[j];
  }

  /** `otpVerified` is only ever set by a successful verify-otp, and every
      send-otp clears it again. */
  lemma {:induction false} OtpVerifiedHasCause(t: Table, reqs: seq<Request>, k: Key)
    requires k !in t || !t[k].otpVerified
    ensures var r := Run(t, reqs);
      k in r.final && r.final[k].otpVerified ==>
        OtpVerifiedSinceLastSend(reqs, r.statuses, k, |reqs|)
    decreases |reqs|
  {
    var r := Run(t, reqs);
    if reqs != [] && k in r.final && r.final[k].otpVerified {
      var n := |reqs|;
      var init := reqs[..n - 1];
      var req := reqs[n - 1];
      var p := Run(t, init);
      var o := Step(p.final, req);
      assert r.final == o.voters && r.statuses == p.statuses + [o.status];
      assert r.statuses[..n - 1] == p.statuses && r.statuses[n - 1] == o.status;
      StepOtpVerified(p.final, req, k);
      if req.VerifyOtpReq? && KeyOf(req) == k && o.status == Ok {
        OtpWitnessAtLast(reqs, r.statuses, k);
      } else {
        OtpVerifiedHasCause(t, init, k);
        OtpWitnessExtends(reqs, r.statuses, k);
      }
    }
  }

  /** `irisHash` is only ever set by a successful verify-iris. */
  lemma {:induction false} IrisHashHasCause(t: Table, reqs: seq<Request>, k: Key)
    requires k !in t || t[k].irisHash == ""
    ensures var r := Run(t, reqs);
      k in r.final && r.final[k].irisHash != "" ==>
        IrisVerifiedBefore(reqs, r.statuses, k, |reqs|)
    decreases |reqs|
  {
    var r := Run(t, reqs);
    if reqs != [] && k in r.final && r.final[k].irisHash != "" {
      var n := |reqs|;
      var init := reqs[..n - 1];
      var req := reqs[n - 1];
      var p := Run(t, init);
      var o := Step(p.final, req);
      assert r.final == o.voters && r.statuses == p.statuses + [o.status];
      assert r.statuses[..n - 1] == p.statuses && r.statuses[n - 1] == o.status;
      StepIrisHash(p.final, req, k);
      if req.VerifyIrisReq? && KeyOf(req) == k && o.status == Ok {
        assert IrisVerifiedBefore(reqs, r.statuses, k, n) by {
          assert reqs[n - 1].VerifyIrisReq? && KeyOf(reqs[n - 1]) == k && r.statuses[n - 1] == Ok;
        }
      } else {
        IrisHashHasCause(t, init, k);
        IrisWitnessExtends(reqs, r.statuses, k);
      }
    }
  }

  /** The OTP gate: when the last request of a run is a vote that succeeds
      for a voter whose OTP was not verified at the start, some earlier
      verify-otp for that voter succeeded with no successful send-otp for it
      since. An iris hash kept across a re-issued OTP does not help. */
  lemma VoteNeedsVerifiedOtp(t: Table, reqs: seq<Request>)
    requires reqs != [] && reqs[|reqs| - 1].VoteReq?
    requires Run(t, reqs).statuses[|reqs| - 1] == Ok
    requires var k := KeyOf(reqs[|reqs| - 1]);
      k !in t || !t[k].otpVerified
    ensures var init := reqs[..|reqs| - 1];
      OtpVerifiedSinceLastSend(init, Run(t, init).statuses, KeyOf(reqs[|reqs| - 1]), |init|)
  {
    var init := reqs[..|reqs| - 1];
    OtpVerifiedHasCause(t, init, KeyOf(reqs[|reqs| - 1]));
  }

  /** The iris gate: when the last request of a run is a vote that succeeds
      for a voter who had no iris hash at the start, some earlier verify-iris
      for that voter succeeded. */
  lemma VoteNeedsIris(t: Table, reqs: seq<Request>)
    requires reqs != [] && reqs[|reqs| - 1].VoteReq?
    requires Run(t, reqs).statuses[|reqs| - 1] == Ok
    requires var k := KeyOf(reqs[|reqs| - 1]);
      k !in t || t[k].irisHash == ""
    ensures var init := reqs[..|reqs| - 1];
      IrisVerifiedBefore(init, Run(t, init).statuses, KeyOf(reqs[|reqs| - 1]), |init|)
  {
    var init := reqs[..|reqs| - 1];
    IrisHashHasCause(t, init, KeyOf(reqs[|reqs| - 1]));
  }

  /** The iris gate needs the OTP gate: when the last request of a run is a
      verify-iris that succeeds for a voter whose OTP was not verified at the
      start, some earlier verify-otp for that voter succeeded with no
      successful send-otp for it since. */
  lemma VerifyIrisNeedsVerifiedOtp(t: Table, reqs: seq<Request>)
    requires reqs != [] && reqs[|reqs| - 1].VerifyIrisReq?
    requires Run(t, reqs).statuses[|reqs| - 1] == Ok
    requires var k := KeyOf(reqs[|reqs| - 1]);
      k !in t || !t[k].otpVerified
    ensures var init := reqs[..|reqs| - 1];
      OtpVerifiedSinceLastSend(init, Run(t, init).statuses, KeyOf(reqs[|reqs| - 1]), |init|)
  {
    var init := reqs[..|reqs| - 1];
    OtpVerifiedHasCause(t, init, KeyOf(reqs[|reqs| - 1]));
  }
}
