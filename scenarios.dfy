/** Consequences of the handlers for short request sequences: what re-issuing
    an OTP does to the later steps, repeated verification, inputs that are
    missing, and the end-to-end flows of a voter. */
module Scenarios {
  import opened Otp
  import opened Iris
  import opened Voters
  import opened Traces

  /** A new OTP closes the vote gate again, even when an accepted iris hash
      is kept: the vote is refused as incomplete until verify-otp succeeds. */
  lemma ReissueBlocksVote(t: Table, voterId: string, phone: string, seed: OtpSeed, party: string)
    requires voterId != "" && phone != "" && party != ""
    ensures VoteStep(SendOtpStep(t, voterId, phone, seed).voters, voterId, phone, party).status == AuthIncomplete
  {
  }

  /** A voter who has voted and asks for a new OTP is told that
      authentication is incomplete, not that they already voted, because the
      authentication check comes first. */
  lemma ReissueAfterVoteReportsIncomplete(t: Table, voterId: string, phone: string, seed: OtpSeed, party: string)
    requires voterId != "" && phone != "" && party != ""
    requires (voterId, phone) in t && t[(voterId, phone)].hasVoted
    ensures SendOtpStep(t, voterId, phone, seed).status == Ok
    ensures SendOtpStep(t, voterId, phone, seed).voters[(voterId, phone)].hasVoted
    ensures SendOtpStep(t, voterId, phone, seed).voters[(voterId, phone)].votedParty == t[(voterId, phone)].votedParty
    ensures VoteStep(SendOtpStep(t, voterId, phone, seed).voters, voterId, phone, party).status == AuthIncomplete
  {
  }

  /** Only the latest OTP is compared: after two send-otp calls the first
      code is refused, unless both draws produced the same code. */
  lemma ReissueReplacesCode(t: Table, voterId: string, phone: string, s1: OtpSeed, s2: OtpSeed)
    requires voterId != "" && phone != ""
    ensures
      var t2 := SendOtpStep(SendOtpStep(t, voterId, phone, s1).voters, voterId, phone, s2).voters;
      VerifyOtpStep(t2, voterId, phone, GenerateOtp(s1)).status == (if s1 == s2 then Ok else InvalidOtp)
  {
    GenerateOtpInjective(s1, s2);
  }

  /** The OTP is not consumed: a verification that succeeded succeeds again
      and changes nothing more. */
  lemma RepeatVerifyOtp(t: Table, voterId: string, phone: string, otp: string)
    requires VerifyOtpStep(t, voterId, phone, otp).status == Ok
    ensures
      var t1 := VerifyOtpStep(t, voterId, phone, otp).voters;
      VerifyOtpStep(t1, voterId, phone, otp) == Outcome(Ok, t1)
  {
  }

  /** The iris check is refused right after an OTP is issued. */
  lemma IrisNeedsVerifiedOtp(t: Table, voterId: string, phone: string, seed: OtpSeed, irisHash: string)
    requires voterId != "" && phone != "" && irisHash != ""
    ensures
      var t1 := SendOtpStep(t, voterId, phone, seed).voters;
      VerifyIrisStep(t1, voterId, phone, irisHash) == Outcome(OtpNotVerified, t1)
  {
  }

  /** A request whose voter id or phone is missing is refused and creates
      no record. */
  lemma MissingIdentityRejected(t: Table, req: Request)
    requires req.voterId == "" || req.phone == ""
    ensures Step(t, req) == Outcome(MissingData, t)
    ensures KeyOf(req) in Step(t, req).voters <==> KeyOf(req) in t
  {
  }

  /** A voter's whole flow: wrong code refused, right code accepted, a
      dataset sample accepted, the vote recorded once and refused the second
      time. */
  lemma VoterFlow(seed: OtpSeed, wrong: string)
    requires wrong != "" && wrong != GenerateOtp(seed)
    ensures
      var id, phone := "V1", "555-0100";
      var o1 := SendOtpStep(map[], id, phone, seed);
      var o2 := VerifyOtpStep(o1.voters, id, phone, wrong);
      var o3 := VerifyOtpStep(o2.voters, id, phone, GenerateOtp(seed));
      var o4 := VerifyIrisStep(o3.voters, id, phone, "iris_sample_01");
      var o5 := VoteStep(o4.voters, id, phone, "PartyA");
      var o6 := VoteStep(o5.voters, id, phone, "PartyA");
      && o1.status == Ok && o2.status == InvalidOtp && o3.status == Ok
      && o4.status == Ok && o5.status == Ok && o6.status == AlreadyVoted
      && o6.voters[(id, phone)].votedParty == "PartyA"
  {
    assert IrisMatches("iris_sample_01");
  }

  /** An unknown iris sample is refused after a verified OTP, and the record
      keeps no iris hash. */
  lemma UnknownIrisFlow(seed: OtpSeed)
    ensures
      var id, phone := "V2", "555-0200";
      var o1 := SendOtpStep(map[], id, phone, seed);
      var o2 := VerifyOtpStep(o1.voters, id, phone, GenerateOtp(seed));
      var o3 := VerifyIrisStep(o2.voters, id, phone, "unknown_sample");
      && o3.status == IrisFailed
      && o3.voters[(id, phone)].irisHash == ""
  {
    UnknownSampleRefused();
  }

  /** The vote requests of one voter for each of `parties`, in order. */
  function Votes(voterId: string, phone: string, parties: seq<string>): (reqs: seq<Request>)
    ensures |reqs| == |parties|
    ensures forall i :: 0 <= i < |parties| ==> reqs[i] == VoteReq(voterId, phone, parties[i])
  {
    if parties == [] then []
    else Votes(voterId, phone, parties[..|parties| - 1]) + [VoteReq(voterId, phone, parties[|parties| - 1])]
  }

  /** The first vote of an authenticated voter is recorded and keeps the
      authentication. */
  lemma FirstVote(t: Table, voterId: string, phone: string, party: string)
    requires voterId != "" && phone != "" && party != ""
    requires (voterId, phone) in t && !t[(voterId, phone)].hasVoted
    requires t[(voterId, phone)].otpVerified && t[(voterId, phone)].irisHash != ""
    ensures var o := Step(t, VoteReq(voterId, phone, party));
      && o.status == Ok
      && (voterId, phone) in o.voters
      && o.voters[(voterId, phone)].otpVerified && o.voters[(voterId, phone)].irisHash != ""
      && o.voters[(voterId, phone)].hasVoted && o.voters[(voterId, phone)].votedParty == party
  {
  }

  /** A further vote of an authenticated voter who has voted is refused and
      changes nothing. */
  lemma VoteAgain(t: Table, voterId: string, phone: string, party: string)
    requires voterId != "" && phone != "" && party != ""
    requires (voterId, phone) in t && t[(voterId, phone)].hasVoted
    requires t[(voterId, phone)].otpVerified && t[(voterId, phone)].irisHash != ""
    ensures Step(t, VoteReq(voterId, phone, party)) == Outcome(AlreadyVoted, t)
  {
  }

  /** Repeated votes of a fully authenticated voter: the first is recorded,
      every later one is refused as already voted, and the first party stays. */
  lemma {:induction false} RepeatedVotes(t: Table, voterId: string, phone: string, parties: seq<string>)
    requires voterId != "" && phone != "" && parties != []
    requires forall i :: 0 <= i < |parties| ==> parties[i] != ""
    requires (voterId, phone) in t
    requires t[(voterId, phone)].otpVerified && t[(voterId, phone)].irisHash != ""
    requires !t[(voterId, phone)].hasVoted
    ensures var r := Run(t, Votes(voterId, phone, parties));
      && r.statuses[0] == Ok
      && (forall i :: 1 <= i < |parties| ==> r.statuses[i] == AlreadyVoted)
      && (voterId, phone) in r.final
      && r.final[(voterId, phone)].otpVerified && r.final[(voterId, phone)].irisHash != ""
      && r.final[(voterId, phone)].hasVoted
      && r.final[(voterId, phone)].votedParty == parties[0]
    decreases |parties|
  {
    var n := |parties|;
    var reqs := Votes(voterId, phone, parties);
    var init := Votes(voterId, phone, parties[..n - 1]);
    var req := VoteReq(voterId, phone, parties[n - 1]);
    assert reqs == init + [req];
    var p := Run(t, init);
    var o := Step(p.final, req);
    assert Run(t, reqs) == Trace(o.voters, p.statuses + [o.status]);
    if n == 1 {
      assert init == [] && p == Trace(t, []);
      FirstVote(t, voterId, phone, parties[0]);
    } else {
      assert parties[..n - 1][0] == parties[0];
      RepeatedVotes(t, voterId, phone, parties[..n - 1]);
      VoteAgain(p.final, voterId, phone, parties[n - 1]);
    }
  }
}
