/** The voter records of server.js and the four route handlers as pure
    transitions over the store: each takes the store and the request fields
    and gives the response status and the store the handler leaves behind. */
module Voters {
  import opened Otp
  import opened Iris

  /** One document of `voterSchema`. The identity fields `voterId` and `phone`
      are the record's key in the store and are not repeated here. */
  datatype Voter = Voter(
    otp: string,
    otpVerified: bool,
    irisHash: string,
    hasVoted: bool,
    votedParty: string)

  /** The lookup key `{ voterId, phone }` every handler uses. */
  type Key = (string, string)

  /** The `Voter` collection: at most one record per key. */
  type Table = map<Key, Voter>

  /** The responses of the handlers: `Ok` is the 200 reply, the others the
      error replies, one per error condition. `MissingData` stands for both
      missing-input replies, whose texts differ between send-otp and the
      other routes. */
  datatype Status =
    | Ok              // 200, "OTP sent" / "OTP verified" / "Iris verified" / "Vote successfully recorded"
    | MissingData     // 400, "Voter ID and phone required" / "Missing data"
    | NotFound        // 404, "Voter not found"
    | InvalidOtp      // 400, "Invalid OTP"
    | OtpNotVerified  // 400, "OTP not verified"
    | IrisFailed      // 400, "Iris verification failed"
    | AuthIncomplete  // 400, "Authentication incomplete"
    | AlreadyVoted    // 400, "Already voted"

  datatype Outcome = Outcome(status: Status, voters: Table)

  /** The HTTP status code each response is sent with. */
  function HttpCode(s: Status): (code: int)
    ensures code == 200 <==> s == Ok
    ensures code == 404 <==> s == NotFound
    ensures code == 200 || code == 400 || code == 404
  {
    match s
    case Ok => 200
    case NotFound => 404
    case _ => 400
  }

  /** The document send-otp creates for an unknown key, before its OTP is set. */
  const NewVoter := Voter("", false, "", false, "")

  /** The records under every key other than `key` are exactly as before, and
      no key other than `key` appears or disappears. */
  ghost predicate OthersUnchanged(t: Table, t': Table, key: Key) {
    && (forall k :: k in t && k != key ==> k in t' && t'[k] == t[k])
    && (forall k :: k in t' && k != key ==> k in t)
  }

  /** POST /api/send-otp: find or create the record, store a fresh OTP and
      clear `otpVerified`. */
  function SendOtpStep(t: Table, voterId: string, phone: string, seed: OtpSeed): (o: Outcome)
    ensures o.status == Ok || o.status == MissingData
    ensures o.status == MissingData <==> voterId == "" || phone == ""
    ensures o.status == MissingData ==> o.voters == t
    ensures o.status == Ok ==>
      var key := (voterId, phone);
      && key in o.voters
      && OthersUnchanged(t, o.voters, key)
      && o.voters[key].otp == GenerateOtp(seed)
      && !o.voters[key].otpVerified
      && (key in t ==>
            && o.voters[key].irisHash == t[key].irisHash
            && o.voters[key].hasVoted == t[key].hasVoted
            && o.voters[key].votedParty == t[key].votedParty)
      && (key !in t ==>
            && o.voters[key].irisHash == ""
            && !o.voters[key].hasVoted
            && o.voters[key].votedParty == "")
  {
    if voterId == "" || phone == "" then Outcome(MissingData, t)
    else
      var key := (voterId, phone);
      var voter := if key in t then t[key] else NewVoter;
      Outcome(Ok, t[key := voter.(otp := GenerateOtp(seed), otpVerified := false)])
  }

  /** POST /api/verify-otp: exact comparison with the stored OTP, which is
      left in place. */
  function VerifyOtpStep(t: Table, voterId: string, phone: string, otp: string): (o: Outcome)
    ensures o.status in {Ok, MissingData, NotFound, InvalidOtp}
    ensures o.status == MissingData <==> voterId == "" || phone == "" || otp == ""
    ensures o.status == NotFound <==>
      voterId != "" && phone != "" && otp != "" && (voterId, phone) !in t
    ensures o.status == InvalidOtp <==>
      voterId != "" && phone != "" && otp != "" && (voterId, phone) in t
      && t[(voterId, phone)].otp != otp
    ensures o.status == Ok <==>
      otp != "" && (voterId, phone) in t && t[(voterId, phone)].otp == otp && voterId != "" && phone != ""
    ensures o.status != Ok ==> o.voters == t
    ensures o.status == Ok ==>
      var key := (voterId, phone);
      && key in o.voters
      && OthersUnchanged(t, o.voters, key)
      && o.voters[key] == t[key].(otpVerified := true)
  {
    if voterId == "" || phone == "" || otp == "" then Outcome(MissingData, t)
    else
      var key := (voterId, phone);
      if key !in t then Outcome(NotFound, t)
      else if t[key].otp == otp then Outcome(Ok, t[key := t[key].(otpVerified := true)])
      else Outcome(InvalidOtp, t)
  }

  /** POST /api/verify-iris: only after the OTP is verified, and only for a
      sample in the dataset, which then becomes the record's `irisHash`. */
  function VerifyIrisStep(t: Table, voterId: string, phone: string, irisHash: string): (o: Outcome)
    ensures o.status in {Ok, MissingData, NotFound, OtpNotVerified, IrisFailed}
    ensures o.status == MissingData <==> voterId == "" || phone == "" || irisHash == ""
    ensures o.status == NotFound <==>
      voterId != "" && phone != "" && irisHash != "" && (voterId, phone) !in t
    ensures o.status == OtpNotVerified <==>
      voterId != "" && phone != "" && irisHash != "" && (voterId, phone) in t
      && !t[(voterId, phone)].otpVerified
    ensures o.status == IrisFailed <==>
      voterId != "" && phone != "" && irisHash != "" && (voterId, phone) in t
      && t[(voterId, phone)].otpVerified && !IrisMatches(irisHash)
    ensures o.status == Ok <==>
      voterId != "" && phone != "" && (voterId, phone) in t
      && t[(voterId, phone)].otpVerified && IrisMatches(irisHash)
    ensures o.status != Ok ==> o.voters == t
    ensures o.status == Ok ==>
      var key := (voterId, phone);
      && key in o.voters
      && OthersUnchanged(t, o.voters, key)
      && o.voters[key] == t[key].(irisHash := irisHash)
  {
    if voterId == "" || phone == "" || irisHash == "" then Outcome(MissingData, t)
    else
      var key := (voterId, phone);
      if key !in t then Outcome(NotFound, t)
      else if !t[key].otpVerified then Outcome(OtpNotVerified, t)
      else if IrisMatches(irisHash) then Outcome(Ok, t[key := t[key].(irisHash := irisHash)])
      else Outcome(IrisFailed, t)
  }

  /** POST /api/vote: both factors must be verified, and the `hasVoted` latch
      must still be open; then the vote is recorded. */
  function VoteStep(t: Table, voterId: string, phone: string, party: string): (o: Outcome)
    ensures o.status in {Ok, MissingData, NotFound, AuthIncomplete, AlreadyVoted}
    ensures o.status == MissingData <==> voterId == "" || phone == "" || party == ""
    ensures o.status == NotFound <==>
      voterId != "" && phone != "" && party != "" && (voterId, phone) !in t
    ensures o.status == AuthIncomplete <==>
      voterId != "" && phone != "" && party != "" && (voterId, phone) in t
      && (!t[(voterId, phone)].otpVerified || t[(voterId, phone)].irisHash == "")
    ensures o.status == AlreadyVoted <==>
      voterId != "" && phone != "" && party != "" && (voterId, phone) in t
      && t[(voterId, phone)].otpVerified && t[(voterId, phone)].irisHash != ""
      && t[(voterId, phone)].hasVoted
    ensures o.status == Ok <==>
      voterId != "" && phone != "" && party != "" && (voterId, phone) in t
      && t[(voterId, phone)].otpVerified && t[(voterId, phone)].irisHash != ""
      && !t[(voterId, phone)].hasVoted
    ensures o.status != Ok ==> o.voters == t
    ensures o.status == Ok ==>
      var key := (voterId, phone);
      && key in o.voters
      && OthersUnchanged(t, o.voters, key)
      && o.voters[key] == t[key].(hasVoted := true, votedParty := party)
  {
    if voterId == "" || phone == "" || party == "" then Outcome(MissingData, t)
    else
      var key := (voterId, phone);
      if key !in t then Outcome(NotFound, t)
      else if !t[key].otpVerified || t[key].irisHash == "" then Outcome(AuthIncomplete, t)
      else if t[key].hasVoted then Outcome(AlreadyVoted, t)
      else Outcome(Ok, t[key := t[key].(hasVoted := true, votedParty := party)])
  }

  /** What every stored record satisfies, given that records only enter the
      store through send-otp and change only through the handlers above. */
  ghost predicate ValidRecord(v: Voter) {
    && IsOtpCode(v.otp)
    && (v.irisHash != "" ==> IrisMatches(v.irisHash))
    && (v.hasVoted ==> v.votedParty != "" && v.irisHash != "")
  }

  ghost predicate Inv(t: Table) {
    forall k :: k in t ==> ValidRecord(t[k])
  }

  lemma SendOtpKeepsInv(t: Table, voterId: string, phone: string, seed: OtpSeed)
    requires Inv(t)
    ensures Inv(SendOtpStep(t, voterId, phone, seed).voters)
  {
  }

  lemma VerifyOtpKeepsInv(t: Table, voterId: string, phone: string, otp: string)
    requires Inv(t)
    ensures Inv(VerifyOtpStep(t, voterId, phone, otp).voters)
  {
  }

  lemma VerifyIrisKeepsInv(t: Table, voterId: string, phone: string, irisHash: string)
    requires Inv(t)
    ensures Inv(VerifyIrisStep(t, voterId, phone, irisHash).voters)
  {
  }

  lemma VoteKeepsInv(t: Table, voterId: string, phone: string, party: string)
    requires Inv(t)
    ensures Inv(VoteStep(t, voterId, phone, party).voters)
  {
  }
}
