/** The Express application of server.js with the store in memory: one
    object holding the `Voter` collection and one method per route. Each
    method loads the record for the key, changes its fields and saves it back,
    as the handlers do, and is proved to do what the corresponding transition
    in module Voters describes. */
module Server {
  import opened Otp
  import opened Iris
  import opened Voters

  class VotingServer {
    /** The `Voter` collection, keyed by `(voterId, phone)`. */
    var voters: Table

    ghost predicate Valid()
      reads this
    {
      Inv(voters)
    }

    /** A server started on an empty collection. */
    constructor ()
      ensures Valid() && voters == map[]
    {
      voters := map[];
    }

    /** POST /api/send-otp. The SMS that the source logs is not modelled. */
    method SendOtp(voterId: string, phone: string, seed: OtpSeed) returns (status: Status)
      requires Valid()
      modifies this
      ensures Valid()
      ensures Outcome(status, voters) == SendOtpStep(old(voters), voterId, phone, seed)
    {
      SendOtpKeepsInv(voters, voterId, phone, seed);
      if voterId == "" || phone == "" {
        return MissingData;
      }
      var key := (voterId, phone);
      var voter: Voter;
      if key in voters {
        voter := voters[key];
      } else {
        voter := NewVoter;
      }
      var otp := GenerateOtp(seed);
      voter := voter.(otp := otp);
      voter := voter.(otpVerified := false);
      voters := voters[key := voter];
      status := Ok;
    }

    /** POST /api/verify-otp. */
    method VerifyOtp(voterId: string, phone: string, otp: string) returns (status: Status)
      requires Valid()
      modifies this
      ensures Valid()
      ensures Outcome(status, voters) == VerifyOtpStep(old(voters), voterId, phone, otp)
    {
      VerifyOtpKeepsInv(voters, voterId, phone, otp);
      if voterId == "" || phone == "" || otp == "" {
        return MissingData;
      }
      var key := (voterId, phone);
      if key !in voters {
        return NotFound;
      }
      var voter := voters[key];
      if voter.otp == otp {
        voter := voter.(otpVerified := true);
        voters := voters[key := voter];
        status := Ok;
      } else {
        status := InvalidOtp;
      }
    }

    /** POST /api/verify-iris. */
    method VerifyIris(voterId: string, phone: string, irisHash: string) returns (status: Status)
      requires Valid()
      modifies this
      ensures Valid()
      ensures Outcome(status, voters) == VerifyIrisStep(old(voters), voterId, phone, irisHash)
    {
      VerifyIrisKeepsInv(voters, voterId, phone, irisHash);
      if voterId == "" || phone == "" || irisHash == "" {
        return MissingData;
      }
      var key := (voterId, phone);
      if key !in voters {
        return NotFound;
      }
      var voter := voters[key];
      if !voter.otpVerified {
        return OtpNotVerified;
      }
      if Includes(IrisDataset, irisHash) {
        voter := voter.(irisHash := irisHash);
        voters := voters[key := voter];
        status := Ok;
      } else {
        status := IrisFailed;
      }
    }

    /** POST /api/vote. The confirmation SMS that the source logs is not
        modelled. */
    method Vote(voterId: string, phone: string, party: string) returns (status: Status)
      requires Valid()
      modifies this
      ensures Valid()
      ensures Outcome(status, voters) == VoteStep(old(voters), voterId, phone, party)
    {
      VoteKeepsInv(voters, voterId, phone, party);
      if voterId == "" || phone == "" || party == "" {
        return MissingData;
      }
      var key := (voterId, phone);
      if key !in voters {
        return NotFound;
      }
      var voter := voters[key];
      if !voter.otpVerified || voter.irisHash == "" {
        return AuthIncomplete;
      }
      if voter.hasVoted {
        return AlreadyVoted;
      }
      voter := voter.(hasVoted := true);
      voter := voter.(votedParty := party);
      voters := voters[key := voter];
      status := Ok;
    }
  }
}
