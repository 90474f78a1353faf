/** Reports that a DKG session failed, and when there are enough of them
    (src/dkg/dkg_msgs_utils.rs). A participant's public key is its name, hashes are injective, and a
    report is symbolic: it verifies for exactly the signer, session and non-participants it was
    made for.
 */
module DkgFailures {
  import opened Prefixes
  import opened Messaging
  import opened Quorum

  datatype DkgKey = DkgKey(names: set<Name>, prefix: Prefix, generation: nat)

  function KeyFor(candidates: ElderCandidates, generation: nat): DkgKey {
    DkgKey(candidates.elders.Keys, candidates.prefix, generation)
  }

  datatype FailureSignature = FailureSignature(signer: Name, dkgKey: DkgKey, nonParticipants: set<Name>)

  datatype FailureSigned = FailureSigned(publicKey: Name, signature: FailureSignature)

  function SignFailure(name: Name, nonParticipants: set<Name>, dkgKey: DkgKey): FailureSigned {
    FailureSigned(name, FailureSignature(name, dkgKey, nonParticipants))
  }

  predicate FailureVerifies(signed: FailureSigned, dkgKey: DkgKey, nonParticipants: set<Name>) {
    signed.signature == FailureSignature(signed.publicKey, dkgKey, nonParticipants)
  }

  datatype FailureSet = FailureSet(signeds: seq<FailureSigned>, nonParticipants: set<Name>)

  const NO_FAILURES: FailureSet := FailureSet([], {})

  predicate HasSigner(failures: FailureSet, name: Name) {
    exists signed :: signed in failures.signeds && signed.publicKey == name
  }

  /** The first non-empty set of non-participants stays, and each signer counts once. */
  function WithFailure(failures: FailureSet, signed: FailureSigned, nonParticipants: set<Name>): FailureSet {
    FailureSet(
      if HasSigner(failures, signed.publicKey) then failures.signeds else failures.signeds + [signed],
      if failures.nonParticipants == {} then nonParticipants else failures.nonParticipants)
  }

  /** More than `n - supermajority(n)` votes. */
  predicate HasFailureAgreement(participants: nat, votes: nat) {
    votes > participants - Supermajority(participants)
  }

  /** The votes of `failures` that count at an elder for `dkgKey`. */
  function ValidVotes(failures: FailureSet, elders: set<Name>, dkgKey: DkgKey, count: nat): nat
    requires count <= |failures.signeds|
  {
    if count == 0 then 0
    else
      var signed := failures.signeds[count - 1];
      ValidVotes(failures, elders, dkgKey, count - 1)
      + if signed.publicKey in elders && FailureVerifies(signed, dkgKey, failures.nonParticipants) then 1 else 0
  }

  predicate VerifyFailures(failures: FailureSet, candidates: ElderCandidates, generation: nat) {
    HasFailureAgreement(
      |candidates.elders|,
      ValidVotes(failures, candidates.elders.Keys, KeyFor(candidates, generation), |failures.signeds|))
  }

  class DkgFailureSignedSet {
    var signeds: seq<FailureSigned>
    var nonParticipants: set<Name>

    constructor ()
      ensures Value() == NO_FAILURES
    {
      signeds, nonParticipants := [], {};
    }

    ghost function Value(): FailureSet
      reads this
    {
      FailureSet(signeds, nonParticipants)
    }

    method Insert(signed: FailureSigned, named: set<Name>) returns (inserted: bool)
      modifies this
      ensures Value() == WithFailure(old(Value()), signed, named)
      ensures inserted == !HasSigner(old(Value()), signed.publicKey)
    {
      if nonParticipants == {} {
        nonParticipants := named;
      }
      var known := false;
      for i := 0 to |signeds|
        invariant signeds == old(signeds) && nonParticipants == WithFailure(old(Value()), signed, named).nonParticipants
        invariant known <==> exists j :: 0 <= j < i && signeds[j].publicKey == signed.publicKey
      {
        if signeds[i].publicKey == signed.publicKey {
          known := true;
        }
      }
      if known {
        return false;
      }
      signeds := signeds + [signed];
      return true;
    }
  }

  ghost function Signers(failures: FailureSet): set<Name> {
    set signed | signed in failures.signeds :: signed.publicKey
  }

  ghost predicate DistinctSigners(failures: FailureSet) {
    forall i, j :: 0 <= i < j < |failures.signeds| ==> failures.signeds[i].publicKey != failures.signeds[j].publicKey
  }

  /** Enough reports and not one more, from different candidates. */
  ghost predicate IsAgreement(failures: FailureSet, elders: set<Name>) {
    && |failures.signeds| == |elders| - Supermajority(|elders|) + 1
    && DistinctSigners(failures) && Signers(failures) <= elders
  }

  lemma {:induction false} SignersSize(failures: FailureSet)
    requires DistinctSigners(failures)
    ensures |Signers(failures)| == |failures.signeds|
    decreases |failures.signeds|
  {
    if failures.signeds != [] {
      var signeds := failures.signeds;
      var front, last := failures.(signeds := signeds[..|signeds| - 1]), signeds[|signeds| - 1];
      SignersSize(front);
      assert signeds == front.signeds + [last];
      assert Signers(failures) == Signers(front) + {last.publicKey};
    }
  }

  /** A failure agreement and a supermajority of the candidates always share a candidate, so a
      successful outcome can no longer gather a supermajority of others. */
  lemma AgreementBlocksSupermajority(failures: FailureSet, elders: set<Name>, majority: set<Name>)
    requires IsAgreement(failures, elders)
    requires majority <= elders && |majority| >= Supermajority(|elders|)
    ensures Signers(failures) * majority != {}
  {
    SignersSize(failures);
    UnionSize(Signers(failures), majority);
    SubsetSize(Signers(failures) + majority, elders);
  }

  /** With one report fewer the two can be disjoint: the threshold is tight. */
  lemma FewerReportsDoNotBlock(elders: set<Name>, signers: set<Name>)
    requires signers <= elders && |signers| <= |elders| - Supermajority(|elders|)
    ensures exists majority :: majority <= elders && |majority| >= Supermajority(|elders|) && signers * majority == {}
  {
    var majority := elders - signers;
    assert majority + signers == elders;
    assert majority <= elders && |majority| >= Supermajority(|elders|) && signers * majority == {};
  }

  lemma {:induction false} VotesBound(failures: FailureSet, elders: set<Name>, dkgKey: DkgKey, count: nat)
    requires count <= |failures.signeds|
    ensures ValidVotes(failures, elders, dkgKey, count) <= count
    ensures ValidVotes(failures, elders, dkgKey, count) == count <==>
            forall i :: 0 <= i < count ==>
              failures.signeds[i].publicKey in elders
              && FailureVerifies(failures.signeds[i], dkgKey, failures.nonParticipants)
    decreases count
  {
    if count > 0 {
      VotesBound(failures, elders, dkgKey, count - 1);
    }
  }

  /** An agreement made of valid reports passes verification at an elder with the same candidates and
      generation exactly when every reporter named the non-participants the set carries. */
  lemma AgreementVerifiesIff(failures: FailureSet, candidates: ElderCandidates, generation: nat)
    requires IsAgreement(failures, candidates.elders.Keys)
    requires forall signed :: signed in failures.signeds ==>
               FailureVerifies(signed, KeyFor(candidates, generation), signed.signature.nonParticipants)
    ensures VerifyFailures(failures, candidates, generation) <==>
            forall signed :: signed in failures.signeds ==> signed.signature.nonParticipants == failures.nonParticipants
  {
    var elders, dkgKey := candidates.elders.Keys, KeyFor(candidates, generation);
    VotesBound(failures, elders, dkgKey, |failures.signeds|);
    assert |candidates.elders| == |elders|;
    forall i | 0 <= i < |failures.signeds| ensures failures.signeds[i].publicKey in elders {
      assert failures.signeds[i].publicKey in Signers(failures);
    }
    if forall signed :: signed in failures.signeds ==> signed.signature.nonParticipants == failures.nonParticipants {
      assert forall i :: 0 <= i < |failures.signeds| ==> failures.signeds[i] in failures.signeds;
    }
    if VerifyFailures(failures, candidates, generation) {
      forall signed | signed in failures.signeds
        ensures signed.signature.nonParticipants == failures.nonParticipants
      {
        var i :| 0 <= i < |failures.signeds| && failures.signeds[i] == signed;
      }
    }
  }

  /** The report at `i` is by a candidate and valid for the session and the non-participants carried. */
  predicate CountsAt(failures: FailureSet, candidates: ElderCandidates, generation: nat, i: nat)
    requires i < |failures.signeds|
  {
    && failures.signeds[i].publicKey in candidates.elders
    && FailureVerifies(failures.signeds[i], KeyFor(candidates, generation), failures.nonParticipants)
  }

  lemma {:induction false} VotesAreCounted(failures: FailureSet, candidates: ElderCandidates, generation: nat, count: nat)
    requires count <= |failures.signeds|
    ensures ValidVotes(failures, candidates.elders.Keys, KeyFor(candidates, generation), count) ==
            |set i: nat | i < count && CountsAt(failures, candidates, generation, i)|
    decreases count
  {
    var now := set i: nat | i < count && CountsAt(failures, candidates, generation, i);
    if count > 0 {
      var before := set i: nat | i < count - 1 && CountsAt(failures, candidates, generation, i);
      VotesAreCounted(failures, candidates, generation, count - 1);
      assert now == if CountsAt(failures, candidates, generation, count - 1) then before + {count - 1} else before;
    }
  }

  /** A set of reports passes verification exactly when more of them count than all candidates but a
      supermajority. */
  lemma VerifiesIffEnoughCount(failures: FailureSet, candidates: ElderCandidates, generation: nat)
    ensures VerifyFailures(failures, candidates, generation) <==>
            |set i: nat | i < |failures.signeds| && CountsAt(failures, candidates, generation, i)|
            > |candidates.elders| - Supermajority(|candidates.elders|)
  {
    VotesAreCounted(failures, candidates, generation, |failures.signeds|);
  }

  /** Sessions with other candidates, another prefix or another generation have other keys. */
  lemma KeysDiffer(a: ElderCandidates, g: nat, b: ElderCandidates, h: nat)
    ensures KeyFor(a, g) == KeyFor(b, h) <==> a.elders.Keys == b.elders.Keys && a.prefix == b.prefix && g == h
  {
  }

  /** Reports made for one session never pass verification for another one. */
  lemma OtherSessionsRefuse(
      failures: FailureSet, a: ElderCandidates, g: nat, b: ElderCandidates, h: nat)
    requires forall signed :: signed in failures.signeds ==>
               FailureVerifies(signed, KeyFor(a, g), signed.signature.nonParticipants)
    requires b.elders != map[] && (a.elders.Keys != b.elders.Keys || a.prefix != b.prefix || g != h)
    ensures !VerifyFailures(failures, b, h)
  {
    VerifiesIffEnoughCount(failures, b, h);
    KeysDiffer(a, g, b, h);
    forall i: nat | i < |failures.signeds| ensures !CountsAt(failures, b, h, i) {
      assert failures.signeds[i] in failures.signeds;
    }
    assert (set i: nat | i < |failures.signeds| && CountsAt(failures, b, h, i)) == {};
    SupermajorityIsLeast(|b.elders|);
  }
}
