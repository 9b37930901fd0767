/**
 * `useNotifications` as an object: its two state fields, and the two
 * effects that replace them wholesale. The framework decides when each
 * effect runs; here each run is a method call whose inputs are the current
 * snapshots of the record subscriptions.
 */
module Hook {
  import opened Records
  import opened FeedOrder
  import opened Aggregation
  import opened ProofFilter

  class NotificationsState {
    /** The published feed: what the hook returns. */
    var notifications: seq<Notification>
    /** The proofs the last classification cycle judged not to be attestation requests. */
    var nonAttestationProofs: seq<Proof>

    /** The published feed is always newest first. */
    ghost predicate Valid()
      reads this
    {
      IsNewestFirst(notifications)
    }

    /** Both state fields start empty. */
    constructor ()
      ensures Valid()
      ensures notifications == [] && nonAttestationProofs == []
    {
      notifications := [];
      nonAttestationProofs := [];
    }

    /** The recomputation effect: rebuilds the feed and replaces `notifications` with it. */
    method RecomputeNotifications(basicMessages: seq<Message>, offers: seq<Credential>, credsDone: seq<Credential>)
      modifies this`notifications
      ensures Valid()
      ensures notifications == Feed(basicMessages, offers, credsDone, nonAttestationProofs)
    {
      var unseenMessages := UnseenMessages(basicMessages);
      var messagesToShow := MessagesToShow(unseenMessages);
      var revoked := PendingRevocations(credsDone);
      var proofs := ShownProofs(nonAttestationProofs);
      var notif := SortNewestFirst(
        MessageItems(messagesToShow) + CredentialItems(offers) + ProofItems(proofs) + CredentialItems(revoked));
      notifications := notif;
    }

    /**
     * The classification effect: once every classifier call has resolved,
     * replaces `nonAttestationProofs` with the proofs that are not
     * attestation requests; when a call rejected (`None`), nothing is replaced.
     */
    method ReclassifyProofs(proofsRequested: seq<Proof>, proofsDone: seq<Proof>, outcomes: seq<Option<bool>>)
      requires Valid()
      requires |outcomes| == |proofsRequested| + |proofsDone|
      modifies this`nonAttestationProofs
      ensures Valid()
      ensures match JoinVerdicts(outcomes)
        case Some(isAttestation) => nonAttestationProofs == FilterProofs(proofsRequested, proofsDone, isAttestation)
        case None => nonAttestationProofs == old(nonAttestationProofs)
    {
      var joined := JoinVerdicts(outcomes);
      if joined.Some? {
        nonAttestationProofs := FilterProofs(proofsRequested, proofsDone, joined.value);
      }
    }
  }

  /**
   * From the subscriptions to the feed: a proof is shown exactly when some
   * occurrence of it was classified as not an attestation request and it is
   * still worth showing.
   */
  lemma ProofReachesFeed(messages: seq<Message>, offers: seq<Credential>, credsDone: seq<Credential>,
                         proofsRequested: seq<Proof>, proofsDone: seq<Proof>, isAttestation: seq<bool>, p: Proof)
    requires |isAttestation| == |proofsRequested| + |proofsDone|
    ensures var proofs := proofsRequested + proofsDone;
      ProofItem(p) in Feed(messages, offers, credsDone, FilterProofs(proofsRequested, proofsDone, isAttestation)) <==>
        IsProofShown(p) && exists i :: 0 <= i < |proofs| && proofs[i] == p && !isAttestation[i]
  {
    ProofInFeed(messages, offers, credsDone, FilterProofs(proofsRequested, proofsDone, isAttestation), p);
    FilterProofsMembership(proofsRequested, proofsDone, isAttestation, p);
  }

  /** A proof classified as an attestation request wherever it occurs never reaches the feed, whatever its state. */
  lemma AttestationNeverInFeed(messages: seq<Message>, offers: seq<Credential>, credsDone: seq<Credential>,
                               proofsRequested: seq<Proof>, proofsDone: seq<Proof>, isAttestation: seq<bool>, p: Proof)
    requires |isAttestation| == |proofsRequested| + |proofsDone|
    requires forall i :: 0 <= i < |isAttestation| && (proofsRequested + proofsDone)[i] == p ==> isAttestation[i]
    ensures ProofItem(p) !in Feed(messages, offers, credsDone, FilterProofs(proofsRequested, proofsDone, isAttestation))
  {
    ProofReachesFeed(messages, offers, credsDone, proofsRequested, proofsDone, isAttestation, p);
  }

  /**
   * A Done, verified proof whose details are not yet seen is shown when the
   * classifier says it is not an attestation request, and hidden when it says it is.
   */
  lemma VerifiedProofScenario(p: Proof)
    requires p.state == ProofState.Done && p.isVerified.Some? && p.detailsSeen == Some(false)
    ensures ProofItem(p) in Feed([], [], [], FilterProofs([], [p], [false]))
    ensures ProofItem(p) !in Feed([], [], [], FilterProofs([], [p], [true]))
  {
    ProofReachesFeed([], [], [], [], [p], [false], p);
    assert ([] + [p])[0] == p;
    AttestationNeverInFeed([], [], [], [], [p], [true], p);
  }
}
