/**
 * The records the notification feed reads. Each record belongs to the
 * wallet's storage; the feed only reads the fields below. A metadata flag
 * that may be absent is an `Option`: `None` stands for a missing custom
 * metadata object, a missing key, `undefined` or `null`.
 */
module Records {

  datatype Option<T> = None | Some(value: T)

  /** A basic (chat) message. `seen` is the `seen` flag of its custom metadata. */
  datatype Message = Message(id: string, connectionId: string, createdAt: int, seen: Option<bool>)

  datatype CredentialState = OfferReceived | CredentialReceived | Done

  /**
   * A credential exchange. `hasRevocationNotification` says whether the
   * record carries a revocation notification; `revokedSeen` is the
   * `revoked_seen` flag of its custom metadata.
   */
  datatype Credential = Credential(
    id: string,
    createdAt: int,
    state: CredentialState,
    hasRevocationNotification: bool,
    revokedSeen: Option<bool>)

  datatype ProofState = RequestReceived | PresentationReceived | Done

  /**
   * A proof exchange. `isVerified` is `None` while the verification result is
   * undefined; `detailsSeen` is the `details_seen` flag of its custom metadata.
   */
  datatype Proof = Proof(
    id: string,
    createdAt: int,
    state: ProofState,
    isVerified: Option<bool>,
    detailsSeen: Option<bool>)

  /** One entry of the feed: the record itself, tagged with its kind. */
  datatype Notification =
    | MessageItem(message: Message)
    | CredentialItem(credential: Credential)
    | ProofItem(proof: Proof)
  {
    function CreatedAt(): int {
      match this
      case MessageItem(m) => m.createdAt
      case CredentialItem(c) => c.createdAt
      case ProofItem(p) => p.createdAt
    }
  }
}
