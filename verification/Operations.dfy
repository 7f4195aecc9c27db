/** Signed operations (gossip/store.go). Keys, signatures and digests are symbolic: a
    signature names its signer and the content it covers, a digest determines what was
    hashed, and a node ID stands for the public key it is the digest of. */
module Operations {
  import opened Strings
  import opened Wrappers

  type NodeId = string

  type Uint64 = n: int | 0 <= n < 0x1_0000_0000_0000_0000

  /** A `None` expiry is an absent or unreadable `expires_at`. */
  datatype ProposalPayload = ProposalPayload(
    proposalId: string, ref: string, oldOid: string, newOid: string, epoch: Uint64, expiresAt: Option<int>)

  datatype VotePayload = VotePayload(proposalId: string, epoch: Uint64, decision: string)

  datatype CertificationPayload = CertificationPayload(
    proposalId: string, epoch: Uint64, threshold: real, totalVoters: nat, requiredYes: int,
    yesVoters: seq<NodeId>, noVoters: seq<NodeId>, certified: bool)

  /** The payloads the consensus layer decodes; `Event` is every other operation,
      including one whose payload does not decode. */
  datatype Payload =
    | Proposal(proposal: ProposalPayload)
    | Vote(vote: VotePayload)
    | Cert(cert: CertificationPayload)
    | Event(kind: string, text: string)
  {
    function Type(): string {
      match this
      case Proposal(_) => "consensus.proposal"
      case Vote(_) => "consensus.vote"
      case Cert(_) => "consensus.cert"
      case Event(kind, _) => kind
    }
  }

  /** What a signature covers (`canonicalOperationBytes`). */
  datatype Content = Content(author: NodeId, seqNo: Uint64, timestamp: int, payload: Payload)

  datatype Signature = Unsigned | Signed(signer: NodeId, content: Content)

  datatype OpId = NoId | Digest(content: Content, signature: Signature)

  datatype Operation = Operation(id: OpId, author: NodeId, seqNo: Uint64, timestamp: int, payload: Payload,
                                 signature: Signature)
  {
    function Signable(): Content {
      Content(author, seqNo, timestamp, payload)
    }
  }

  datatype VerifyError = MissingId | MissingType | MissingAuthor | ZeroSeq | BadSignature | WrongId

  /** `verifyOperation`: the first check that fails, if any. */
  function Verify(op: Operation): Option<VerifyError> {
    if op.id == NoId then Some(MissingId)
    else if TrimSpace(op.payload.Type()) == "" then Some(MissingType)
    else if TrimSpace(op.author) == "" then Some(MissingAuthor)
    else if op.seqNo == 0 then Some(ZeroSeq)
    else if op.signature != Signed(op.author, op.Signable()) then Some(BadSignature)
    else if op.id != Digest(op.Signable(), op.signature) then Some(WrongId)
    else None
  }

  predicate Valid(op: Operation) {
    Verify(op).None?
  }

  /** `signOperation` applied to a new operation. */
  function Sign(author: NodeId, seqNo: Uint64, timestamp: int, payload: Payload): Operation {
    var content := Content(author, seqNo, timestamp, payload);
    var signature := Signed(author, content);
    Operation(Digest(content, signature), author, seqNo, timestamp, payload, signature)
  }

  /** Exactly the operations a key holder signs verify: nobody can alter one field of a
      valid operation, and an ID names one operation. */
  lemma ValidIffSigned(op: Operation)
    ensures Valid(op) <==>
            && op == Sign(op.author, op.seqNo, op.timestamp, op.payload)
            && op.seqNo > 0 && TrimSpace(op.author) != "" && TrimSpace(op.payload.Type()) != ""
  {
    var s := Sign(op.author, op.seqNo, op.timestamp, op.payload);
    assert s.Signable() == op.Signable();
  }

  lemma SameIdSameOperation(x: Operation, y: Operation)
    requires Valid(x) && Valid(y) && x.id == y.id
    ensures x == y
  {
    ValidIffSigned(x);
    ValidIffSigned(y);
  }

  /** Which check a refused operation fails: the first, in the order of the source. */
  lemma VerifyReports(op: Operation)
    ensures Verify(op) == Some(MissingId) <==> op.id == NoId
    ensures Verify(op) == Some(MissingType) <==> op.id != NoId && TrimSpace(op.payload.Type()) == ""
    ensures Verify(op) == Some(MissingAuthor) <==>
      op.id != NoId && TrimSpace(op.payload.Type()) != "" && TrimSpace(op.author) == ""
    ensures Verify(op) == Some(ZeroSeq) <==>
      op.id != NoId && TrimSpace(op.payload.Type()) != "" && TrimSpace(op.author) != "" && op.seqNo == 0
    ensures Verify(op) == Some(WrongId) ==> op.signature == Signed(op.author, op.Signable())
    ensures Verify(op) == Some(BadSignature) ==> op.signature != Signed(op.author, op.Signable())
  {
    hide TrimSpace;
  }

  /** `authorSeqKey`. */
  function AuthorSeqKey(author: NodeId, seqNo: Uint64): string {
    author + ":" + Decimal(seqNo)
  }

  lemma AuthorSeqKeyInjective(a: NodeId, s: Uint64, b: NodeId, t: Uint64)
    requires AuthorSeqKey(a, s) == AuthorSeqKey(b, t)
    ensures a == b && s == t
  {
    assert ':' !in Decimal(s) && ':' !in Decimal(t);
    ColonSplit(a, Decimal(s), b, Decimal(t));
    DecimalInjective(s, t);
  }

  predicate SameKey(x: Operation, y: Operation) {
    x.author == y.author && x.seqNo == y.seqNo
  }

  /** The order of `Ops` and `MissingFor`: by author, then sequence. */
  predicate KeyLess(x: Operation, y: Operation) {
    Less(x.author, y.author) || (x.author == y.author && x.seqNo < y.seqNo)
  }
}
