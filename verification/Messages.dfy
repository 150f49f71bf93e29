/** Identities, signatures and the messages they cover. Identities are 32-byte public keys, read as
    big-endian numbers. Signatures are ideal: a signature is the fact that a key signed a message, and
    each domain tag with its canonical encoding is one constructor of `Msg`. */
module Messages {

  type Id = nat
  type Bytes = seq<nat>

  /** One write to an account's nonce slot, with the account owner's authorisation. */
  datatype SequencedWrite = SequencedWrite(account: Id, nonce: nat, payload: Bytes, ownerSig: Signature)

  datatype Action =
    | Statement(statement: Bytes)
    | SetProgram(program: string, cid: nat)
    | SetConfig(key: string, value: int)
    | AddMember(added: Id)
    | RemoveMember(removed: Id)
    | SetThreshold(threshold: nat)

  datatype Proposal = Proposal(action: Action, seqNo: nat)

  /** Which domain tag a proposal is signed under. */
  datatype Domain = Attestations | Governance

  datatype Msg =
    | OwnerMsg(account: Id, nonce: nat, payload: Bytes)
    | OrderMsg(write: SequencedWrite)
    | ProposalMsg(domain: Domain, proposal: Proposal)
    | HeadMsg(owner: Id, name: string, cid: nat, version: nat)
    | ChequeMsg(server: Id, consumer: Id, cumulative: nat, timestamp: nat)

  datatype Signature = Signed(signer: Id, msg: Msg) | Junk(bytes: Bytes)

  datatype MemberSignature = MemberSignature(member: Id, signature: Signature)

  predicate Verifies(id: Id, msg: Msg, sig: Signature) {
    sig == Signed(id, msg)
  }
}
