/**
 * The XRPL multisig prover's `get_proof` query
 * (contracts/xrpl-multisig-prover/src/query.rs): given a multisig session id,
 * it finds the transaction the session signs and reports either that signing
 * is still pending or the signed transaction blob.
 *
 * Contract storage is a pair of maps plus the optional config; the multisig
 * contract's query and the XRPL blob serialisation are not part of this model
 * and are taken as functions that may fail.
 */
module XrplProof {
  import opened Results
  import opened RustTypes

  /** A `u64` multisig session id. */
  type SessionId = U64

  /** The hash of an XRPL transaction, the key of the transaction-info map. */
  type TxHash = Bytes

  /** `CrossChainId`: the source chain and the message id on it. */
  datatype CrossChainId = CrossChainId(chain: string, id: string)

  /** The unsigned XRPL transaction; its fields are not part of this model. */
  datatype UnsignedTx = UnsignedTx(contents: Bytes)

  /** `TransactionInfo`: the message a transaction carries and the transaction itself. */
  datatype TransactionInfo = TransactionInfo(messageId: CrossChainId, unsignedContents: UnsignedTx)

  /** The prover's `Config`; only the multisig contract's address is read here. */
  datatype Config = Config(multisigAddress: string)

  /** The storage `get_proof` reads: `CONFIG`, `MULTISIG_SESSION_TX` and `TRANSACTION_INFO`. */
  datatype Storage = Storage(config: Option<Config>, sessionTx: map<SessionId, TxHash>, txInfo: map<TxHash, TransactionInfo>)

  datatype Signer = Signer(address: string, weight: nat, pubKey: Bytes)
  datatype Signature = Signature(bytes: Bytes)

  datatype MultisigState = Pending | Completed(completedAt: nat)

  /** The multisig contract's answer to `GetMultisig`: the state and each signer with its signature, if any. */
  datatype Multisig = Multisig(state: MultisigState, signers: seq<(Signer, Option<Signature>)>)

  /** `GetProofResponse`. */
  datatype GetProofResponse =
    | ProofCompleted(messageId: CrossChainId, txBlob: Bytes)
    | ProofPending(messageId: CrossChainId)

  /** The ways the query fails (each a `StdError` in the contract). */
  datatype QueryError =
    | ConfigNotFound
    | SessionNotFound
    | TransactionNotFound
    | MultisigQueryFailed(reason: string)
    | BlobFailed(reason: string)

  /** The smart query `GetMultisig { session_id }` sent to the contract at the given address. */
  type MultisigQuerier = (string, SessionId) -> Result<Multisig, string>

  /** `XRPLSignedPaymentTransaction::new` followed by its conversion to `HexBinary`. */
  type BlobEncoder = (UnsignedTx, seq<(Signer, Signature)>) -> Result<Bytes, string>

  /** The signers that supplied a signature, in their original order, with the signature unwrapped. */
  function SignedOnly(signers: seq<(Signer, Option<Signature>)>): (r: seq<(Signer, Signature)>)
    ensures |r| <= |signers|
  {
    if |signers| == 0 then []
    else
      var rest := SignedOnly(signers[1..]);
      match signers[0].1
      case Some(sig) => [(signers[0].0, sig)] + rest
      case None => rest
  }

  /** `get_proof`. */
  function GetProof(s: Storage, sessionId: SessionId, queryMultisig: MultisigQuerier, toBlob: BlobEncoder)
    : (r: Result<GetProofResponse, QueryError>)
    ensures s.config.None? ==> r == Err(ConfigNotFound)
    ensures s.config.Some? && sessionId !in s.sessionTx ==> r == Err(SessionNotFound)
    ensures s.config.Some? && sessionId in s.sessionTx && s.sessionTx[sessionId] !in s.txInfo ==> r == Err(TransactionNotFound)
    ensures r.Ok? ==> sessionId in s.sessionTx && s.sessionTx[sessionId] in s.txInfo
    ensures r.Ok? ==> r.value.messageId == s.txInfo[s.sessionTx[sessionId]].messageId
  {
    match s.config
    case None => Err(ConfigNotFound)
    case Some(config) =>
      if sessionId !in s.sessionTx then Err(SessionNotFound)
      else
        var txHash := s.sessionTx[sessionId];
        if txHash !in s.txInfo then Err(TransactionNotFound)
        else
          var info := s.txInfo[txHash];
          match queryMultisig(config.multisigAddress, sessionId)
          case Err(e) => Err(MultisigQueryFailed(e))
          case Ok(session) =>
            match session.state
            case Pending => Ok(ProofPending(info.messageId))
            case Completed(_) =>
              match toBlob(info.unsignedContents, SignedOnly(session.signers))
              case Err(e) => Err(BlobFailed(e))
              case Ok(blob) => Ok(ProofCompleted(info.messageId, blob))
  }

  // ---------------------------------------------------------------------------
  // The signer filter.
  // ---------------------------------------------------------------------------

  /** A pair is kept exactly when the session lists that signer with that signature. */
  lemma {:induction false} SignedOnlyMembers(signers: seq<(Signer, Option<Signature>)>, signer: Signer, sig: Signature)
    ensures (signer, sig) in SignedOnly(signers) <==> (signer, Some(sig)) in signers
  {
    if |signers| > 0 {
      SignedOnlyMembers(signers[1..], signer, sig);
      assert signers == [signers[0]] + signers[1..];
    }
  }

  /** Filtering a concatenation filters each part and keeps them in order. */
  lemma {:induction false} SignedOnlyAppend(xs: seq<(Signer, Option<Signature>)>, ys: seq<(Signer, Option<Signature>)>)
    ensures SignedOnly(xs + ys) == SignedOnly(xs) + SignedOnly(ys)
  {
    if |xs| > 0 {
      assert (xs + ys)[1..] == xs[1..] + ys;
      SignedOnlyAppend(xs[1..], ys);
    } else {
      assert xs + ys == ys;
    }
  }

  /** When every signer signed, nothing is dropped: the result lists them all, in order, unwrapped. */
  lemma {:induction false} SignedOnlyAllSigned(signers: seq<(Signer, Option<Signature>)>)
    requires forall i :: 0 <= i < |signers| ==> signers[i].1.Some?
    ensures |SignedOnly(signers)| == |signers|
    ensures forall i :: 0 <= i < |signers| ==> SignedOnly(signers)[i] == (signers[i].0, signers[i].1.value)
  {
    if |signers| > 0 {
      SignedOnlyAllSigned(signers[1..]);
    }
  }

  /** When nobody signed, the completed transaction is assembled with no signers at all. */
  lemma {:induction false} SignedOnlyNoneSigned(signers: seq<(Signer, Option<Signature>)>)
    requires forall i :: 0 <= i < |signers| ==> signers[i].1.None?
    ensures SignedOnly(signers) == []
  {
    if |signers| > 0 {
      SignedOnlyNoneSigned(signers[1..]);
    }
  }

  // ---------------------------------------------------------------------------
  // The query.
  // ---------------------------------------------------------------------------

  /** The session the query asks the multisig contract about, when storage knows the session. */
  predicate Resolves(s: Storage, sessionId: SessionId) {
    s.config.Some? && sessionId in s.sessionTx && s.sessionTx[sessionId] in s.txInfo
  }

  /** A pending session is reported as pending, with the stored message id. */
  lemma {:induction false} GetProofPending(s: Storage, sessionId: SessionId, queryMultisig: MultisigQuerier, toBlob: BlobEncoder)
    requires Resolves(s, sessionId)
    requires queryMultisig(s.config.value.multisigAddress, sessionId).Ok?
    requires queryMultisig(s.config.value.multisigAddress, sessionId).value.state.Pending?
    ensures GetProof(s, sessionId, queryMultisig, toBlob) == Ok(ProofPending(s.txInfo[s.sessionTx[sessionId]].messageId))
  {
  }

  /**
   * A completed session yields the blob built from the stored transaction and
   * the signers that signed; a failing serialisation is the query's error.
   */
  lemma {:induction false} GetProofCompleted(s: Storage, sessionId: SessionId, queryMultisig: MultisigQuerier, toBlob: BlobEncoder)
    requires Resolves(s, sessionId)
    requires queryMultisig(s.config.value.multisigAddress, sessionId).Ok?
    requires queryMultisig(s.config.value.multisigAddress, sessionId).value.state.Completed?
    ensures var info := s.txInfo[s.sessionTx[sessionId]];
            var session := queryMultisig(s.config.value.multisigAddress, sessionId).value;
            var blob := toBlob(info.unsignedContents, SignedOnly(session.signers));
            GetProof(s, sessionId, queryMultisig, toBlob)
              == if blob.Ok? then Ok(ProofCompleted(info.messageId, blob.value)) else Err(BlobFailed(blob.error))
  {
  }

  /**
   * The answer depends only on the config, the session's own entry and its
   * transaction's entry: storage written for other sessions cannot change it.
   */
  lemma {:induction false} GetProofLocal(s: Storage, t: Storage, sessionId: SessionId, queryMultisig: MultisigQuerier, toBlob: BlobEncoder)
    requires s.config == t.config
    requires sessionId in s.sessionTx <==> sessionId in t.sessionTx
    requires sessionId in s.sessionTx ==> s.sessionTx[sessionId] == t.sessionTx[sessionId]
    requires sessionId in s.sessionTx ==>
      (s.sessionTx[sessionId] in s.txInfo <==> s.sessionTx[sessionId] in t.txInfo)
    requires sessionId in s.sessionTx && s.sessionTx[sessionId] in s.txInfo ==>
      s.txInfo[s.sessionTx[sessionId]] == t.txInfo[s.sessionTx[sessionId]]
    ensures GetProof(s, sessionId, queryMultisig, toBlob) == GetProof(t, sessionId, queryMultisig, toBlob)
  {
  }
}
