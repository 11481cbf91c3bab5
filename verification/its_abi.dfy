/**
 * The Interchain Token Service (ITS) payload codec: `Message` and `HubMessage`
 * with their `abi_encode` / `abi_decode` (contracts/interchain-token-service/src/abi.rs).
 *
 * Every variant is encoded as an ABI parameter tuple whose first field is the
 * variant's `MessageType` ordinal as a `uint256`. A hub message carries the
 * already-encoded inner `Message` as a `bytes` field.
 */
module ItsAbi {
  import opened Results
  import opened RustTypes
  import opened AbiWord
  import opened AbiParams

  /** The `Error` enum of the codec. */
  datatype Error = MessageDecodeFailed | InvalidMessageType | InvalidChainName | InvalidTokenManagerType

  /** The Solidity `MessageType` enum, in declaration order. */
  datatype MessageType = InterchainTransfer | DeployInterchainToken | DeployTokenManager | SendToHub | ReceiveFromHub

  /** `MessageType as u8`, the value written into the first word of every payload. */
  function MessageTypeOrdinal(t: MessageType): U8 {
    match t
    case InterchainTransfer => 0
    case DeployInterchainToken => 1
    case DeployTokenManager => 2
    case SendToHub => 3
    case ReceiveFromHub => 4
  }

  /** `MessageType::abi_decode` of a first word: the enum variant whose ordinal the word holds, if any. */
  function MessageTypeFromWord(w: U256): (r: Option<MessageType>)
    ensures r.Some? <==> w < 5
    ensures r.Some? ==> MessageTypeOrdinal(r.value) == w
  {
    if w == 0 then Some(MessageType.InterchainTransfer)
    else if w == 1 then Some(MessageType.DeployInterchainToken)
    else if w == 2 then Some(MessageType.DeployTokenManager)
    else if w == 3 then Some(MessageType.SendToHub)
    else if w == 4 then Some(MessageType.ReceiveFromHub)
    else None
  }

  /** The word written for a message type is a valid type word and reads back as that type. */
  lemma {:induction false} MessageTypeRoundTrip(t: MessageType)
    ensures MessageTypeOrdinal(t) < 5
    ensures MessageTypeFromWord(MessageTypeOrdinal(t)) == Some(t)
  {
  }

  /** The kinds of token manager an ITS deployment can request; `Gateway` is the last. */
  datatype TokenManagerType = NativeInterchainToken | MintBurnFrom | LockUnlock | LockUnlockFee | MintBurn | Gateway

  /** `TokenManagerType as u8`. */
  function TokenManagerTypeOrdinal(t: TokenManagerType): U8 {
    match t
    case NativeInterchainToken => 0
    case MintBurnFrom => 1
    case LockUnlock => 2
    case LockUnlockFee => 3
    case MintBurn => 4
    case Gateway => 5
  }

  /** `TokenManagerType::from_repr`: the variant with a given `u8` discriminant. */
  function TokenManagerTypeFromRepr(b: U8): Option<TokenManagerType> {
    if b == 0 then Some(NativeInterchainToken)
    else if b == 1 then Some(MintBurnFrom)
    else if b == 2 then Some(LockUnlock)
    else if b == 3 then Some(LockUnlockFee)
    else if b == 4 then Some(MintBurn)
    else if b == 5 then Some(Gateway)
    else None
  }

  /** `u8::try_from(word)` followed by `from_repr`: both steps fail the same way. */
  function TokenManagerTypeFromWord(w: U256): (r: Option<TokenManagerType>)
    ensures r.Some? <==> w <= TokenManagerTypeOrdinal(Gateway)
    ensures r.Some? ==> TokenManagerTypeOrdinal(r.value) == w
  {
    if w < 256 then TokenManagerTypeFromRepr(w) else None
  }

  /** The word written for a token manager type is at most `Gateway`'s and reads back as that type. */
  lemma {:induction false} TokenManagerTypeRoundTrip(t: TokenManagerType)
    ensures TokenManagerTypeOrdinal(t) <= TokenManagerTypeOrdinal(Gateway)
    ensures TokenManagerTypeFromWord(TokenManagerTypeOrdinal(t)) == Some(t)
  {
  }

  /**
   * An ITS message. Addresses, data and parameters are raw bytes; `name` and
   * `symbol` are Rust `String`s, carried as their UTF-8 bytes.
   */
  datatype Message =
    | InterchainTransfer(tokenId: Bytes32, sourceAddress: RustBytes, destinationAddress: RustBytes, amount: U256, data: RustBytes)
    | DeployInterchainToken(tokenId: Bytes32, name: RustBytes, symbol: RustBytes, decimals: U8, minter: RustBytes)
    | DeployTokenManager(tokenId: Bytes32, tokenManagerType: TokenManagerType, params: RustBytes)

  /** A message routed through the ITS hub; the chain name is the UTF-8 bytes of a `ChainNameRaw`. */
  datatype HubMessage =
    | SendToHub(destinationChain: RustBytes, message: Message)
    | ReceiveFromHub(sourceChain: RustBytes, message: Message)

  /** The rule `ChainNameRaw::try_from` applies to a decoded chain name; the model treats it as a parameter. */
  type ChainNameRule = Bytes -> bool

  function TypeOf(m: Message): MessageType {
    match m
    case InterchainTransfer(_, _, _, _, _) => MessageType.InterchainTransfer
    case DeployInterchainToken(_, _, _, _, _) => MessageType.DeployInterchainToken
    case DeployTokenManager(_, _, _) => MessageType.DeployTokenManager
  }

  function HubTypeOf(h: HubMessage): MessageType {
    match h
    case SendToHub(_, _) => MessageType.SendToHub
    case ReceiveFromHub(_, _) => MessageType.ReceiveFromHub
  }

  function ChainOf(h: HubMessage): RustBytes {
    match h
    case SendToHub(chain, _) => chain
    case ReceiveFromHub(chain, _) => chain
  }

  /** The hub message of type `t` (`SendToHub` or `ReceiveFromHub`) with the given chain name and inner message. */
  function MakeHub(t: MessageType, chain: RustBytes, m: Message): HubMessage
    requires t.SendToHub? || t.ReceiveFromHub?
  {
    if t.SendToHub? then HubMessage.SendToHub(chain, m) else HubMessage.ReceiveFromHub(chain, m)
  }

  /** The parameter types of each struct declared in the `sol!` block. */
  function Schema(t: MessageType): seq<SolType> {
    match t
    case InterchainTransfer => [Uint256, FixedBytes32, DynamicBytes, DynamicBytes, Uint256, DynamicBytes]
    case DeployInterchainToken => [Uint256, FixedBytes32, String, String, Uint8, DynamicBytes]
    case DeployTokenManager => [Uint256, FixedBytes32, Uint256, DynamicBytes]
    case SendToHub => [Uint256, String, DynamicBytes]
    case ReceiveFromHub => [Uint256, String, DynamicBytes]
  }

  // ---------------------------------------------------------------------------
  // Encoding.
  // ---------------------------------------------------------------------------

  /** The struct literal `Message::abi_encode` builds, as a tuple of ABI values. */
  function Fields(m: Message): (r: seq<Value>)
    ensures WellTyped(r, Schema(TypeOf(m)))
    ensures r[0] == Uint(MessageTypeOrdinal(TypeOf(m)))
    ensures |r| <= 8 && DynamicBelow(r, USIZE_LIMIT)
  {
    match m
    case InterchainTransfer(id, src, dst, amount, data) =>
      [Uint(MessageTypeOrdinal(MessageType.InterchainTransfer)), Fixed(id), Dynamic(src), Dynamic(dst), Uint(amount), Dynamic(data)]
    case DeployInterchainToken(id, name, symbol, decimals, minter) =>
      [Uint(MessageTypeOrdinal(MessageType.DeployInterchainToken)), Fixed(id), Dynamic(name), Dynamic(symbol), Uint(decimals), Dynamic(minter)]
    case DeployTokenManager(id, kind, params) =>
      [Uint(MessageTypeOrdinal(MessageType.DeployTokenManager)), Fixed(id), Uint(TokenManagerTypeOrdinal(kind)), Dynamic(params)]
  }

  /** `Message::abi_encode`. Its size bound is what lets a hub message carry it as a `bytes` field. */
  function Encode(m: Message): (r: Bytes)
    ensures |r| < SMALL_LIMIT
  {
    SliceTupleEncodingSmall(Fields(m));
    AbiParams.Encode(Fields(m))
  }

  /** The tuple of a `SendToHub` / `ReceiveFromHub` struct: type word, chain name, inner payload. */
  function HubTuple(t: U256, chain: RustBytes, inner: DynBytes): (r: seq<Value>)
    ensures WellTyped(r, [Uint256, String, DynamicBytes])
    ensures DynamicBelow(r, |chain| + |inner| + 1)
  {
    [Uint(t), Dynamic(chain), Dynamic(inner)]
  }

  /** The struct literal `HubMessage::abi_encode` builds: its inner message goes in already encoded. */
  function HubFields(h: HubMessage): (r: seq<Value>)
    ensures WellTyped(r, Schema(HubTypeOf(h)))
    ensures r[0] == Uint(MessageTypeOrdinal(HubTypeOf(h)))
    ensures r[1] == Dynamic(ChainOf(h)) && r[2] == Dynamic(Encode(h.message))
  {
    assert Schema(HubTypeOf(h)) == [Uint256, String, DynamicBytes];
    HubTuple(MessageTypeOrdinal(HubTypeOf(h)), ChainOf(h), Encode(h.message))
  }

  /** `HubMessage::abi_encode`: the payload starts with the word of its hub message type. */
  function HubEncode(h: HubMessage): (r: Bytes)
    ensures |r| >= 32 && FirstWord(r) == MessageTypeOrdinal(HubTypeOf(h))
  {
    HubTupleStartsWithType(MessageTypeOrdinal(HubTypeOf(h)), ChainOf(h), Encode(h.message));
    AbiParams.Encode(HubFields(h))
  }

  // ---------------------------------------------------------------------------
  // Decoding.
  // ---------------------------------------------------------------------------

  /** Builds the message of type `t` from its decoded struct fields, checking the token manager type. */
  function FromFields(t: MessageType, vs: seq<Value>): (r: Result<Message, Error>)
    requires t.InterchainTransfer? || t.DeployInterchainToken? || t.DeployTokenManager?
    requires WellTyped(vs, Schema(t)) && DynamicBelow(vs, USIZE_LIMIT)
    ensures r.Ok? ==> TypeOf(r.value) == t
    ensures r.Err? <==> t.DeployTokenManager? && vs[2].n > TokenManagerTypeOrdinal(Gateway)
    ensures r.Err? ==> r.error == InvalidTokenManagerType
  {
    assert HasType(vs[0], Schema(t)[0]) && HasType(vs[1], Schema(t)[1]);
    assert HasType(vs[2], Schema(t)[2]) && HasType(vs[3], Schema(t)[3]);
    match t
    case InterchainTransfer =>
      assert HasType(vs[4], Schema(t)[4]) && HasType(vs[5], Schema(t)[5]);
      Ok(Message.InterchainTransfer(vs[1].fixed, vs[2].bytes, vs[3].bytes, vs[4].n, vs[5].bytes))
    case DeployInterchainToken =>
      assert HasType(vs[4], Schema(t)[4]) && HasType(vs[5], Schema(t)[5]);
      Ok(Message.DeployInterchainToken(vs[1].fixed, vs[2].bytes, vs[3].bytes, vs[4].n, vs[5].bytes))
    case DeployTokenManager =>
      match TokenManagerTypeFromWord(vs[2].n)
      case None => Err(InvalidTokenManagerType)
      case Some(kind) => Ok(Message.DeployTokenManager(vs[1].fixed, kind, vs[3].bytes))
  }

  /** The value of the first word of a payload of at least 32 bytes. */
  function FirstWord(payload: Bytes): U256
    requires |payload| >= 32
  {
    WordValue(payload[..32])
  }

  /** `Message::abi_decode`. */
  function Decode(payload: RustBytes): (r: Result<Message, Error>)
    ensures |payload| < 32 ==> r == Err(MessageDecodeFailed)
    ensures r == Err(InvalidMessageType) <==> |payload| >= 32 && FirstWord(payload) > 2
    ensures r.Ok? ==> FirstWord(payload) == MessageTypeOrdinal(TypeOf(r.value))
    ensures r != Err(InvalidChainName)
  {
    if |payload| < 32 then Err(MessageDecodeFailed)
    else
      match MessageTypeFromWord(FirstWord(payload))
      case Some(t) =>
        if t.InterchainTransfer? || t.DeployInterchainToken? || t.DeployTokenManager? then
          match AbiParams.Decode(Schema(t), payload)
          case None => Err(MessageDecodeFailed)
          case Some(vs) => FromFields(t, vs)
        else Err(InvalidMessageType)
      case None => Err(InvalidMessageType)
  }

  /** `HubMessage::abi_decode`; `isChainName` stands for the `ChainNameRaw` validity rule. */
  function HubDecode(payload: RustBytes, isChainName: ChainNameRule): (r: Result<HubMessage, Error>)
    ensures |payload| < 32 ==> r == Err(MessageDecodeFailed)
    ensures |payload| >= 32 && FirstWord(payload) != 3 && FirstWord(payload) != 4 ==> r == Err(InvalidMessageType)
    ensures r.Ok? ==> FirstWord(payload) == MessageTypeOrdinal(HubTypeOf(r.value)) && isChainName(ChainOf(r.value))
  {
    if |payload| < 32 then Err(MessageDecodeFailed)
    else
      match MessageTypeFromWord(FirstWord(payload))
      case Some(t) =>
        if t.SendToHub? || t.ReceiveFromHub? then
          match AbiParams.Decode(Schema(t), payload)
          case None => Err(MessageDecodeFailed)
          case Some(vs) =>
            assert HasType(vs[1], Schema(t)[1]) && HasType(vs[2], Schema(t)[2]);
            var chain := vs[1].bytes;
            if !isChainName(chain) then Err(InvalidChainName)
            else
              match Decode(vs[2].bytes)
              case Err(e) => Err(e)
              case Ok(inner) => Ok(MakeHub(t, chain, inner))
        else Err(InvalidMessageType)
      case None => Err(InvalidMessageType)
  }

  // ---------------------------------------------------------------------------
  // Round trips.
  // ---------------------------------------------------------------------------

  /** Rebuilding a message from its own struct fields gives it back. */
  lemma {:induction false} FromFieldsOfFields(m: Message)
    ensures FromFields(TypeOf(m), Fields(m)) == Ok(m)
  {
    if m.DeployTokenManager? {
      TokenManagerTypeRoundTrip(m.tokenManagerType);
    }
  }

  /** Every encoded message starts with the word holding its type's ordinal. */
  lemma {:induction false} EncodeStartsWithType(m: Message)
    ensures |Encode(m)| >= 32 && FirstWord(Encode(m)) == MessageTypeOrdinal(TypeOf(m))
  {
    FirstWordOfEncoding(Fields(m));
  }

  /** `Message::abi_decode` inverts `Message::abi_encode`. */
  lemma {:induction false} MessageRoundTrip(m: Message)
    requires |Encode(m)| < USIZE_LIMIT
    ensures Decode(Encode(m)) == Ok(m)
  {
    var vs := Fields(m);
    EncodeStartsWithType(m);
    MessageTypeRoundTrip(TypeOf(m));
    SliceTupleEncodingSmall(vs);
    DecodeEncode(vs, Schema(TypeOf(m)));
    FromFieldsOfFields(m);
  }

  /** An encoded hub tuple starts with its type word. */
  lemma {:induction false} HubTupleStartsWithType(t: U256, chain: RustBytes, inner: DynBytes)
    ensures |AbiParams.Encode(HubTuple(t, chain, inner))| >= 32
    ensures FirstWord(AbiParams.Encode(HubTuple(t, chain, inner))) == t
  {
    FirstWordOfEncoding(HubTuple(t, chain, inner));
  }

  /**
   * What `HubMessage::abi_decode` makes of a well-formed hub tuple of type `t`:
   * a chain name the rule refuses is an `InvalidChainName`; otherwise an error
   * of the inner payload is passed on unchanged, and a valid inner message is
   * wrapped with the chain name.
   */
  lemma {:induction false} HubDecodeTuple(t: MessageType, chain: RustBytes, inner: RustBytes, isChainName: ChainNameRule)
    requires t.SendToHub? || t.ReceiveFromHub?
    requires |AbiParams.Encode(HubTuple(MessageTypeOrdinal(t), chain, inner))| < USIZE_LIMIT
    ensures !isChainName(chain) ==>
      HubDecode(AbiParams.Encode(HubTuple(MessageTypeOrdinal(t), chain, inner)), isChainName) == Err(InvalidChainName)
    ensures isChainName(chain) && Decode(inner).Err? ==>
      HubDecode(AbiParams.Encode(HubTuple(MessageTypeOrdinal(t), chain, inner)), isChainName) == Err(Decode(inner).error)
    ensures isChainName(chain) && Decode(inner).Ok? ==>
      HubDecode(AbiParams.Encode(HubTuple(MessageTypeOrdinal(t), chain, inner)), isChainName) == Ok(MakeHub(t, chain, Decode(inner).value))
  {
    var vs := HubTuple(MessageTypeOrdinal(t), chain, inner);
    HubTupleStartsWithType(MessageTypeOrdinal(t), chain, inner);
    MessageTypeRoundTrip(t);
    SmallTupleFits(vs);
    assert Schema(t) == [Uint256, String, DynamicBytes];
    DecodeEncode(vs, Schema(t));
  }

  /** The fields of an encoded hub tuple read back as the chain name and the inner payload. */
  lemma {:induction false} HubTupleFields(t: U256, chain: RustBytes, inner: DynBytes)
    requires |inner| < SMALL_LIMIT
    ensures DecodeField(String, AbiParams.Encode(HubTuple(t, chain, inner)), 1) == Some(Dynamic(chain))
    ensures DecodeField(DynamicBytes, AbiParams.Encode(HubTuple(t, chain, inner)), 2) == Some(Dynamic(inner))
  {
    var vs := HubTuple(t, chain, inner);
    var ts := [Uint256, String, DynamicBytes];
    assert DynamicBelow(vs, SMALL_LIMIT);
    SmallTupleFits(vs);
    DecodeFieldOfEncoding(vs, ts, 1);
    DecodeFieldOfEncoding(vs, ts, 2);
  }

  /** A hub payload carries the chain name in its second field. */
  lemma {:induction false} HubEmbedsChain(h: HubMessage)
    ensures DecodeField(String, HubEncode(h), 1) == Some(Dynamic(ChainOf(h)))
  {
    HubTupleFields(MessageTypeOrdinal(HubTypeOf(h)), ChainOf(h), Encode(h.message));
  }

  /** A hub payload carries the inner message's own encoding, byte for byte, in its third field. */
  lemma {:induction false} HubEmbedsInner(h: HubMessage)
    ensures DecodeField(DynamicBytes, HubEncode(h), 2) == Some(Dynamic(Encode(h.message)))
    ensures |Encode(h.message)| <= |HubEncode(h)|
  {
    HubTupleFields(MessageTypeOrdinal(HubTypeOf(h)), ChainOf(h), Encode(h.message));
  }

  /** `HubMessage::abi_decode` inverts `HubMessage::abi_encode` when the chain name is valid. */
  lemma {:induction false} HubRoundTrip(h: HubMessage, isChainName: ChainNameRule)
    requires |HubEncode(h)| < USIZE_LIMIT && isChainName(ChainOf(h))
    ensures HubDecode(HubEncode(h), isChainName) == Ok(h)
  {
    HubEmbedsInner(h);
    MessageRoundTrip(h.message);
    HubDecodeTuple(HubTypeOf(h), ChainOf(h), Encode(h.message), isChainName);
  }

  /** A hub message whose chain name the rule refuses is rejected, however valid its inner message. */
  lemma {:induction false} HubRejectsChainName(h: HubMessage, isChainName: ChainNameRule)
    requires |HubEncode(h)| < USIZE_LIMIT && !isChainName(ChainOf(h))
    ensures HubDecode(HubEncode(h), isChainName) == Err(InvalidChainName)
  {
    HubEmbedsInner(h);
    HubDecodeTuple(HubTypeOf(h), ChainOf(h), Encode(h.message), isChainName);
  }

  /** With any rule that refuses the empty name, a `SendToHub` to the empty chain is rejected. */
  lemma {:induction false} HubRejectsEmptyChainName(m: Message, isChainName: ChainNameRule)
    requires !isChainName([])
    requires |HubEncode(HubMessage.SendToHub([], m))| < USIZE_LIMIT
    ensures HubDecode(HubEncode(HubMessage.SendToHub([], m)), isChainName) == Err(InvalidChainName)
  {
    HubRejectsChainName(HubMessage.SendToHub([], m), isChainName);
  }

  // ---------------------------------------------------------------------------
  // Rejected payloads.
  // ---------------------------------------------------------------------------

  /** A hub tuple whose type word is not `SendToHub` or `ReceiveFromHub` is an `InvalidMessageType`. */
  lemma {:induction false} HubRejectsMessageType(t: U256, chain: RustBytes, inner: RustBytes, isChainName: ChainNameRule)
    requires t != MessageTypeOrdinal(MessageType.SendToHub) && t != MessageTypeOrdinal(MessageType.ReceiveFromHub)
    requires |AbiParams.Encode(HubTuple(t, chain, inner))| < USIZE_LIMIT
    ensures HubDecode(AbiParams.Encode(HubTuple(t, chain, inner)), isChainName) == Err(InvalidMessageType)
  {
    HubTupleStartsWithType(t, chain, inner);
  }

  /** An encoded plain message is not a hub message. */
  lemma {:induction false} HubDecodeRejectsPlain(m: Message, isChainName: ChainNameRule)
    requires |Encode(m)| < USIZE_LIMIT
    ensures HubDecode(Encode(m), isChainName) == Err(InvalidMessageType)
  {
    EncodeStartsWithType(m);
  }

  /** An encoded hub message is not a plain message. */
  lemma {:induction false} DecodeRejectsHub(h: HubMessage)
    requires |HubEncode(h)| < USIZE_LIMIT
    ensures Decode(HubEncode(h)) == Err(InvalidMessageType)
  {
    HubTupleStartsWithType(MessageTypeOrdinal(HubTypeOf(h)), ChainOf(h), Encode(h.message));
  }

  /** An inner payload that is a lone type word naming no plain message makes the hub message an `InvalidMessageType`. */
  lemma {:induction false} HubRejectsInnerMessageType(chain: RustBytes, t: U256, isChainName: ChainNameRule)
    requires t > MessageTypeOrdinal(MessageType.DeployTokenManager) && isChainName(chain)
    requires |AbiParams.Encode(HubTuple(MessageTypeOrdinal(MessageType.SendToHub), chain, Word(t)))| < USIZE_LIMIT
    ensures HubDecode(AbiParams.Encode(HubTuple(MessageTypeOrdinal(MessageType.SendToHub), chain, Word(t))), isChainName)
      == Err(InvalidMessageType)
  {
    assert Word(t)[..32] == Word(t);
    WordRoundTrip(t);
    HubDecodeTuple(MessageType.SendToHub, chain, Word(t), isChainName);
  }

  /** The struct tuple of a `DeployTokenManager` whose token manager type is the raw word `kind`. */
  function DeployTokenManagerTuple(tokenId: Bytes32, kind: U256, params: RustBytes): seq<Value> {
    [Uint(MessageTypeOrdinal(MessageType.DeployTokenManager)), Fixed(tokenId), Uint(kind), Dynamic(params)]
  }

  /** A `DeployTokenManager` payload whose token manager type is past `Gateway` is rejected. */
  lemma {:induction false} DecodeRejectsTokenManagerType(tokenId: Bytes32, kind: U256, params: RustBytes)
    requires kind > TokenManagerTypeOrdinal(Gateway)
    requires |AbiParams.Encode(DeployTokenManagerTuple(tokenId, kind, params))| < USIZE_LIMIT
    ensures Decode(AbiParams.Encode(DeployTokenManagerTuple(tokenId, kind, params))) == Err(InvalidTokenManagerType)
  {
    var vs := DeployTokenManagerTuple(tokenId, kind, params);
    var t := MessageType.DeployTokenManager;
    FirstWordOfEncoding(vs);
    SmallTupleFits(vs);
    assert WellTyped(vs, Schema(t));
    DecodeEncode(vs, Schema(t));
  }

  /** The same rejection, with the `DeployTokenManager` payload nested in a `SendToHub`. */
  lemma {:induction false} HubRejectsTokenManagerType(chain: RustBytes, tokenId: Bytes32, kind: U256, params: RustBytes, isChainName: ChainNameRule)
    requires kind > TokenManagerTypeOrdinal(Gateway) && isChainName(chain)
    requires |AbiParams.Encode(DeployTokenManagerTuple(tokenId, kind, params))| < USIZE_LIMIT
    requires |AbiParams.Encode(HubTuple(MessageTypeOrdinal(MessageType.SendToHub), chain,
                                        AbiParams.Encode(DeployTokenManagerTuple(tokenId, kind, params))))| < USIZE_LIMIT
    ensures HubDecode(AbiParams.Encode(HubTuple(MessageTypeOrdinal(MessageType.SendToHub), chain,
                                                AbiParams.Encode(DeployTokenManagerTuple(tokenId, kind, params)))), isChainName)
      == Err(InvalidTokenManagerType)
  {
    var inner := AbiParams.Encode(DeployTokenManagerTuple(tokenId, kind, params));
    DecodeRejectsTokenManagerType(tokenId, kind, params);
    HubDecodeTuple(MessageType.SendToHub, chain, inner, isChainName);
  }
}
