# Axelar amplifier: ITS payload codec, ampd message queue, XRPL `get_proof`

This project is a Dafny model of three small pieces of sequential logic in the Axelar amplifier.

- **The Interchain Token Service (ITS) payload codec.** This is `Message` / `HubMessage` `abi_encode` and `abi_decode` in `contracts/interchain-token-service/src/abi.rs`.
  - Each message variant is a Solidity ABI parameter tuple. Its first field is a `uint256` holding the variant's `MessageType`.
  - A hub message (`SendToHub` / `ReceiveFromHub`) carries the inner message, already encoded, as a `bytes` field.
  - The ABI layout is modelled from the "Formal Specification of the Encoding" section of the Solidity ABI specification. Each field has one 32-byte big-endian head word. A dynamic `bytes` / `string` field has a tail entry at the offset its head word holds: a length word, the bytes, and zero padding to a word boundary.
- **ampd's `MsgQueue`** (`ampd/src/queue/msg_queue.rs`). This is a buffer of messages plus a `u64` gas total that is updated with `checked_add`.
- **The XRPL multisig prover's `get_proof` query** (`contracts/xrpl-multisig-prover/src/query.rs`).

## Files and modules

| file | module | contents |
|---|---|---|
| `results.dfy` | `Results` | `Option` and `Result` |
| `results.dfy` | `RustTypes` | bytes, `u64`, and the `usize` bound on a Rust slice's length |
| `abi_word.dfy` | `AbiWord` | big-endian 32-byte words, `uint256` ↔ word |
| `abi_params.dfy` | `AbiParams` | the generic ABI parameter-tuple codec (`abi_encode_params` / `abi_decode_params`), its head/tail layout and its round trip |
| `its_abi.dfy` | `ItsAbi` | `MessageType`, `TokenManagerType`, `Message`, `HubMessage`, their codecs, the round trips and the rejection cases |
| `msg_queue.dfy` | `MsgQueue` | `push`, `pop_all`, `gas_cost`, `len` and runs of pushes |
| `xrpl_proof.dfy` | `XrplProof` | the storage read by `get_proof`, the signer filter and the query |

Three choices shape the model:

- Every operation is a pure function.
- The queue is a value, and each operation returns the queue it leaves behind.
- The three collaborators below, whose code is not part of this model, become parameters:
  - the `ChainNameRaw` validity rule, `isChainName`;
  - the multisig contract's `GetMultisig` query;
  - the `XRPLSignedPaymentTransaction` blob serialisation.

## Model

| member | source | states |
|---|---|---|
| `AbiWord.WordRoundTrip` | contracts/interchain-token-service/src/abi.rs:85-93 | A `uint256` written as a 32-byte big-endian word reads back as the same number. |
| `AbiWord.WordOfValue` | contracts/interchain-token-service/src/abi.rs:127-128 | Every 32-byte word is the encoding of the number it holds, so words and `uint256` values are in bijection. |
| `AbiParams.Encode` | contracts/interchain-token-service/src/abi.rs:85-93 | An encoded tuple is 32 bytes per field, plus the total size of the tail entries of its dynamic fields. |
| `AbiParams.EncodingHeadAt` | contracts/interchain-token-service/src/abi.rs:85-93 | Word `i` of an encoded tuple is the head of field `i`: the integer itself, the `bytes32` itself, or, for a dynamic field, the offset of its tail entry. That offset counts 32 bytes per field plus the tail entries of the fields before it. |
| `AbiParams.EncodingTailAt` | contracts/interchain-token-service/src/abi.rs:85-93 | The tail entry of field `i` lies whole inside the encoding, at the offset its head word holds. |
| `AbiParams.Decode` | contracts/interchain-token-service/src/abi.rs:132-133 | A decoded tuple has the declared field types. No decoded `bytes` value is longer than the payload. |
| `AbiParams.DecodeFieldOfEncoding` | contracts/interchain-token-service/src/abi.rs:132-133 | Decoding field `i` of an encoded tuple gives field `i` back. A static field is read from its head word. A dynamic field is read through the offset in its head word, then the length word, then the bytes. |
| `AbiParams.DecodeEncode` | contracts/interchain-token-service/src/abi.rs:132-133 | Round trip: for every well-typed tuple whose offsets fit in a `uint256`, decoding its encoding with its own type list gives it back. |
| `AbiParams.FirstWordOfEncoding` | contracts/interchain-token-service/src/abi.rs:85-86 | When the first field of a tuple is an integer, the first 32 bytes of the encoding are that integer's word. |
| `AbiParams.SliceTupleEncodingSmall` | contracts/interchain-token-service/src/abi.rs:88-91 | A tuple of at most eight fields, each a Rust slice, encodes to fewer than 2^70 bytes, so all its offsets fit in a `uint256`. |
| `ItsAbi.MessageTypeFromWord` | contracts/interchain-token-service/src/abi.rs:127-128 | The first word decodes to a `MessageType` exactly when it is below 5, and then to the variant with that ordinal. |
| `ItsAbi.TokenManagerTypeFromWord` | contracts/interchain-token-service/src/abi.rs:159-162 | A token manager type word is accepted exactly when it is at most the ordinal of `Gateway`, the last variant, and then gives the variant with that ordinal. |
| `ItsAbi.MessageTypeRoundTrip` | contracts/interchain-token-service/src/abi.rs:237-241 | The `uint256` written for a `MessageType` (`value as u8`) is below 5 and decodes back to that same variant, so distinct types get distinct words. |
| `ItsAbi.TokenManagerTypeRoundTrip` | contracts/interchain-token-service/src/abi.rs:243-247 | The `uint256` written for a `TokenManagerType` (`value as u8`) is at most `Gateway`'s and decodes back to that same variant. |
| `ItsAbi.Fields` | contracts/interchain-token-service/src/abi.rs:77-120 | The struct built for each message has the field types its `sol!` struct declares. Its first field is the variant's `MessageType` ordinal. |
| `ItsAbi.Encode` | contracts/interchain-token-service/src/abi.rs:77-122 | An encoded message is small enough (under 2^70 bytes) to be carried in the `bytes` field of a hub message. |
| `ItsAbi.HubFields` | contracts/interchain-token-service/src/abi.rs:178-201 | The hub struct has the `SendToHub` / `ReceiveFromHub` field types. It holds the hub type ordinal, the chain name and the inner message's own encoding. |
| `ItsAbi.HubEncode` | contracts/interchain-token-service/src/abi.rs:178-201 | Every encoded hub message is at least one word long, and its first word is the ordinal of its hub `MessageType` (`SendToHub` or `ReceiveFromHub`). |
| `ItsAbi.FromFields` | contracts/interchain-token-service/src/abi.rs:130-168 | Building a message from decoded fields fails exactly for a `DeployTokenManager` whose token manager type is past `Gateway`, and then with `InvalidTokenManagerType`. Otherwise the message has the dispatched type. |
| `ItsAbi.Decode` | contracts/interchain-token-service/src/abi.rs:124-174 | A payload under 32 bytes is `MessageDecodeFailed`. `InvalidMessageType` comes exactly when the first word is above 2. A decoded message's type is the first word. |
| `ItsAbi.HubDecode` | contracts/interchain-token-service/src/abi.rs:203-234 | A payload under 32 bytes is `MessageDecodeFailed`. A first word other than 3 or 4 is `InvalidMessageType`. A decoded hub message has the first word's type and a chain name the rule accepts. |
| `ItsAbi.FromFieldsOfFields` | contracts/interchain-token-service/src/abi.rs:135-167 | Rebuilding a message from its own struct fields gives the message back. |
| `ItsAbi.EncodeStartsWithType` | contracts/interchain-token-service/src/abi.rs:86-114 | Every encoded message is at least one word long, and its first word is its `MessageType` ordinal. |
| `ItsAbi.MessageRoundTrip` | contracts/interchain-token-service/src/abi.rs:76-174 | `Message::abi_decode(m.abi_encode()) == Ok(m)` for every message. |
| `ItsAbi.HubTupleStartsWithType` | contracts/interchain-token-service/src/abi.rs:183-194 | An encoded hub tuple starts with its type word. |
| `ItsAbi.HubDecodeTuple` | contracts/interchain-token-service/src/abi.rs:211-228 | For a well-formed `SendToHub` / `ReceiveFromHub` tuple, a chain name the rule rejects gives `InvalidChainName`. Otherwise any error from decoding the inner payload is returned unchanged, and a valid inner message is wrapped with the chain name in the right variant. |
| `ItsAbi.HubTupleFields` | contracts/interchain-token-service/src/abi.rs:183-187 | The second and third fields of an encoded hub tuple decode to its chain name and its inner payload. |
| `ItsAbi.HubEmbedsChain` | contracts/interchain-token-service/src/abi.rs:185 | A hub payload's second field is its chain name. |
| `ItsAbi.HubEmbedsInner` | contracts/interchain-token-service/src/abi.rs:186 | A hub payload's third field is, byte for byte, `Message::abi_encode` of the inner message. It is no longer than the hub payload. |
| `ItsAbi.HubRoundTrip` | contracts/interchain-token-service/src/abi.rs:177-234 | `HubMessage::abi_decode(h.abi_encode()) == Ok(h)` for every hub message whose chain name is valid. |
| `ItsAbi.HubRejectsChainName` | contracts/interchain-token-service/src/abi.rs:215-216 | A hub message whose chain name the rule rejects, such as the empty name, decodes to `InvalidChainName`. |
| `ItsAbi.HubRejectsEmptyChainName` | contracts/interchain-token-service/src/abi.rs:512-530 | A `SendToHub` to the empty chain name is `InvalidChainName` under any rule that rejects the empty name. |
| `ItsAbi.HubRejectsMessageType` | contracts/interchain-token-service/src/abi.rs:466-488 | A hub tuple whose type word is anything but 3 or 4 (0–2, 5, 255, …) is `InvalidMessageType`. |
| `ItsAbi.HubDecodeRejectsPlain` | contracts/interchain-token-service/src/abi.rs:230 | An encoded plain message given to `HubMessage::abi_decode` is `InvalidMessageType`. |
| `ItsAbi.DecodeRejectsHub` | contracts/interchain-token-service/src/abi.rs:170 | An encoded hub message given to `Message::abi_decode` is `InvalidMessageType`. |
| `ItsAbi.HubRejectsInnerMessageType` | contracts/interchain-token-service/src/abi.rs:490-510 | A `SendToHub` whose inner payload is a lone word above 2 is `InvalidMessageType`, passed out of the inner decode. |
| `ItsAbi.DecodeRejectsTokenManagerType` | contracts/interchain-token-service/src/abi.rs:155-162 | A `DeployTokenManager` payload whose token manager type word is past `Gateway` is `InvalidTokenManagerType`. |
| `ItsAbi.HubRejectsTokenManagerType` | contracts/interchain-token-service/src/abi.rs:532-550 | The same payload nested in a `SendToHub` with a valid chain name is `InvalidTokenManagerType` too. |
| `MsgQueue.CheckedAdd` | ampd/src/queue/msg_queue.rs:23-26 | `u64::checked_add` succeeds exactly when the sum is at most `u64::MAX`, and then gives the sum. |
| `MsgQueue.Push` | ampd/src/queue/msg_queue.rs:19-36 | The message is always appended. The push succeeds exactly when the new total fits in a `u64`, and then the gas total grows by the cost. On overflow the result is `GasCostOverflow` and the gas total is unchanged. |
| `MsgQueue.PopAll` | ampd/src/queue/msg_queue.rs:38-44 | Returns exactly the queued messages and leaves an empty queue with gas 0. |
| `MsgQueue.PushEachAppends` | ampd/src/queue/msg_queue.rs:22 | After a run of pushes, the queue holds the old messages followed by the pushed ones, in order, including those whose push overflowed. |
| `MsgQueue.PushEachGas` | ampd/src/queue/msg_queue.rs:23-26 | A run of pushes has no overflow exactly when the starting gas plus all the costs fits in a `u64`. Then the gas total is that sum. |
| `MsgQueue.PushEachThenPopAll` | ampd/src/queue/msg_queue.rs:63-84 | On a fresh queue after n pushes: `len()` is n and `pop_all()` returns the pushed messages in order. Without overflow, `gas_cost()` is the sum of the costs. |
| `XrplProof.SignedOnly` | contracts/xrpl-multisig-prover/src/query.rs:44-48 | The signer filter never lengthens the list. |
| `XrplProof.SignedOnlyMembers` | contracts/xrpl-multisig-prover/src/query.rs:44-48 | A pair (signer, signature) is kept exactly when the session lists that signer with `Some(signature)`. |
| `XrplProof.SignedOnlyAppend` | contracts/xrpl-multisig-prover/src/query.rs:44-48 | Filtering a concatenation filters each part and keeps the parts in order, so the original order is preserved. |
| `XrplProof.SignedOnlyAllSigned` | contracts/xrpl-multisig-prover/src/query.rs:46-47 | When every signer signed, all of them are kept, position by position, with the signature unwrapped. |
| `XrplProof.SignedOnlyNoneSigned` | contracts/xrpl-multisig-prover/src/query.rs:46 | When nobody signed, the filtered list is empty. |
| `XrplProof.GetProof` | contracts/xrpl-multisig-prover/src/query.rs:25-57 | A missing config, an unknown session id or a tx hash without `TransactionInfo` is an error. A successful answer carries the stored `message_id` of the session's transaction. |
| `XrplProof.GetProofPending` | contracts/xrpl-multisig-prover/src/query.rs:41-42 | A pending session gives `Pending { message_id }` with the stored message id. |
| `XrplProof.GetProofCompleted` | contracts/xrpl-multisig-prover/src/query.rs:43-53 | A completed session gives `Completed` with the blob built from the stored unsigned transaction and the filtered signers. A failing serialisation is returned as the error. |
| `XrplProof.GetProofLocal` | contracts/xrpl-multisig-prover/src/query.rs:25-39 | The answer depends only on the config, the session's entry and its transaction's entry. Storage for other sessions cannot change it. |

## Left out

- Strings are modelled as their UTF-8 bytes. This covers `name`, `symbol` and the chain names. The UTF-8 validation that `abi_decode` applies to `string` fields is not modelled.
- The decoder checks the following:
  - every word it reads lies inside the payload;
  - a dynamic field's bytes fit after its length word;
  - a `uint8` word is below 256;
  - the first word is a known `MessageType`.

  It does not check the following, which are alloy implementation details:
  - zero padding;
  - canonical offsets;
  - re-encoding equality.

  The model's decoder therefore accepts some payloads that the real decoder may reject. This does not affect any round-trip or rejection property stated here.
- `ChainNameRaw::try_from` is the parameter `isChainName`. Its rules are in a file that is not part of this model. The lemmas about invalid names hold for any rule that rejects the name, for example one that rejects the empty name.
- ItsAbi.MessageRoundTrip: requires the encoding to be shorter than 2^64 bytes, because `Message::abi_decode` takes a Rust slice. Every byte field is already a Rust `Vec`, so this is the same bound one level up, not an extra assumption about the program.
- ItsAbi.HubRoundTrip: has the same 2^64 bound on the hub encoding, for the same reason.
- ItsAbi.HubRejectsChainName: has the same 2^64 bound on the hub encoding, for the same reason.
- `TokenManagerType` is declared outside abi.rs (contracts/interchain-token-service/src/abi.rs:9). The model takes its six variants and their ordinals 0–5, from `NativeInterchainToken` to `Gateway`, from that declaration. abi.rs itself shows only that `NativeInterchainToken` and `Gateway` exist and that `Gateway` is the last variant (contracts/interchain-token-service/src/abi.rs:537).
- The `error_stack` report contexts are collapsed to the `Error` variant they carry.
- `TokenId`, `HexBinary`, `Uint256` and their conversions to and from alloy types are identities on the value. This includes the little-endian round trip of `amount`.
- `MsgQueue` holds values of any type `M` in place of `cosmrs::Any`. The `tracing` log line in `push` is left out. `len` and `gas_cost` are plain projections; their behaviour is stated by `MsgQueue.PushEachThenPopAll`.
- `MsgQueue` is modelled as a value, not a mutable struct. "`gas_cost()` and `len()` do not modify state" therefore holds by construction. The same goes for "the gas total never wraps", because the total has type `u64` (`Gas`).
- `get_proof` treats the following as parameters that may fail, because their code is not part of this model:
  - the multisig contract query, including `to_binary` of the request;
  - `XRPLSignedPaymentTransaction::new` with its `HexBinary` conversion.

  `get_proof` builds `XRPLSignedPaymentTransaction` directly from the stored unsigned transaction and the filtered signers (contracts/xrpl-multisig-prover/src/query.rs:44-51), and the model does the same.
- `get_proof` is a function of the storage value, so "no storage is written" and "the same state gives the same response" hold by construction.
- The `StdError` values of `get_proof` are modelled as distinct `QueryError` variants. The JSON shape of `GetProofResponse` (`serde`) is left out.
