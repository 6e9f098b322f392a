# Bitcoin transaction signing in the hardware-wallet CLI

This project models the `btcSignTx` command of the hardware-wallet command-line tool
(`src/cli/bitcoin_sign_tx.go`) and proves properties of that model in Dafny. It covers:

- building the protobuf inputs, outputs and previous transactions from the caller's JSON
  description (`buildInputs`, `buildOutputs`, `buildPrevTxes`), with Go's `encoding/hex` for
  the hex fields;
- the table of transactions known to the command, keyed by the hex of their hash, and the
  pre-flight check that every input needing its previous transaction finds it there. Below,
  such an input is called legacy: its script type is anything other than SPENDWITNESS,
  SPENDP2SHWITNESS and EXTERNAL;
- the signing loop. It answers each `BitcoinTxRequest` of the device: metadata from
  `copyTransaction`, a single input or output, or a slice of extra data. It also absorbs the
  serialized-transaction fragments and signatures the device streams back;
- the checks on the final message: failure, unexpected kind, missing signatures, or the signed
  transaction in hex.

Layout:

- `wrappers.dfy`: `Option` and `Result`.
- `hex.dfy`: Go's `hex.EncodeToString` and `hex.DecodeString`.
- `messages.dfy`: the protobuf messages and enumerations.
- `build.dfy`: the three builders. Each is a method that fills a fresh array, proved equal to a
  specification function.
- `router.dfy`: `copyTransaction` and the answer to one request.
- `session.dfy`: the signing state, the loop as a function `Run`, and the `SigningSession`
  class. The class has the signature array and the streamed bytes as fields; its `Drive`
  method is the loop, proved equal to `Run`.
- `properties.dfy`: lemmas about the whole exchange and a worked example.

Go semantics that are written out explicitly:

- A missing map key yields the zero value.
- `s[lo:hi]` panics unless `lo <= hi <= len(s)`. Go's bound is `cap(s)`; capacity is taken as length (see "## Left out").
- A nil pointer dereference panics. The possible panics are an explicit outcome.
- `uint32` arithmetic wraps: `RequestIndex+1` and `offset+len` are taken modulo 2^32.
- `hex.DecodeString` reports the first invalid character, and reports an odd length only after
  checking the last character.

The device is a sequence of decoded replies. The first reply answers the begin-signing call, and
each later one answers the previous ack. Running out of replies is the outcome `NoReply`.

## Model

| member | source | states |
|---|---|---|
| Hex.Encode | src/cli/bitcoin_sign_tx.go:72 | the hex of a byte string has two characters per byte |
| Hex.Decode | src/cli/bitcoin_sign_tx.go:212 | a successful decoding has one byte per two characters |
| Hex.EncodeIsLowerHex | src/cli/bitcoin_sign_tx.go:72 | table keys and the printed transaction contain only lower-case hex digits |
| Hex.DecodeEncode | src/cli/bitcoin_sign_tx.go:151 | decoding the printed hex gives back exactly the streamed bytes |
| Hex.EncodeDecode | src/cli/bitcoin_sign_tx.go:212 | a decoded hash re-encodes to the lower-case form of the string it came from, so keys compare case-insensitively |
| Hex.DecodeFails | src/cli/bitcoin_sign_tx.go:212-215 | decoding fails exactly on odd length or a non-hex character; the error names an offending character, or the odd length when every character is a digit |
| Hex.EncodeEmpty | src/cli/bitcoin_sign_tx.go:72-73 | only the empty hash has the key "" |
| Build.BuildInput | src/cli/bitcoin_sign_tx.go:211-225 | one input builds iff its hash and its script both decode; a bad hash is reported first; a built input holds the two decodings |
| Build.BuildInputsSpec | src/cli/bitcoin_sign_tx.go:205-228 | a successful build has one input per description |
| Build.BuildInputs | src/cli/bitcoin_sign_tx.go:205-228 | the array-filling loop returns exactly the specified inputs, or the first decoding error |
| Build.BuildInputsSpecOk | src/cli/bitcoin_sign_tx.go:209-226 | building succeeds iff every input's two hex fields decode; then there is one input per description, each built from its own description |
| Build.BuildInputsSpecFirstError | src/cli/bitcoin_sign_tx.go:210-222 | the error reported is the error of the first malformed input |
| Build.BuildInputsSpecErr | src/cli/bitcoin_sign_tx.go:212-221 | every build error comes from some input whose predecessors all built |
| Build.BuildInputsMeaning | src/cli/bitcoin_sign_tx.go:211-225 | each built input holds the decodings of its hash and script, copies address path, index and amount, and has the enum value of its script-type name; an unknown name gives SPENDADDRESS, which needs a previous transaction |
| Build.BuildOutputs | src/cli/bitcoin_sign_tx.go:230-245 | one output per description with address path, address and amount copied and the script type's enum value (0 for an unknown name); the error result is never set |
| Build.BuildPrevTxesSpec | src/cli/bitcoin_sign_tx.go:248 | a successful build has one slot per description |
| Build.BuildPrevTx | src/cli/bitcoin_sign_tx.go:250-273 | a fully built previous transaction has counts equal to its list lengths; unless the build failed, the extra data is set and there is one output per description |
| Build.BuildPrevTxMeaning | src/cli/bitcoin_sign_tx.go:251-273 | one description fails iff its extra data is bad hex, or its output count matches and its inputs do not build; it stops early iff the extra data decodes and the output count, or the input count of built inputs, mismatches; a full build holds the built outputs and inputs, both counts, the decoded extra data and its length |
| Build.BuildPrevTxEntry | src/cli/bitcoin_sign_tx.go:250-273 | one iteration of the loop gives the step specified for that description, whose meaning the lemma above states |
| Build.BuildPrevTxes | src/cli/bitcoin_sign_tx.go:247-276 | the array-filling loop returns exactly the specified slots or error |
| Build.PrevTxesAllBuilt | src/cli/bitcoin_sign_tx.go:249-274 | when every description builds, every slot holds its transaction |
| Build.PrevTxesTruncated | src/cli/bitcoin_sign_tx.go:261-272 | a count mismatch at slot i returns without error: earlier slots filled, slot i partly built, later slots empty |
| Build.PrevTxesFailed | src/cli/bitcoin_sign_tx.go:251-268 | malformed hex at slot i after well-built slots is the build's error |
| Build.OutputsCheckedFirst | src/cli/bitcoin_sign_tx.go:256-264 | an output-count mismatch stops before any input is built, leaving no inputs and no input count |
| Router.CopyTransaction | src/cli/bitcoin_sign_tx.go:278-294 | the copy has empty input, output and binary-output lists, no extra data, all three counts set, and the version and lock time of the original |
| Router.CopyTransactionIsMetadata | src/cli/bitcoin_sign_tx.go:278-294 | the metadata copy carries the input and output counts and the extra-data length (0 without data), empties every list and drops the data, and keeps every other field |
| Router.Route | src/cli/bitcoin_sign_tx.go:112-134 | a request without details panics on nil; an answer carries at most one input, one output and one binary output |
| Router.ReferencedByHexKey | src/cli/bitcoin_sign_tx.go:112 | a request refers to the table entry under the hex of its hash, "" when it has none, and to an empty transaction when that key is missing |
| Router.RouteWithoutDetails | src/cli/bitcoin_sign_tx.go:112 | a request without details dereferences nil |
| Router.RouteMeta | src/cli/bitcoin_sign_tx.go:115-117 | a metadata request is answered with the copy of the referenced transaction, which holds no lists and no data |
| Router.RouteInput | src/cli/bitcoin_sign_tx.go:118-121 | an input request is answered iff its index is in range, with exactly that one input; out of range panics |
| Router.RouteOutput | src/cli/bitcoin_sign_tx.go:122-129 | an output request with a hash gets the one binary output at its index, one without gets the one structured output; never both; out of range panics |
| Router.RouteExtraData | src/cli/bitcoin_sign_tx.go:130-134 | an extra-data request is answered iff offset+len stays within the data, with exactly those len bytes and nothing else; a range that wraps past 2^32 panics |
| Session.AbsorbSpec | src/cli/bitcoin_sign_tx.go:93-108 | absorbing appends the request's fragment and keeps the slot count, or stops with an index panic or a duplicate signature |
| Session.AbsorbProperties | src/cli/bitcoin_sign_tx.go:93-108 | absorbing appends the fragment and stores the signature in the empty slot its index names, every other slot unchanged; without an index no slot changes; it fails exactly on an out-of-range or already-filled index, the latter being the duplicate-signature stop |
| Session.TakeTurn | src/cli/bitcoin_sign_tx.go:93-135 | a stopping turn absorbs at most one message; a turn answers only a request whose type is set and is not FINISHED |
| Session.TurnAbsorbs | src/cli/bitcoin_sign_tx.go:93-135 | a turn either stops on a duplicate or out-of-range index, reporting the state from before the message, or absorbs and then leaves on FINISHED, panics, or answers with the routed ack |
| Session.Run | src/cli/bitcoin_sign_tx.go:88-136 | the loop absorbs at most one message more than the replies it reads, and only adds acks |
| Session.CheckResult | src/cli/bitcoin_sign_tx.go:138-151 | as written, the result is the signed hex of the bytes iff the final kind is TxRequest and every slot is signed; failure iff the kind is Failure; the kind BitcoinTxRequest is always "Unexpected message" |
| Session.FirstMissing | src/cli/bitcoin_sign_tx.go:70-79 | a key the pre-flight check reports is missing from the table |
| Session.CheckResultIntended | src/cli/bitcoin_sign_tx.go:138-151 | with the intended kind, the result is the signed hex iff every slot is signed; that hex decodes to the bytes; missing slots and failure are reported |
| Session.Preflight | src/cli/bitcoin_sign_tx.go:69-80 | the loop over the inputs returns the key of the first input needing a previous transaction that the table lacks |
| Session.SigningSession.constructor | src/cli/bitcoin_sign_tx.go:81-83 | one empty signature slot per input, no bytes, the first device message current |
| Session.SigningSession.Absorb | src/cli/bitcoin_sign_tx.go:93-108 | the byte-by-byte append and the slot update leave the state the absorb specification gives; on a duplicate or out-of-range index they return its stopping outcome with every slot as it was and the fragment already appended |
| Session.SigningSession.Drive | src/cli/bitcoin_sign_tx.go:88-136 | the loop over the device's messages ends as the loop specification does, with the acks sent; the signature array holds the exit's signatures, so after a duplicate the first signature is kept; after a normal exit the fields hold the final state and message |
| Session.SigningSession.AllSlotsFilled | src/cli/bitcoin_sign_tx.go:145-150 | true iff every signature slot is filled |
| Session.SigningSession.Finish | src/cli/bitcoin_sign_tx.go:138-151 | the post-loop checks as written |
| Session.SigningSession.FinishIntended | src/cli/bitcoin_sign_tx.go:138-151 | the post-loop checks as evidently intended |
| Session.SignTx | src/cli/bitcoin_sign_tx.go:46-151 | the action from the parsed description on produces the specified outcome and device calls |
| Properties.RunAppendsFragments | src/cli/bitcoin_sign_tx.go:93-98 | the final bytes are the initial bytes followed by the fragments of the messages absorbed, in arrival order |
| Properties.RunKeepsSignatures | src/cli/bitcoin_sign_tx.go:99-107 | over the whole loop no filled signature slot is overwritten and the slot count never changes |
| Properties.DuplicateStopsKeepingFirst | src/cli/bitcoin_sign_tx.go:102-105 | a second signature for a filled slot stops the session at once with the first signature kept |
| Properties.FinishedCarriesData | src/cli/bitcoin_sign_tx.go:93-111 | a FINISHED request's fragment and signature are absorbed before the loop ends |
| Properties.FailureEndsSession | src/cli/bitcoin_sign_tx.go:138-140 | a Failure message ends the session as failed with the state untouched |
| Properties.LoopExitOnFinished | src/cli/bitcoin_sign_tx.go:88-111 | the loop leaves with kind BitcoinTxRequest only right after absorbing a FINISHED request |
| Properties.RunStops | src/cli/bitcoin_sign_tx.go:88-136 | the loop stops early only on a panic, a duplicate signature or a silent device |
| Properties.FinishedIsUnexpected | src/cli/bitcoin_sign_tx.go:141-144 | as written, leaving the loop on FINISHED always yields "Unexpected message"; only a TxRequest kind can yield a signed transaction |
| Properties.IntendedSignsAfterFinished | src/cli/bitcoin_sign_tx.go:141-151 | with the intended check, FINISHED with all slots signed yields the hex of the streamed bytes, and otherwise "signatures missing" |
| Properties.FirstMissingMeaning | src/cli/bitcoin_sign_tx.go:70-79 | the pre-flight check passes iff every legacy input's hash key is in the table; when it fails it names such a key |
| Properties.PreflightKeys | src/cli/bitcoin_sign_tx.go:61-79 | with a table holding only the key "", the pre-flight check passes iff every legacy input has an empty previous hash |
| Properties.PreflightRejectsPrevHashes | src/cli/bitcoin_sign_tx.go:58-80 | the action stops with "Could not retrieve prev_tx", before any device call, iff some legacy input has a non-empty previous hash |
| Properties.DecodeErrorStopsBeforeDevice | src/cli/bitcoin_sign_tx.go:46-50 | a malformed hex field in the inputs stops the action before any device call, with the error of some input |
| Properties.ExampleBuilds | src/cli/bitcoin_sign_tx.go:46-80 | the example description builds to one standard input and passes the pre-flight check |
| Properties.ExampleAnswers | src/cli/bitcoin_sign_tx.go:112-129 | the example's metadata, input and output requests are answered without touching the state |
| Properties.ExampleFinishes | src/cli/bitcoin_sign_tx.go:93-111 | the example's FINISHED stores the signature and the bytes 01 00, then leaves the loop |
| Properties.ExampleFrom | src/cli/bitcoin_sign_tx.go:88-136 | from any point of the example exchange, the loop leaves on FINISHED with the signed state, one ack per remaining answered request |
| Properties.ExampleAsWritten | src/cli/bitcoin_sign_tx.go:141-144 | as written, the example ends in "Unexpected message" after the begin call and three acks |
| Properties.ExampleIntended | src/cli/bitcoin_sign_tx.go:138-151 | with the intended check, the example yields the signed transaction "0100" |

## Left out

- The command-line definition, its flags and the device selection (lines 15-37) are not modelled. The action starts from the parsed description.
- `readFile` and the JSON decoding (lines 156-171) are not modelled. The description is a datatype value.
- Device I/O is not modelled. The device is a sequence of already decoded replies.
  - An I/O error from `BitcoinSignTx` is logged and ends the action (lines 83-87). The model gives `NoReply` with only the begin call sent.
  - An I/O error from `BitcoinTxAck` is ignored: `err` is assigned at lines 117, 121, 129 and 134 and never read, and the loop carries on with whatever message the call returned. That is just another reply in the sequence, for instance one of another kind, which leaves the loop and reaches the checks at lines 138-144. `NoReply` after an ack stands for a device that never answers.
  - A failed `DecodeBitcoinTxRequestMessage` (line 89) is printed and ignored. It is stood for by a request with missing fields, which the model dereferences as nil.
- Printing and logging are left out. Each message becomes an `Outcome`.
- `buildPrevTxes` is modelled, but the action never calls it (`info.PrevTxes` is unused). So the table holds only the transaction being signed, under the key "".
- Request types other than the five the loop distinguishes are not representable. `RequestType` has exactly those five.
- Go's distinction between a nil and an empty slice is kept only where the code tests it: extra data, signature and hash. Elsewhere both are the empty sequence.
- The partial slices that `buildInputs` and `buildPrevTxes` return beside an error are dropped. The action discards those of `buildInputs`, and `buildPrevTxes` has no caller.
- Re-slicing up to a slice's capacity is not modelled. `hex.DecodeString` can return extra data whose capacity exceeds its length, so Go would let a request slice past the length of such data. This never arises in the action, whose table never holds extra data.
- Enumeration numbers follow the Trezor bitcoin message definitions: SPENDADDRESS 0 to SPENDP2SHWITNESS 4, PAYTOADDRESS 0 to PAYTOP2SHWITNESS 5. BitcoinTxRequest and TxRequest are distinct message kinds. The generated protobuf package is not part of this model.
- `hex.DecodeString` works on the bytes of a Go string. The model works on characters, so a non-ASCII character reports itself rather than its first UTF-8 byte.
- The description's `Version` is not copied by `buildPrevTxes`. The model leaves it out in the same way.
- `src/cli/set_pin_code.go` is not part of this model.
- Session.TurnAbsorbs: a stop on a duplicate or out-of-range signature index reports the state from before the message. Go has already appended that message's fragment (lines 93-98), but it returns at once, so no output depends on it.
- Router.CopyTransactionIsMetadata: states the counts as the plain lengths only for lists shorter than 2^32. `CopyTransaction` itself keeps the `uint32` wrap-around.
- Router.RouteInput: proved for referenced lists shorter than 2^32, which are all lists the table can hold. `Route` itself keeps the wrap of `RequestIndex+1`.
- Router.RouteOutput: proved for referenced lists shorter than 2^32, for the same reason.
- Router.RouteExtraData: proved for extra data shorter than 2^32 bytes. `Route` itself keeps the wrap of `offset+len`.

## Findings

| source | as written | input that shows it | evidently intended | confidence | as-written member | corrected member |
|---|---|---|---|---|---|---|
| src/cli/bitcoin_sign_tx.go:141 | after the loop the final message kind is compared with `TxRequest`. The loop only ever leaves on FINISHED with the kind `BitcoinTxRequest`, so a completed signing prints "Unexpected message" and never the transaction | one SPENDADDRESS input with an empty previous hash and one output. The device asks for metadata, input 0 and output 0, then sends FINISHED carrying the bytes 01 00 and the signature for input 0 | compare with `BitcoinTxRequest`, the kind a FINISHED request arrives with, and print the signed transaction "0100" | high that the as-written check rejects every completed signing, given that the two kinds differ (not executed) | Properties.ExampleAsWritten | Properties.ExampleIntended |
