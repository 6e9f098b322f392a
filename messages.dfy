/**
 * The protobuf messages exchanged with the device, as the signing code uses them.
 * Optional protobuf fields (Go pointers, nil-able byte slices) are Options;
 * repeated fields are sequences.
 */
module Messages {
  import opened Wrappers
  import opened Hex

  const U32: int := 0x1_0000_0000
  type uint32 = x: int | 0 <= x < 0x1_0000_0000
  type uint64 = x: int | 0 <= x < 0x1_0000_0000_0000_0000
  type Bytes = seq<byte>

  /** InputScriptType enumeration. */
  const SPENDADDRESS: int := 0
  const SPENDMULTISIG: int := 1
  const EXTERNAL: int := 2
  const SPENDWITNESS: int := 3
  const SPENDP2SHWITNESS: int := 4

  /** InputScriptType_value: the name-to-number table of the enumeration. */
  const InputScriptTypeValue: map<string, int> := map[
    "SPENDADDRESS" := SPENDADDRESS,
    "SPENDMULTISIG" := SPENDMULTISIG,
    "EXTERNAL" := EXTERNAL,
    "SPENDWITNESS" := SPENDWITNESS,
    "SPENDP2SHWITNESS" := SPENDP2SHWITNESS]

  /** OutputScriptType_value. */
  const OutputScriptTypeValue: map<string, int> := map[
    "PAYTOADDRESS" := 0,
    "PAYTOSCRIPTHASH" := 1,
    "PAYTOMULTISIG" := 2,
    "PAYTOOPRETURN" := 3,
    "PAYTOWITNESS" := 4,
    "PAYTOP2SHWITNESS" := 5]

  /** Indexing a Go map: a missing key yields the zero value. */
  function EnumValue(table: map<string, int>, name: string): int {
    if name in table then table[name] else 0
  }

  /** Inputs whose script type makes the device ask for the whole previous transaction. */
  predicate IsLegacy(scriptType: int) {
    scriptType != SPENDP2SHWITNESS && scriptType != SPENDWITNESS && scriptType != EXTERNAL
  }

  datatype TxInput = TxInput(
    addressN: seq<uint32>,
    prevHash: Bytes,
    prevIndex: uint32,
    scriptSig: Bytes,
    scriptType: int,
    amount: uint64)

  datatype TxOutput = TxOutput(
    addressN: seq<uint32>,
    address: string,
    scriptType: int,
    amount: uint64)

  datatype TxOutputBin = TxOutputBin(amount: uint64, scriptPubkey: Bytes)

  /**
   * A transaction as acknowledged to the device. version and lockTime stand for
   * every field the signing code never touches.
   */
  datatype TransactionType = TransactionType(
    version: Option<uint32>,
    inputs: seq<TxInput>,
    binOutputs: seq<TxOutputBin>,
    outputs: seq<TxOutput>,
    lockTime: Option<uint32>,
    inputsCnt: Option<uint32>,
    outputsCnt: Option<uint32>,
    extraData: Option<Bytes>,
    extraDataLen: Option<uint32>)

  /** The zero value of the message struct. */
  const EmptyTx: TransactionType :=
    TransactionType(None, [], [], [], None, None, None, None, None)

  /** The five request types the signing loop handles. */
  datatype RequestType = TXINPUT | TXOUTPUT | TXMETA | TXFINISHED | TXEXTRADATA

  datatype RequestDetails = RequestDetails(
    requestIndex: Option<uint32>,
    txHash: Option<Bytes>,
    extraDataLen: Option<uint32>,
    extraDataOffset: Option<uint32>)

  datatype SerializedData = SerializedData(
    signatureIndex: Option<uint32>,
    signature: Option<Bytes>,
    serializedTx: Option<Bytes>)

  /** A decoded transaction request. */
  datatype TxRequest = TxRequest(
    requestType: Option<RequestType>,
    details: Option<RequestDetails>,
    serialized: Option<SerializedData>)

  /**
   * Message kinds. MessageType_BitcoinTxRequest and MessageType_TxRequest are two
   * different members of the message-type enumeration.
   */
  datatype MessageKind = BitcoinTxRequestKind | TxRequestKind | FailureKind | OtherKind(id: nat)

  /** A device reply: its kind and, for a BitcoinTxRequest, the decoded request it carries. */
  datatype Message = Message(kind: MessageKind, request: TxRequest)
}
