/**
 * Answering one device request: the transaction it refers to is looked up by the hex of
 * its hash, and the ack carries exactly the slice the request asks for.
 */
module Router {
  import opened Wrappers
  import opened Hex
  import opened Messages

  /** The ways the Go code panics while answering a request or storing a signature. */
  datatype PanicReason = NilDereference | SliceBounds | IndexOutOfRange

  datatype Routed = Reply(ack: TransactionType) | Crash(reason: PanicReason)

  /** The table key: hex.EncodeToString of the hash; a nil hash encodes to "". */
  function TableKey(txHash: Option<Bytes>): string {
    Encode(txHash.GetOr([]))
  }

  /** Indexing the Go map: a missing key yields the zero-valued message. */
  function Lookup(txes: map<string, TransactionType>, key: string): TransactionType {
    if key in txes then txes[key] else EmptyTx
  }

  /** Go's s[lo:hi] on a slice whose capacity is its length: None is a panic. */
  function GoSlice<T>(s: seq<T>, lo: int, hi: int): Option<seq<T>> {
    if 0 <= lo <= hi <= |s| then Some(s[lo..hi]) else None
  }

  /** copyTransaction: the counts of a transaction without any of its line items. */
  function CopyTransaction(tx: TransactionType): (c: TransactionType)
    ensures c.inputs == [] && c.outputs == [] && c.binOutputs == [] && c.extraData == None
    ensures c.inputsCnt.Some? && c.outputsCnt.Some? && c.extraDataLen.Some?
    ensures c.version == tx.version && c.lockTime == tx.lockTime
  {
    tx.(inputsCnt := Some(|tx.inputs| % U32), inputs := [],
        outputsCnt := Some(|tx.outputs| % U32), outputs := [],
        binOutputs := [],
        extraDataLen := Some(if tx.extraData.Some? then |tx.extraData.value| % U32 else 0),
        extraData := None)
  }

  /** The metadata projection keeps counts and lengths, empties every list, and keeps the rest. */
  lemma CopyTransactionIsMetadata(tx: TransactionType)
    requires |tx.inputs| < U32 && |tx.outputs| < U32
    requires tx.extraData.Some? ==> |tx.extraData.value| < U32
    ensures var c := CopyTransaction(tx);
      && c.inputsCnt == Some(|tx.inputs|)
      && c.outputsCnt == Some(|tx.outputs|)
      && c.inputs == [] && c.outputs == [] && c.binOutputs == []
      && c.extraData == None
      && c.extraDataLen == Some(|tx.extraData.GetOr([])|)
      && c.version == tx.version && c.lockTime == tx.lockTime
  {
  }

  /**
   * One turn of the signing loop after the FINISHED test: the reply for a
   * metadata, input, output or extra-data request, or the panic the Go code hits.
   */
  function Route(req: TxRequest, txes: map<string, TransactionType>): (r: Routed)
    requires req.requestType.Some? && req.requestType.value != TXFINISHED
    ensures req.details.None? ==> r == Crash(NilDereference)
    ensures r.Reply? ==> |r.ack.inputs| <= 1 && |r.ack.outputs| <= 1 && |r.ack.binOutputs| <= 1
  {
    match req.details
    case None => Crash(NilDereference)
    case Some(d) =>
      var current := Lookup(txes, TableKey(d.txHash));
      match req.requestType.value
      case TXMETA => Reply(CopyTransaction(current))
      case TXINPUT =>
        (match d.requestIndex
         case None => Crash(NilDereference)
         case Some(i) =>
           match GoSlice(current.inputs, i, (i + 1) % U32)
           case None => Crash(SliceBounds)
           case Some(one) => Reply(EmptyTx.(inputs := one)))
      case TXOUTPUT =>
        (match d.requestIndex
         case None => Crash(NilDereference)
         case Some(i) =>
           if d.txHash.Some? then
             match GoSlice(current.binOutputs, i, (i + 1) % U32)
             case None => Crash(SliceBounds)
             case Some(one) => Reply(EmptyTx.(binOutputs := one))
           else
             match GoSlice(current.outputs, i, (i + 1) % U32)
             case None => Crash(SliceBounds)
             case Some(one) => Reply(EmptyTx.(outputs := one)))
      case TXEXTRADATA =>
        if d.extraDataOffset.None? || d.extraDataLen.None? then Crash(NilDereference)
        else
          var offset, l := d.extraDataOffset.value, d.extraDataLen.value;
          match GoSlice(current.extraData.GetOr([]), offset, (offset + l) % U32)
          case None => Crash(SliceBounds)
          case Some(chunk) => Reply(EmptyTx.(extraData := if current.extraData.None? then None else Some(chunk)))
  }

  /** The transaction a request refers to; without a hash it is the one being signed. */
  function Referenced(req: TxRequest, txes: map<string, TransactionType>): TransactionType
    requires req.details.Some?
  {
    Lookup(txes, TableKey(req.details.value.txHash))
  }

  lemma ReferencedByHexKey(req: TxRequest, txes: map<string, TransactionType>)
    requires req.details.Some?
    ensures req.details.value.txHash.None? ==> Referenced(req, txes) == Lookup(txes, "")
    ensures req.details.value.txHash.Some? ==>
              Referenced(req, txes) == Lookup(txes, Encode(req.details.value.txHash.value))
    ensures Encode(req.details.value.txHash.GetOr([])) in txes ==>
              Referenced(req, txes) == txes[Encode(req.details.value.txHash.GetOr([]))]
    ensures Encode(req.details.value.txHash.GetOr([])) !in txes ==> Referenced(req, txes) == EmptyTx
  {
  }

  /** A request whose details are missing dereferences nil. */
  lemma RouteWithoutDetails(req: TxRequest, txes: map<string, TransactionType>)
    requires req.requestType.Some? && req.requestType.value != TXFINISHED
    requires req.details.None?
    ensures Route(req, txes) == Crash(NilDereference)
  {
  }

  /** A metadata request is answered with the projection of the referenced transaction. */
  lemma RouteMeta(req: TxRequest, txes: map<string, TransactionType>)
    requires req.requestType == Some(TXMETA) && req.details.Some?
    ensures Route(req, txes) == Reply(CopyTransaction(Referenced(req, txes)))
    ensures Route(req, txes).ack.inputs == [] && Route(req, txes).ack.outputs == []
    ensures Route(req, txes).ack.binOutputs == [] && Route(req, txes).ack.extraData == None
  {
  }

  /**
   * An input request is answered with exactly the one input at the requested index,
   * and panics when the index is out of range.
   */
  lemma RouteInput(req: TxRequest, txes: map<string, TransactionType>)
    requires req.requestType == Some(TXINPUT) && req.details.Some?
    requires req.details.value.requestIndex.Some?
    requires |Referenced(req, txes).inputs| < U32
    ensures var i := req.details.value.requestIndex.value;
      var inputs := Referenced(req, txes).inputs;
      && (Route(req, txes).Reply? <==> i < |inputs|)
      && (i < |inputs| ==> Route(req, txes).ack == EmptyTx.(inputs := [inputs[i]]))
      && (i >= |inputs| ==> Route(req, txes) == Crash(SliceBounds))
  {
    var i := req.details.value.requestIndex.value;
    var inputs := Referenced(req, txes).inputs;
    if i < |inputs| {
      assert inputs[i..i + 1] == [inputs[i]];
    }
  }

  /**
   * An output request fills the binary outputs when the request names a hash and the
   * structured outputs otherwise, never both; an index out of range panics.
   */
  lemma RouteOutput(req: TxRequest, txes: map<string, TransactionType>)
    requires req.requestType == Some(TXOUTPUT) && req.details.Some?
    requires req.details.value.requestIndex.Some?
    requires |Referenced(req, txes).outputs| < U32 && |Referenced(req, txes).binOutputs| < U32
    ensures var d := req.details.value;
      var i := d.requestIndex.value;
      var tx := Referenced(req, txes);
      && (d.txHash.Some? ==>
            && (Route(req, txes).Reply? <==> i < |tx.binOutputs|)
            && (i < |tx.binOutputs| ==> Route(req, txes).ack == EmptyTx.(binOutputs := [tx.binOutputs[i]])))
      && (d.txHash.None? ==>
            && (Route(req, txes).Reply? <==> i < |tx.outputs|)
            && (i < |tx.outputs| ==> Route(req, txes).ack == EmptyTx.(outputs := [tx.outputs[i]])))
      && (Route(req, txes).Reply? ==> Route(req, txes).ack.outputs == [] || Route(req, txes).ack.binOutputs == [])
  {
    var d := req.details.value;
    var i := d.requestIndex.value;
    var tx := Referenced(req, txes);
    if i < |tx.binOutputs| {
      assert tx.binOutputs[i..i + 1] == [tx.binOutputs[i]];
    }
    if i < |tx.outputs| {
      assert tx.outputs[i..i + 1] == [tx.outputs[i]];
    }
  }

  /**
   * An extra-data request is answered with ExtraData[offset:offset+len], of length len,
   * and panics when that range leaves the stored bytes (also when offset+len wraps).
   */
  lemma RouteExtraData(req: TxRequest, txes: map<string, TransactionType>)
    requires req.requestType == Some(TXEXTRADATA) && req.details.Some?
    requires req.details.value.extraDataOffset.Some? && req.details.value.extraDataLen.Some?
    requires |Referenced(req, txes).extraData.GetOr([])| < U32
    ensures var d := req.details.value;
      var offset, l := d.extraDataOffset.value, d.extraDataLen.value;
      var data := Referenced(req, txes).extraData.GetOr([]);
      && (Route(req, txes).Reply? <==> offset + l <= |data|)
      && (Route(req, txes).Reply? ==>
            && Route(req, txes).ack.extraData.GetOr([]) == data[offset..offset + l]
            && |Route(req, txes).ack.extraData.GetOr([])| == l
            && Route(req, txes).ack.inputs == [] && Route(req, txes).ack.outputs == []
            && Route(req, txes).ack.binOutputs == [])
  {
    var d := req.details.value;
    var offset, l := d.extraDataOffset.value, d.extraDataLen.value;
    if offset + l >= U32 {
      assert (offset + l) % U32 == offset + l - U32 < offset;
    } else {
      assert (offset + l) % U32 == offset + l;
    }
  }
}
