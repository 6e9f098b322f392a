/**
 * The signing exchange of the btcSignTx command: the pre-flight check on previous
 * transactions, the loop that absorbs streamed bytes and signatures and answers each
 * request, and the checks on the final message. The device is a sequence of decoded
 * replies: the first answers the begin-signing call, each later one the previous ack.
 */
module Session {
  import opened Wrappers
  import opened Hex
  import opened Messages
  import opened Build
  import opened Router

  /** How a signing attempt ends. */
  datatype Outcome =
    | BuildFailed(err: HexError)     // a malformed hex field in the inputs
    | MissingPrevTx(key: string)     // "Could not retrieve prev_tx"
    | NoReply                        // the device produced no further message
    | Panic(reason: PanicReason)     // a nil dereference or an out-of-range index
    | DuplicateSignature(index: nat) // "Signature for index already filled"
    | SigningFailed                  // "Signing failed"
    | UnexpectedMessage              // "Unexpected message"
    | SignaturesMissing              // "Some signatures are missing!"
    | Signed(hex: string)            // the signed transaction

  /** The calls made on the device. */
  datatype Sent = BeginSign(coinName: string, inputsCount: uint32, outputsCount: uint32)
                | TxAck(tx: TransactionType)

  /** The session state: one signature slot per input, and the streamed bytes. */
  datatype SessionState = SessionState(signatures: seq<Option<Bytes>>, serializedTx: Bytes)

  function InitialState(n: nat): SessionState {
    SessionState(seq(n, _ => None), [])
  }

  /** The serialized-transaction fragment a request carries, if any. */
  function Fragment(res: TxRequest): Bytes {
    match res.serialized
    case None => []
    case Some(s) => s.serializedTx.GetOr([])
  }

  function Fragments(msgs: seq<Message>): Bytes {
    if msgs == [] then [] else Fragment(msgs[0].request) + Fragments(msgs[1..])
  }

  /**
   * Absorbing one request: its fragment is appended, then its signature is stored in a
   * slot that must still be empty.
   */
  function AbsorbSpec(st: SessionState, res: TxRequest): (r: Result<SessionState, Outcome>)
    ensures r.Ok? ==> r.value.serializedTx == st.serializedTx + Fragment(res) && |r.value.signatures| == |st.signatures|
    ensures r.Err? ==> r.error == Panic(IndexOutOfRange) || r.error.DuplicateSignature?
  {
    match res.serialized
    case None => Ok(st)
    case Some(s) =>
      var bytes := st.serializedTx + s.serializedTx.GetOr([]);
      match s.signatureIndex
      case None => Ok(st.(serializedTx := bytes))
      case Some(idx) =>
        if idx >= |st.signatures| then Err(Panic(IndexOutOfRange))
        else if st.signatures[idx].Some? then Err(DuplicateSignature(idx))
        else Ok(SessionState(st.signatures[idx := s.signature], bytes))
  }

  /**
   * What absorbing means: bytes are appended in order, the signature is stored in the slot
   * its index names, which must be empty, a second signature for a filled slot stops the
   * session, and no other slot changes.
   */
  lemma AbsorbProperties(st: SessionState, res: TxRequest)
    ensures AbsorbSpec(st, res).Ok? ==>
      var st' := AbsorbSpec(st, res).value;
      && st'.serializedTx == st.serializedTx + Fragment(res)
      && |st'.signatures| == |st.signatures|
      && forall i :: 0 <= i < |st.signatures| && st.signatures[i].Some? ==> st'.signatures[i] == st.signatures[i]
    ensures AbsorbSpec(st, res).Ok? && res.serialized.Some? && res.serialized.value.signatureIndex.Some? ==>
      var idx := res.serialized.value.signatureIndex.value;
      && idx < |st.signatures| && st.signatures[idx].None?
      && AbsorbSpec(st, res).value.signatures == st.signatures[idx := res.serialized.value.signature]
    ensures AbsorbSpec(st, res).Ok? && (res.serialized.None? || res.serialized.value.signatureIndex.None?) ==>
      AbsorbSpec(st, res).value.signatures == st.signatures
    ensures AbsorbSpec(st, res).Err? <==>
      res.serialized.Some? && res.serialized.value.signatureIndex.Some? &&
      var idx := res.serialized.value.signatureIndex.value;
      idx >= |st.signatures| || st.signatures[idx].Some?
    ensures forall idx :: (0 <= idx < |st.signatures| && st.signatures[idx].Some? &&
                           res.serialized.Some? && res.serialized.value.signatureIndex == Some(idx)) ==>
              AbsorbSpec(st, res) == Err(DuplicateSignature(idx))
  {
  }

  /** How the signing loop ends: with a final message kind to check, or with an outcome. */
  datatype Ending = LoopExit(kind: MessageKind) | Stopped(outcome: Outcome)

  /** The loop's end, its last state, the acks sent and the number of messages absorbed. */
  datatype Exit = Exit(ending: Ending, state: SessionState, acks: seq<TransactionType>, absorbed: nat)

  /**
   * One turn of the loop on a BitcoinTxRequest: absorb, then stop (with an ending, the
   * state reached and how many messages were absorbed, 0 or 1) or answer with an ack.
   */
  datatype Turn = Halt(ending: Ending, state: SessionState, absorbed: nat)
                | Answer(state: SessionState, ack: TransactionType)

  function TakeTurn(txes: map<string, TransactionType>, st: SessionState, res: TxRequest): (t: Turn)
    ensures t.Halt? ==> t.absorbed <= 1
    ensures t.Answer? ==> res.requestType.Some? && res.requestType.value != TXFINISHED
  {
    match AbsorbSpec(st, res)
    case Err(o) => Halt(Stopped(o), st, 0)
    case Ok(st') =>
      if res.requestType.None? then Halt(Stopped(Panic(NilDereference)), st', 1)
      else if res.requestType.value == TXFINISHED then Halt(LoopExit(BitcoinTxRequestKind), st', 1)
      else
        match Route(res, txes)
        case Crash(p) => Halt(Stopped(Panic(p)), st', 1)
        case Reply(tt) => Answer(st', tt)
  }

  /**
   * A turn either stops on a duplicate or out-of-range signature index, reporting the
   * state from before the message (the Go code has appended the fragment by then, but
   * returns at once, so nothing reads it), or absorbs the request; it answers exactly the
   * non-FINISHED requests that route without a panic, with the routed ack.
   */
  lemma TurnAbsorbs(txes: map<string, TransactionType>, st: SessionState, res: TxRequest)
    ensures var t := TakeTurn(txes, st, res);
      && (t.Halt? ==> t.absorbed <= 1)
      && (t.Halt? && t.absorbed == 0 ==> AbsorbSpec(st, res).Err? && t.state == st && t.ending == Stopped(AbsorbSpec(st, res).error))
      && ((t.Halt? && t.absorbed == 1) || t.Answer? ==> AbsorbSpec(st, res).Ok? && t.state == AbsorbSpec(st, res).value)
      && (t.Halt? && t.ending.LoopExit? ==> t.absorbed == 1 && res.requestType == Some(TXFINISHED) && t.ending.kind == BitcoinTxRequestKind)
      && (t.Halt? && t.ending.Stopped? ==> t.ending.outcome.Panic? || t.ending.outcome.DuplicateSignature?)
      && (t.Answer? <==> AbsorbSpec(st, res).Ok? && res.requestType.Some? && res.requestType.value != TXFINISHED &&
                         Route(res, txes).Reply?)
      && (t.Answer? ==> t.ack == Route(res, txes).ack)
  {
    AbsorbProperties(st, res);
  }

  /**
   * The signing loop from the current message on, with the acks sent and the messages
   * absorbed so far as accumulators.
   */
  function Run(txes: map<string, TransactionType>, st: SessionState, msg: Message,
               replies: seq<Message>, acks: seq<TransactionType>, absorbed: nat): (x: Exit)
    ensures absorbed <= x.absorbed <= absorbed + 1 + |replies|
    ensures |acks| <= |x.acks|
    decreases |replies|
  {
    if msg.kind != BitcoinTxRequestKind then Exit(LoopExit(msg.kind), st, acks, absorbed)
    else
      match TakeTurn(txes, st, msg.request)
      case Halt(ending, st', k) => Exit(ending, st', acks, absorbed + k)
      case Answer(st', tt) =>
        if replies == [] then Exit(Stopped(NoReply), st', acks + [tt], absorbed + 1)
        else Run(txes, st', replies[0], replies[1..], acks + [tt], absorbed + 1)
  }

  predicate AllSigned(sigs: seq<Option<Bytes>>) {
    forall i :: 0 <= i < |sigs| ==> sigs[i].Some?
  }

  /** The checks after the loop, as written: the final kind is compared with TxRequest. */
  function CheckResult(kind: MessageKind, st: SessionState): (o: Outcome)
    ensures o.Signed? <==> kind == TxRequestKind && AllSigned(st.signatures)
    ensures o.Signed? ==> o.hex == Encode(st.serializedTx)
    ensures o == SigningFailed <==> kind == FailureKind
    ensures kind == BitcoinTxRequestKind ==> o == UnexpectedMessage
  {
    if kind == FailureKind then SigningFailed
    else if kind != TxRequestKind then UnexpectedMessage
    else if !AllSigned(st.signatures) then SignaturesMissing
    else Signed(Encode(st.serializedTx))
  }

  /**
   * The checks after the loop as evidently intended: the kind that keeps the loop going,
   * BitcoinTxRequest, is the one a FINISHED request arrives with.
   */
  function CheckResultIntended(kind: MessageKind, st: SessionState): (o: Outcome)
    ensures o.Signed? <==> kind == BitcoinTxRequestKind && AllSigned(st.signatures)
    ensures o.Signed? ==> o.hex == Encode(st.serializedTx) && Decode(o.hex) == Ok(st.serializedTx)
    ensures o == SignaturesMissing <==> kind == BitcoinTxRequestKind && !AllSigned(st.signatures)
    ensures o == SigningFailed <==> kind == FailureKind
  {
    if kind == FailureKind then SigningFailed
    else if kind != BitcoinTxRequestKind then UnexpectedMessage
    else if !AllSigned(st.signatures) then SignaturesMissing
    else (DecodeEncode(st.serializedTx); Signed(Encode(st.serializedTx)))
  }

  /** The outcome of a finished loop, with the post-loop check as written or as intended. */
  function Conclude(exit: Exit, intended: bool): Outcome {
    match exit.ending
    case Stopped(o) => o
    case LoopExit(kind) => if intended then CheckResultIntended(kind, exit.state) else CheckResult(kind, exit.state)
  }

  /** The pre-flight check: the hex key of the first legacy input missing from the table. */
  function FirstMissing(inputs: seq<TxInput>, txes: map<string, TransactionType>): (r: Option<string>)
    ensures r.Some? ==> r.value !in txes
  {
    if inputs == [] then None
    else if IsLegacy(inputs[0].scriptType) && Encode(inputs[0].prevHash) !in txes then Some(Encode(inputs[0].prevHash))
    else FirstMissing(inputs[1..], txes)
  }

  /** The table holding only the transaction being signed, under the key "". */
  function InitialTable(inputs: seq<TxInput>, outputs: seq<TxOutput>): map<string, TransactionType> {
    map["" := EmptyTx.(inputs := inputs, outputs := outputs,
                       inputsCnt := Some(|inputs| % U32), outputsCnt := Some(|outputs| % U32))]
  }

  function AcksSent(acks: seq<TransactionType>): (r: seq<Sent>)
    ensures |r| == |acks| && forall k :: 0 <= k < |acks| ==> r[k] == TxAck(acks[k])
  {
    seq(|acks|, k requires 0 <= k < |acks| => TxAck(acks[k]))
  }

  /** The whole action from the parsed description on: its outcome and the device calls made. */
  function SignTxSpec(info: SignInfo, replies: seq<Message>, intended: bool): (Outcome, seq<Sent>) {
    match BuildInputsSpec(info.inputs)
    case Err(e) => (BuildFailed(e), [])
    case Ok(inputs) =>
      var outputs := BuildOutputsSpec(info.outputs);
      var txes := InitialTable(inputs, outputs);
      match FirstMissing(inputs, txes)
      case Some(key) => (MissingPrevTx(key), [])
      case None =>
        var begin := BeginSign("Bitcoin", |inputs| % U32, |outputs| % U32);
        if replies == [] then (NoReply, [begin])
        else
          var exit := Run(txes, InitialState(|info.inputs|), replies[0], replies[1..], [], 0);
          (Conclude(exit, intended), [begin] + AcksSent(exit.acks))
  }

  // ---------------------------------------------------------------- the imperative session

  /** The pre-flight loop over the built inputs. */
  method Preflight(inputs: seq<TxInput>, txes: map<string, TransactionType>) returns (missing: Option<string>)
    ensures missing == FirstMissing(inputs, txes)
  {
    var i := 0;
    while i < |inputs|
      invariant 0 <= i <= |inputs|
      invariant FirstMissing(inputs, txes) == FirstMissing(inputs[i..], txes)
    {
      assert inputs[i..][1..] == inputs[i + 1..];
      if IsLegacy(inputs[i].scriptType) {
        var prevHash := Encode(inputs[i].prevHash);
        if prevHash !in txes {
          return Some(prevHash);
        }
      }
      i := i + 1;
    }
    return None;
  }

  /** The state of one signing attempt, updated in place by each device message. */
  class SigningSession {
    const txes: map<string, TransactionType>
    const signatures: array<Option<Bytes>>
    var serializedTx: Bytes
    var msg: Message
    var acks: seq<TransactionType>

    function State(): SessionState
      reads this, signatures
    {
      SessionState(signatures[..], serializedTx)
    }

    constructor (txes: map<string, TransactionType>, n: nat, first: Message)
      ensures this.txes == txes && msg == first && acks == []
      ensures fresh(signatures) && signatures.Length == n
      ensures State() == InitialState(n)
    {
      this.txes := txes;
      signatures := new Option<Bytes>[n](_ => None);
      serializedTx := [];
      msg := first;
      acks := [];
    }

    /**
     * Appends the fragment byte by byte and fills the signature slot. A stop on a duplicate
     * or out-of-range index leaves every slot as it was, with the fragment already appended.
     */
    method Absorb(res: TxRequest) returns (stop: Option<Outcome>)
      modifies this, signatures
      ensures msg == old(msg) && acks == old(acks)
      ensures AbsorbSpec(old(State()), res).Ok? ==> stop == None && State() == AbsorbSpec(old(State()), res).value
      ensures AbsorbSpec(old(State()), res).Err? ==> stop == Some(AbsorbSpec(old(State()), res).error)
      ensures AbsorbSpec(old(State()), res).Err? ==>
                signatures[..] == old(signatures[..]) && serializedTx == old(serializedTx) + Fragment(res)
    {
      if res.serialized.Some? {
        var s := res.serialized.value;
        if s.serializedTx.Some? {
          var fragment := s.serializedTx.value;
          var i := 0;
          while i < |fragment|
            invariant 0 <= i <= |fragment|
            invariant serializedTx == old(serializedTx) + fragment[..i]
            invariant signatures[..] == old(signatures[..])
            invariant msg == old(msg) && acks == old(acks)
          {
            serializedTx := serializedTx + [fragment[i]];
            i := i + 1;
          }
          assert fragment[..i] == fragment;
        }
        if s.signatureIndex.Some? {
          var idx := s.signatureIndex.value;
          if idx >= signatures.Length {
            return Some(Panic(IndexOutOfRange));
          }
          if signatures[idx].Some? {
            return Some(DuplicateSignature(idx));
          }
          signatures[idx] := s.signature;
        }
      }
      return None;
    }

    /** The signing loop: runs while the device sends BitcoinTxRequest messages. */
    method Drive(replies: seq<Message>) returns (exit: Exit)
      modifies this, signatures
      ensures exit == Run(txes, old(State()), old(msg), replies, old(acks), 0)
      ensures acks == exit.acks
      ensures exit.ending.LoopExit? ==> State() == exit.state && msg.kind == exit.ending.kind
      ensures signatures[..] == exit.state.signatures
    {
      var next, count := 0, 0;
      while msg.kind == BitcoinTxRequestKind
        invariant 0 <= next <= |replies|
        invariant Run(txes, old(State()), old(msg), replies, old(acks), 0) ==
                  Run(txes, State(), msg, replies[next..], acks, count)
        decreases |replies| - next
      {
        var res := msg.request;
        var before := State();
        var stop := Absorb(res);
        if stop.Some? {
          return Exit(Stopped(stop.value), before, acks, count);
        }
        count := count + 1;
        if res.requestType.None? {
          return Exit(Stopped(Panic(NilDereference)), State(), acks, count);
        }
        if res.requestType.value == TXFINISHED {
          break;
        }
        var routed := Route(res, txes);
        if routed.Crash? {
          return Exit(Stopped(Panic(routed.reason)), State(), acks, count);
        }
        acks := acks + [routed.ack];
        if next == |replies| {
          return Exit(Stopped(NoReply), State(), acks, count);
        }
        assert replies[next..][1..] == replies[next + 1..];
        msg := replies[next];
        next := next + 1;
      }
      return Exit(LoopExit(msg.kind), State(), acks, count);
    }

    /** The final scan of the signature slots. */
    method AllSlotsFilled() returns (ok: bool)
      ensures ok <==> AllSigned(signatures[..])
    {
      for i := 0 to signatures.Length
        invariant forall k :: 0 <= k < i ==> signatures[k].Some?
      {
        if signatures[i].None? {
          return false;
        }
      }
      return true;
    }

    /** The checks after the loop, on the last message received. */
    method Finish() returns (o: Outcome)
      ensures o == CheckResult(msg.kind, State())
    {
      if msg.kind == FailureKind {
        return SigningFailed;
      } else if msg.kind != TxRequestKind {
        return UnexpectedMessage;
      }
      var ok := AllSlotsFilled();
      if !ok {
        return SignaturesMissing;
      }
      return Signed(Encode(serializedTx));
    }

    /** The checks after the loop as evidently intended, comparing with BitcoinTxRequest. */
    method FinishIntended() returns (o: Outcome)
      ensures o == CheckResultIntended(msg.kind, State())
    {
      if msg.kind == FailureKind {
        return SigningFailed;
      } else if msg.kind != BitcoinTxRequestKind {
        return UnexpectedMessage;
      }
      var ok := AllSlotsFilled();
      if !ok {
        return SignaturesMissing;
      }
      return Signed(Encode(serializedTx));
    }
  }

  /**
   * The btcSignTx action from the parsed description on, with the post-loop check as
   * written (intended == false) or as evidently intended.
   */
  method SignTx(info: SignInfo, replies: seq<Message>, intended: bool) returns (outcome: Outcome, sent: seq<Sent>)
    ensures (outcome, sent) == SignTxSpec(info, replies, intended)
  {
    var inputs := BuildInputs(info.inputs);
    if inputs.Err? {
      return BuildFailed(inputs.error), [];
    }
    var outputs, err := BuildOutputs(info.outputs);
    // buildOutputs never reports an error, so the action's check of it never fires
    assert err.None?;
    var inputsCnt, outputsCnt := |inputs.value| % U32, |outputs| % U32;
    var txes := InitialTable(inputs.value, outputs);
    var missing := Preflight(inputs.value, txes);
    if missing.Some? {
      return MissingPrevTx(missing.value), [];
    }
    var begin := BeginSign("Bitcoin", inputsCnt, outputsCnt);
    if |replies| == 0 {
      return NoReply, [begin];
    }
    var session := new SigningSession(txes, |info.inputs|, replies[0]);
    var exit := session.Drive(replies[1..]);
    sent := [begin] + AcksSent(exit.acks);
    match exit.ending {
      case Stopped(o) =>
        outcome := o;
      case LoopExit(_) =>
        if intended {
          outcome := session.FinishIntended();
        } else {
          outcome := session.Finish();
        }
    }
  }
}
