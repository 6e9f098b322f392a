/** Properties of the signing exchange, proved about the session's specification. */
module Properties {
  import opened Wrappers
  import opened Hex
  import opened Messages
  import opened Build
  import opened Router
  import opened Session

  lemma FragmentsCons(m: Message, rest: seq<Message>)
    ensures Fragments([m] + rest) == Fragment(m.request) + Fragments(rest)
  {
    assert ([m] + rest)[1..] == rest;
  }

  lemma FragmentsPrefix(a: Bytes, msg: Message, replies: seq<Message>, k: nat)
    requires k <= |replies|
    ensures (a + Fragment(msg.request)) + Fragments(replies[..k]) == a + Fragments(([msg] + replies)[..k + 1])
  {
    assert ([msg] + replies)[..k + 1] == [msg] + replies[..k];
    FragmentsCons(msg, replies[..k]);
  }

  /** The bytes after a run from the next reply, read as bytes after a run from this message. */
  lemma FragmentsShift(x: Exit, a: Bytes, msg: Message, replies: seq<Message>, n: nat)
    requires replies != []
    requires n + 1 <= x.absorbed <= n + 1 + |replies|
    requires x.state.serializedTx == (a + Fragment(msg.request)) + Fragments(([replies[0]] + replies[1..])[..x.absorbed - n - 1])
    ensures x.state.serializedTx == a + Fragments(([msg] + replies)[..x.absorbed - n])
  {
    assert [replies[0]] + replies[1..] == replies;
    FragmentsPrefix(a, msg, replies, x.absorbed - n - 1);
  }

  /** A turn that answers and has a reply to read moves the loop on to that reply. */
  lemma RunAnswers(txes: map<string, TransactionType>, st: SessionState, msg: Message,
                   replies: seq<Message>, acks: seq<TransactionType>, n: nat)
    requires msg.kind == BitcoinTxRequestKind && TakeTurn(txes, st, msg.request).Answer? && replies != []
    ensures var t := TakeTurn(txes, st, msg.request);
      && t.state.serializedTx == st.serializedTx + Fragment(msg.request)
      && Run(txes, st, msg, replies, acks, n) == Run(txes, t.state, replies[0], replies[1..], acks + [t.ack], n + 1)
  {
  }

  /** The loop's last turn absorbs at most the current message. */
  lemma RunEnds(txes: map<string, TransactionType>, st: SessionState, msg: Message,
                replies: seq<Message>, acks: seq<TransactionType>, n: nat)
    requires !(msg.kind == BitcoinTxRequestKind && TakeTurn(txes, st, msg.request).Answer? && replies != [])
    ensures var x := Run(txes, st, msg, replies, acks, n);
      && n <= x.absorbed <= n + 1
      && x.state.serializedTx == st.serializedTx + Fragments(([msg] + replies)[..x.absorbed - n])
      && (x.ending == LoopExit(BitcoinTxRequestKind) ==>
            x.absorbed == n + 1 && msg.kind == BitcoinTxRequestKind && msg.request.requestType == Some(TXFINISHED))
  {
    var x := Run(txes, st, msg, replies, acks, n);
    if msg.kind == BitcoinTxRequestKind {
      TurnAbsorbs(txes, st, msg.request);
    }
    assert ([msg] + replies)[..0] == [];
    if x.absorbed == n + 1 {
      FragmentsPrefix(st.serializedTx, msg, replies, 0);
      assert replies[..0] == [];
    }
  }

  /**
   * Streamed fragments are appended in arrival order: the final bytes are the initial
   * bytes followed by the fragments of the messages absorbed, in turn.
   */
  lemma {:induction false} RunAppendsFragments(txes: map<string, TransactionType>, st: SessionState, msg: Message,
                                               replies: seq<Message>, acks: seq<TransactionType>, n: nat)
    ensures var x := Run(txes, st, msg, replies, acks, n);
      && n <= x.absorbed <= n + 1 + |replies|
      && x.state.serializedTx == st.serializedTx + Fragments(([msg] + replies)[..x.absorbed - n])
    decreases |replies|
  {
    if msg.kind == BitcoinTxRequestKind && TakeTurn(txes, st, msg.request).Answer? && replies != [] {
      var t := TakeTurn(txes, st, msg.request);
      RunAnswers(txes, st, msg, replies, acks, n);
      var y := Run(txes, t.state, replies[0], replies[1..], acks + [t.ack], n + 1);
      RunAppendsFragments(txes, t.state, replies[0], replies[1..], acks + [t.ack], n + 1);
      FragmentsShift(y, st.serializedTx, msg, replies, n);
    } else {
      RunEnds(txes, st, msg, replies, acks, n);
    }
  }

  /** A filled signature slot is never overwritten, and the number of slots never changes. */
  lemma {:induction false} RunKeepsSignatures(txes: map<string, TransactionType>, st: SessionState, msg: Message,
                                              replies: seq<Message>, acks: seq<TransactionType>, n: nat)
    ensures var x := Run(txes, st, msg, replies, acks, n);
      && |x.state.signatures| == |st.signatures|
      && forall i :: 0 <= i < |st.signatures| && st.signatures[i].Some? ==> x.state.signatures[i] == st.signatures[i]
    decreases |replies|
  {
    if msg.kind == BitcoinTxRequestKind {
      var t := TakeTurn(txes, st, msg.request);
      TurnAbsorbs(txes, st, msg.request);
      AbsorbProperties(st, msg.request);
      if t.Answer? && replies != [] {
        RunKeepsSignatures(txes, t.state, replies[0], replies[1..], acks + [t.ack], n + 1);
      }
    }
  }

  /** A second signature for a filled slot stops the session and the first one is kept. */
  lemma DuplicateStopsKeepingFirst(txes: map<string, TransactionType>, st: SessionState, msg: Message,
                                   replies: seq<Message>, acks: seq<TransactionType>, n: nat, idx: nat)
    requires msg.kind == BitcoinTxRequestKind
    requires msg.request.serialized.Some? && msg.request.serialized.value.signatureIndex == Some(idx)
    requires idx < |st.signatures| && st.signatures[idx].Some?
    ensures var x := Run(txes, st, msg, replies, acks, n);
      && x == Exit(Stopped(DuplicateSignature(idx)), st, acks, n)
      && x.state.signatures[idx] == st.signatures[idx]
      && Conclude(x, false) == DuplicateSignature(idx)
  {
    AbsorbProperties(st, msg.request);
  }

  /** A FINISHED request still has its fragment and signature absorbed before the loop ends. */
  lemma FinishedCarriesData(txes: map<string, TransactionType>, st: SessionState, msg: Message,
                            replies: seq<Message>, acks: seq<TransactionType>, n: nat)
    requires msg.kind == BitcoinTxRequestKind && msg.request.requestType == Some(TXFINISHED)
    requires AbsorbSpec(st, msg.request).Ok?
    ensures var x := Run(txes, st, msg, replies, acks, n);
      && x == Exit(LoopExit(BitcoinTxRequestKind), AbsorbSpec(st, msg.request).value, acks, n + 1)
      && x.state.serializedTx == st.serializedTx + Fragment(msg.request)
  {
    AbsorbProperties(st, msg.request);
  }

  /** A Failure message while awaiting a request ends the session as failed, state untouched. */
  lemma FailureEndsSession(txes: map<string, TransactionType>, st: SessionState, msg: Message,
                           replies: seq<Message>, acks: seq<TransactionType>, n: nat)
    requires msg.kind == FailureKind
    ensures Run(txes, st, msg, replies, acks, n) == Exit(LoopExit(FailureKind), st, acks, n)
    ensures Conclude(Run(txes, st, msg, replies, acks, n), false) == SigningFailed
    ensures Conclude(Run(txes, st, msg, replies, acks, n), true) == SigningFailed
  {
  }

  /**
   * The loop ends with the kind BitcoinTxRequest exactly when the last message absorbed
   * was a FINISHED request.
   */
  lemma {:induction false} LoopExitOnFinished(txes: map<string, TransactionType>, st: SessionState, msg: Message,
                                              replies: seq<Message>, acks: seq<TransactionType>, n: nat)
    ensures var x := Run(txes, st, msg, replies, acks, n);
      x.ending == LoopExit(BitcoinTxRequestKind) ==>
        && n < x.absorbed <= n + 1 + |replies|
        && ([msg] + replies)[x.absorbed - n - 1].kind == BitcoinTxRequestKind
        && ([msg] + replies)[x.absorbed - n - 1].request.requestType == Some(TXFINISHED)
    decreases |replies|, 1
  {
    if msg.kind == BitcoinTxRequestKind && TakeTurn(txes, st, msg.request).Answer? && replies != [] {
      NextTurnOnFinished(txes, st, msg, replies, acks, n);
    } else {
      LastTurnOnFinished(txes, st, msg, replies, acks, n);
    }
  }

  /** When the loop moves on, the FINISHED request it leaves on is one further along. */
  lemma {:induction false} NextTurnOnFinished(txes: map<string, TransactionType>, st: SessionState, msg: Message,
                                              replies: seq<Message>, acks: seq<TransactionType>, n: nat)
    requires msg.kind == BitcoinTxRequestKind && TakeTurn(txes, st, msg.request).Answer? && replies != []
    ensures var x := Run(txes, st, msg, replies, acks, n);
      x.ending == LoopExit(BitcoinTxRequestKind) ==>
        && n < x.absorbed <= n + 1 + |replies|
        && ([msg] + replies)[x.absorbed - n - 1].kind == BitcoinTxRequestKind
        && ([msg] + replies)[x.absorbed - n - 1].request.requestType == Some(TXFINISHED)
    decreases |replies|, 0
  {
    var t := TakeTurn(txes, st, msg.request);
    RunAnswers(txes, st, msg, replies, acks, n);
    var x := Run(txes, t.state, replies[0], replies[1..], acks + [t.ack], n + 1);
    LoopExitOnFinished(txes, t.state, replies[0], replies[1..], acks + [t.ack], n + 1);
    if x.ending == LoopExit(BitcoinTxRequestKind) {
      ShiftReply(msg, replies, x.absorbed - n - 2);
    }
  }

  /** On the loop's last turn, leaving with the kind BitcoinTxRequest means this message was FINISHED. */
  lemma LastTurnOnFinished(txes: map<string, TransactionType>, st: SessionState, msg: Message,
                           replies: seq<Message>, acks: seq<TransactionType>, n: nat)
    requires !(msg.kind == BitcoinTxRequestKind && TakeTurn(txes, st, msg.request).Answer? && replies != [])
    ensures var x := Run(txes, st, msg, replies, acks, n);
      x.ending == LoopExit(BitcoinTxRequestKind) ==>
        && n < x.absorbed <= n + 1 + |replies|
        && ([msg] + replies)[x.absorbed - n - 1].kind == BitcoinTxRequestKind
        && ([msg] + replies)[x.absorbed - n - 1].request.requestType == Some(TXFINISHED)
  {
    RunEnds(txes, st, msg, replies, acks, n);
    assert ([msg] + replies)[0] == msg;
  }

  /** The j-th message after the next one is the (j+1)-th after the current one. */
  lemma ShiftReply(msg: Message, replies: seq<Message>, j: nat)
    requires j < |replies|
    ensures ([msg] + replies)[j + 1] == ([replies[0]] + replies[1..])[j]
  {
    assert [replies[0]] + replies[1..] == replies;
  }

  /** Stopping outcomes of the loop are only panics, duplicates and a silent device. */
  lemma {:induction false} RunStops(txes: map<string, TransactionType>, st: SessionState, msg: Message,
                                    replies: seq<Message>, acks: seq<TransactionType>, n: nat)
    ensures var x := Run(txes, st, msg, replies, acks, n);
      x.ending.Stopped? ==> x.ending.outcome.Panic? || x.ending.outcome.DuplicateSignature? || x.ending.outcome == NoReply
    decreases |replies|
  {
    if msg.kind == BitcoinTxRequestKind {
      var t := TakeTurn(txes, st, msg.request);
      TurnAbsorbs(txes, st, msg.request);
      if t.Answer? && replies != [] {
        RunStops(txes, t.state, replies[0], replies[1..], acks + [t.ack], n + 1);
      }
    }
  }

  /**
   * As written, a session that reaches FINISHED ends in "Unexpected message": the loop
   * leaves with the kind BitcoinTxRequest, which the check compares with TxRequest.
   * Only a final message of kind TxRequest can produce a signed transaction.
   */
  lemma FinishedIsUnexpected(x: Exit)
    ensures x.ending == LoopExit(BitcoinTxRequestKind) ==> Conclude(x, false) == UnexpectedMessage
    ensures x.ending.LoopExit? && Conclude(x, false).Signed? ==> x.ending.kind == TxRequestKind
  {
  }

  /**
   * With the intended check, a session that reaches FINISHED with every slot signed yields
   * the hex of the bytes streamed, which decodes back to them; a missing slot is reported.
   */
  lemma IntendedSignsAfterFinished(x: Exit)
    requires x.ending == LoopExit(BitcoinTxRequestKind)
    ensures AllSigned(x.state.signatures) ==> Conclude(x, true) == Signed(Encode(x.state.serializedTx))
    ensures !AllSigned(x.state.signatures) ==> Conclude(x, true) == SignaturesMissing
  {
  }

  /** The pre-flight check finds a legacy input missing from the table exactly when there is one. */
  lemma {:induction false} FirstMissingMeaning(inputs: seq<TxInput>, txes: map<string, TransactionType>)
    ensures FirstMissing(inputs, txes).None? <==>
              forall k :: 0 <= k < |inputs| && IsLegacy(inputs[k].scriptType) ==> Encode(inputs[k].prevHash) in txes
    ensures FirstMissing(inputs, txes).Some? ==>
              exists k :: 0 <= k < |inputs| && IsLegacy(inputs[k].scriptType) &&
                          Encode(inputs[k].prevHash) == FirstMissing(inputs, txes).value &&
                          FirstMissing(inputs, txes).value !in txes
  {
    if inputs != [] {
      FirstMissingMeaning(inputs[1..], txes);
      if FirstMissing(inputs[1..], txes).Some? && FirstMissing(inputs, txes) == FirstMissing(inputs[1..], txes) {
        var k :| 0 <= k < |inputs[1..]| && IsLegacy(inputs[1..][k].scriptType) &&
                 Encode(inputs[1..][k].prevHash) == FirstMissing(inputs, txes).value &&
                 FirstMissing(inputs, txes).value !in txes;
        assert inputs[k + 1] == inputs[1..][k];
      }
      if FirstMissing(inputs, txes).None? {
        forall k | 0 <= k < |inputs| && IsLegacy(inputs[k].scriptType) ensures Encode(inputs[k].prevHash) in txes {
          if k > 0 { assert inputs[k] == inputs[1..][k - 1]; }
        }
      }
      if forall k :: 0 <= k < |inputs| && IsLegacy(inputs[k].scriptType) ==> Encode(inputs[k].prevHash) in txes {
        forall k | 0 <= k < |inputs[1..]| && IsLegacy(inputs[1..][k].scriptType)
          ensures Encode(inputs[1..][k].prevHash) in txes
        {
          assert inputs[1..][k] == inputs[k + 1];
        }
      }
    }
  }

  /**
   * Since the table only ever holds the transaction being signed, the session stops before
   * any device call exactly when some legacy input (script type other than SPENDWITNESS,
   * SPENDP2SHWITNESS and EXTERNAL, including an unknown name) has a non-empty previous hash.
   */
  lemma PreflightRejectsPrevHashes(info: SignInfo, replies: seq<Message>, intended: bool)
    requires BuildInputsSpec(info.inputs).Ok?
    ensures var (outcome, sent) := SignTxSpec(info, replies, intended);
      && (outcome.MissingPrevTx? <==>
            exists k :: 0 <= k < |info.inputs| &&
              IsLegacy(EnumValue(InputScriptTypeValue, info.inputs[k].scriptType)) && info.inputs[k].prevHash != "")
      && (outcome.MissingPrevTx? ==> sent == [])
  {
    var xs := BuildInputsSpec(info.inputs).value;
    var txes := InitialTable(xs, BuildOutputsSpec(info.outputs));
    PreflightKeys(info.inputs, txes);
    if FirstMissing(xs, txes).None? && replies != [] {
      RunStops(txes, InitialState(|info.inputs|), replies[0], replies[1..], [], 0);
    }
  }

  /** Only the empty previous hash has an entry in the initial table. */
  lemma {:induction false} PreflightKeys(info: seq<InputInfo>, txes: map<string, TransactionType>)
    requires BuildInputsSpec(info).Ok? && txes.Keys == {""}
    ensures var xs := BuildInputsSpec(info).value;
      FirstMissing(xs, txes).None? <==>
        forall k :: 0 <= k < |info| && IsLegacy(EnumValue(InputScriptTypeValue, info[k].scriptType)) ==> info[k].prevHash == ""
  {
    var xs := BuildInputsSpec(info).value;
    BuildInputsMeaning(info);
    FirstMissingMeaning(xs, txes);
    forall k | 0 <= k < |xs|
      ensures (Encode(xs[k].prevHash) in txes) <==> info[k].prevHash == ""
    {
      DecodeFails(info[k].prevHash);
      EncodeEmpty(xs[k].prevHash);
    }
  }

  /** A malformed hex field stops the action before any device call. */
  lemma DecodeErrorStopsBeforeDevice(info: SignInfo, replies: seq<Message>, intended: bool)
    requires BuildInputsSpec(info.inputs).Err?
    ensures SignTxSpec(info, replies, intended) == (BuildFailed(BuildInputsSpec(info.inputs).error), [])
    ensures exists k :: 0 <= k < |info.inputs| && BuildInput(info.inputs[k]).Err?
  {
    BuildInputsSpecErr(info.inputs);
  }

  // ---------------------------------------------------------------- the worked example

  /** One standard input and one output; the input's previous hash is empty, so pre-flight passes. */
  const ExampleInfo: SignInfo := SignInfo(
    [InputInfo([44 + 0x8000_0000, 0x8000_0000, 0x8000_0000, 0, 0], "", 0, "", "SPENDADDRESS", 100000)],
    [OutputInfo([], "1BoatSLRHtKNngkdXEeobR76b53LETtpyT", "PAYTOADDRESS", 90000)],
    [])

  function Request(t: RequestType, index: Option<uint32>, ser: Option<SerializedData>): Message {
    Message(BitcoinTxRequestKind, TxRequest(Some(t), Some(RequestDetails(index, None, None, None)), ser))
  }

  /** METADATA, INPUT(0), OUTPUT(0), then FINISHED carrying bytes 01 00 and a signature for input 0. */
  const ExampleReplies: seq<Message> := [
    Request(TXMETA, None, None),
    Request(TXINPUT, Some(0), None),
    Request(TXOUTPUT, Some(0), None),
    Request(TXFINISHED, None, Some(SerializedData(Some(0), Some([0xde, 0xad]), Some([0x01, 0x00]))))]

  /** The input the worked example builds, and the table and final state it leads to. */
  const ExampleInput: TxInput := TxInput([44 + 0x8000_0000, 0x8000_0000, 0x8000_0000, 0, 0], [], 0, [], SPENDADDRESS, 100000)
  const ExampleTable: map<string, TransactionType> := InitialTable([ExampleInput], BuildOutputsSpec(ExampleInfo.outputs))
  const ExampleSigned: SessionState := SessionState([Some([0xde, 0xad])], [0x01, 0x00])

  lemma ExampleBuilds()
    ensures BuildInputsSpec(ExampleInfo.inputs) == Ok([ExampleInput])
    ensures FirstMissing([ExampleInput], ExampleTable) == None
  {
    var d := ExampleInfo.inputs[0];
    assert EnumValue(InputScriptTypeValue, d.scriptType) == SPENDADDRESS;
    assert BuildInput(d) == Ok(ExampleInput);
    assert BuildInputsSpec(ExampleInfo.inputs[1..]) == Ok([]);
    assert BuildInputsSpec(ExampleInfo.inputs) == Ok([ExampleInput] + []);
    assert [ExampleInput] + [] == [ExampleInput];
  }

  /** Each of the first three requests is answered without touching the signing state. */
  lemma ExampleAnswers(k: nat)
    requires k < 3
    ensures TakeTurn(ExampleTable, InitialState(1), ExampleReplies[k].request).Answer?
    ensures TakeTurn(ExampleTable, InitialState(1), ExampleReplies[k].request).state == InitialState(1)
  {
    var st0 := InitialState(1);
    var res := ExampleReplies[k].request;
    assert st0.serializedTx + [] == st0.serializedTx;
    assert AbsorbSpec(st0, res) == Ok(st0);
    assert Route(res, ExampleTable).Reply?;
  }

  /** FINISHED stores the signature and the bytes, then leaves the loop. */
  lemma ExampleFinishes(acks: seq<TransactionType>, n: nat)
    ensures Run(ExampleTable, InitialState(1), ExampleReplies[3], [], acks, n) ==
            Exit(LoopExit(BitcoinTxRequestKind), ExampleSigned, acks, n + 1)
  {
    var st0 := InitialState(1);
    var fin := ExampleReplies[3].request;
    assert st0.signatures == [None];
    assert fin.serialized == Some(SerializedData(Some(0), Some([0xde, 0xad]), Some([0x01, 0x00])));
    assert st0.serializedTx + [0x01, 0x00] == [0x01, 0x00];
    assert st0.signatures[0 := Some([0xde, 0xad])] == [Some([0xde, 0xad])];
    assert AbsorbSpec(st0, fin) == Ok(ExampleSigned);
  }

  /** The loop run from the k-th reply on: one ack per remaining non-FINISHED request. */
  lemma {:induction false} ExampleFrom(k: nat, acks: seq<TransactionType>, n: nat)
    requires k <= 3
    ensures var x := Run(ExampleTable, InitialState(1), ExampleReplies[k], ExampleReplies[k + 1..], acks, n);
      x.ending == LoopExit(BitcoinTxRequestKind) && x.state == ExampleSigned && |x.acks| == |acks| + 3 - k
    decreases 3 - k
  {
    var r := ExampleReplies;
    if k == 3 {
      assert r[k + 1..] == [];
      ExampleFinishes(acks, n);
    } else {
      ExampleAnswers(k);
      var t := TakeTurn(ExampleTable, InitialState(1), r[k].request);
      assert r[k + 1..][0] == r[k + 1] && r[k + 1..][1..] == r[k + 2..];
      ExampleFrom(k + 1, acks + [t.ack], n + 1);
    }
  }

  /** As written, the worked example answers all three requests and then reports "Unexpected message". */
  lemma ExampleAsWritten()
    ensures SignTxSpec(ExampleInfo, ExampleReplies, false).0 == UnexpectedMessage
    ensures |SignTxSpec(ExampleInfo, ExampleReplies, false).1| == 4
  {
    ExampleBuilds();
    ExampleFrom(0, [], 0);
  }

  /** With the intended check, the worked example yields the signed transaction "0100". */
  lemma ExampleIntended()
    ensures SignTxSpec(ExampleInfo, ExampleReplies, true).0 == Signed("0100")
  {
    ExampleBuilds();
    ExampleFrom(0, [], 0);
    ExampleSignedHex();
  }

  /** The signed example state, checked as intended, is the hex string "0100". */
  lemma ExampleSignedHex()
    ensures CheckResultIntended(BitcoinTxRequestKind, ExampleSigned) == Signed("0100")
  {
    assert AllSigned(ExampleSigned.signatures);
    assert Encode([0x01, 0x00]) == "0100";
  }
}
