/**
 * Building the protobuf transaction from the caller's description:
 * buildInputs, buildOutputs and buildPrevTxes. Each is a method that fills a
 * freshly allocated array slot by slot, proved against a function that states
 * the result for the whole description.
 */
module Build {
  import opened Wrappers
  import opened Hex
  import opened Messages

  datatype InputInfo = InputInfo(
    addressN: seq<uint32>,
    prevHash: string,
    prevIndex: uint32,
    script: string,
    scriptType: string,
    amount: uint64)

  datatype OutputInfo = OutputInfo(
    addressN: seq<uint32>,
    address: string,
    scriptType: string,
    amount: uint64)

  datatype TransactionTypeInfo = TransactionTypeInfo(
    version: uint32,
    inputs: seq<InputInfo>,
    outputs: seq<OutputInfo>,
    inputsCount: uint32,
    outputsCount: uint32,
    extraData: string,
    extraDataLen: uint32)

  datatype SignInfo = SignInfo(
    inputs: seq<InputInfo>,
    outputs: seq<OutputInfo>,
    prevTxes: seq<TransactionTypeInfo>)

  // ---------------------------------------------------------------- inputs

  /** One input: the previous hash is decoded first, then the script. */
  function BuildInput(d: InputInfo): (r: Result<TxInput, HexError>)
    ensures r.Ok? <==> Decode(d.prevHash).Ok? && Decode(d.script).Ok?
    ensures Decode(d.prevHash).Err? ==> r == Err(Decode(d.prevHash).error)
    ensures r.Ok? ==> r.value.prevHash == Decode(d.prevHash).value && r.value.scriptSig == Decode(d.script).value
  {
    match Decode(d.prevHash)
    case Err(e) => Err(e)
    case Ok(h) =>
      match Decode(d.script)
      case Err(e) => Err(e)
      case Ok(sig) => Ok(TxInput(d.addressN, h, d.prevIndex, sig,
                                 EnumValue(InputScriptTypeValue, d.scriptType), d.amount))
  }

  /** The inputs of a whole description, or the error of its first malformed input. */
  function BuildInputsSpec(info: seq<InputInfo>): (r: Result<seq<TxInput>, HexError>)
    ensures r.Ok? ==> |r.value| == |info|
  {
    if info == [] then Ok([])
    else
      match BuildInput(info[0])
      case Err(e) => Err(e)
      case Ok(x) =>
        match BuildInputsSpec(info[1..])
        case Err(e) => Err(e)
        case Ok(xs) => Ok([x] + xs)
  }

  /** Building succeeds exactly when every input does, and then gives one input per description. */
  lemma {:induction false} BuildInputsSpecOk(info: seq<InputInfo>)
    ensures BuildInputsSpec(info).Ok? <==> forall k :: 0 <= k < |info| ==> BuildInput(info[k]).Ok?
    ensures BuildInputsSpec(info).Ok? ==>
              |BuildInputsSpec(info).value| == |info| &&
              forall k :: 0 <= k < |info| ==> BuildInputsSpec(info).value[k] == BuildInput(info[k]).value
  {
    if info != [] {
      BuildInputsSpecOk(info[1..]);
      if BuildInput(info[0]).Ok? && BuildInputsSpec(info[1..]).Ok? {
        var xs := BuildInputsSpec(info[1..]).value;
        forall k | 0 <= k < |info| ensures BuildInputsSpec(info).value[k] == BuildInput(info[k]).value {
          if k > 0 { assert info[k] == info[1..][k - 1]; }
        }
      }
      if forall k :: 0 <= k < |info| ==> BuildInput(info[k]).Ok? {
        forall k | 0 <= k < |info[1..]| ensures BuildInput(info[1..][k]).Ok? {
          assert info[1..][k] == info[k + 1];
        }
      }
    }
  }

  /** Building stops with the error of the first malformed input. */
  lemma {:induction false} BuildInputsSpecFirstError(info: seq<InputInfo>, i: nat, e: HexError)
    requires i < |info|
    requires forall k :: 0 <= k < i ==> BuildInput(info[k]).Ok?
    requires BuildInput(info[i]) == Err(e)
    ensures BuildInputsSpec(info) == Err(e)
  {
    if i > 0 {
      forall k | 0 <= k < i - 1 ensures BuildInput(info[1..][k]).Ok? {
        assert info[1..][k] == info[k + 1];
      }
      BuildInputsSpecFirstError(info[1..], i - 1, e);
    }
  }

  /** An error is always the error of some input that every earlier input precedes successfully. */
  lemma {:induction false} BuildInputsSpecErr(info: seq<InputInfo>)
    requires BuildInputsSpec(info).Err?
    ensures exists i :: 0 <= i < |info| && BuildInput(info[i]) == Err(BuildInputsSpec(info).error) &&
              forall k :: 0 <= k < i ==> BuildInput(info[k]).Ok?
  {
    if BuildInput(info[0]).Ok? {
      BuildInputsSpecErr(info[1..]);
      var i :| 0 <= i < |info[1..]| && BuildInput(info[1..][i]) == Err(BuildInputsSpec(info[1..]).error) &&
               forall k :: 0 <= k < i ==> BuildInput(info[1..][k]).Ok?;
      assert info[i + 1] == info[1..][i];
      forall k | 0 <= k < i + 1 ensures BuildInput(info[k]).Ok? {
        if k > 0 { assert info[k] == info[1..][k - 1]; }
      }
    }
  }

  /**
   * What a successful build means field by field: the hex fields are the decodings of the
   * description's strings and re-encode to their lower-case form, the script type is the
   * enumeration value of its name (0, SPENDADDRESS, for an unknown name), and the rest is copied.
   */
  lemma BuildInputsMeaning(info: seq<InputInfo>)
    requires BuildInputsSpec(info).Ok?
    ensures var xs := BuildInputsSpec(info).value;
      |xs| == |info| &&
      forall k :: 0 <= k < |info| ==>
        && Decode(info[k].prevHash) == Ok(xs[k].prevHash)
        && Decode(info[k].script) == Ok(xs[k].scriptSig)
        && Encode(xs[k].prevHash) == Lower(info[k].prevHash)
        && Encode(xs[k].scriptSig) == Lower(info[k].script)
        && (info[k].scriptType in InputScriptTypeValue ==>
              xs[k].scriptType == InputScriptTypeValue[info[k].scriptType])
        && (info[k].scriptType !in InputScriptTypeValue ==>
              xs[k].scriptType == SPENDADDRESS && IsLegacy(xs[k].scriptType))
        && xs[k].addressN == info[k].addressN
        && xs[k].prevIndex == info[k].prevIndex
        && xs[k].amount == info[k].amount
  {
    BuildInputsSpecOk(info);
    var xs := BuildInputsSpec(info).value;
    forall k | 0 <= k < |info|
      ensures Encode(xs[k].prevHash) == Lower(info[k].prevHash)
      ensures Encode(xs[k].scriptSig) == Lower(info[k].script)
    {
      EncodeDecode(info[k].prevHash, xs[k].prevHash);
      EncodeDecode(info[k].script, xs[k].scriptSig);
    }
  }

  /** buildInputs */
  method BuildInputs(info: seq<InputInfo>) returns (r: Result<seq<TxInput>, HexError>)
    ensures r == BuildInputsSpec(info)
  {
    if |info| == 0 {
      return Ok([]);
    }
    var inputs := new TxInput[|info|];
    var i := 0;
    while i < |info|
      invariant 0 <= i <= |info|
      invariant forall k :: 0 <= k < i ==> BuildInput(info[k]).Ok? && inputs[k] == BuildInput(info[k]).value
    {
      var prevHash := Decode(info[i].prevHash);
      if prevHash.Err? {
        BuildInputsSpecFirstError(info, i, prevHash.error);
        return Err(prevHash.error);
      }
      var scriptSig := Decode(info[i].script);
      if scriptSig.Err? {
        BuildInputsSpecFirstError(info, i, scriptSig.error);
        return Err(scriptSig.error);
      }
      inputs[i] := TxInput(info[i].addressN, prevHash.value, info[i].prevIndex, scriptSig.value,
                           EnumValue(InputScriptTypeValue, info[i].scriptType), info[i].amount);
      i := i + 1;
    }
    BuildInputsSpecOk(info);
    assert inputs[..] == BuildInputsSpec(info).value;
    return Ok(inputs[..]);
  }

  // ---------------------------------------------------------------- outputs

  function BuildOutput(d: OutputInfo): TxOutput {
    TxOutput(d.addressN, d.address, EnumValue(OutputScriptTypeValue, d.scriptType), d.amount)
  }

  function BuildOutputsSpec(info: seq<OutputInfo>): seq<TxOutput> {
    seq(|info|, k requires 0 <= k < |info| => BuildOutput(info[k]))
  }

  /** buildOutputs: its error result is never set, whatever the description holds. */
  method BuildOutputs(info: seq<OutputInfo>) returns (outputs: seq<TxOutput>, err: Option<HexError>)
    ensures err == None
    ensures outputs == BuildOutputsSpec(info)
    ensures |outputs| == |info|
    ensures forall k :: 0 <= k < |info| ==>
      && outputs[k].addressN == info[k].addressN
      && outputs[k].address == info[k].address
      && outputs[k].amount == info[k].amount
      && outputs[k].scriptType == EnumValue(OutputScriptTypeValue, info[k].scriptType)
      && (info[k].scriptType !in OutputScriptTypeValue ==> outputs[k].scriptType == 0)
  {
    if |info| == 0 {
      return [], None;
    }
    var a := new TxOutput[|info|];
    var i := 0;
    while i < |info|
      invariant 0 <= i <= |info|
      invariant forall k :: 0 <= k < i ==> a[k] == BuildOutput(info[k])
    {
      a[i] := TxOutput(info[i].addressN, info[i].address,
                       EnumValue(OutputScriptTypeValue, info[i].scriptType), info[i].amount);
      i := i + 1;
    }
    return a[..], None;
  }

  // ---------------------------------------------------------------- previous transactions

  /**
   * The fate of one previous-transaction description: fully built, built up to a count
   * mismatch (which ends the whole build without an error), or failed on malformed hex.
   */
  datatype PrevTxStep = Built(tx: TransactionType) | Truncated(tx: TransactionType) | Failed(e: HexError)

  /**
   * One slot of buildPrevTxes: extra data first, then the outputs and their count check,
   * then the inputs and theirs. The description's version is not copied.
   */
  function BuildPrevTx(d: TransactionTypeInfo): (r: PrevTxStep)
    ensures r.Built? ==> r.tx.outputsCnt == Some(|r.tx.outputs|) && r.tx.inputsCnt == Some(|r.tx.inputs|)
    ensures !r.Failed? ==> r.tx.extraData.Some? && |r.tx.outputs| == |d.outputs|
  {
    match Decode(d.extraData)
    case Err(e) => Failed(e)
    case Ok(extra) =>
      var outputs := BuildOutputsSpec(d.outputs);
      var partial := EmptyTx.(extraData := Some(extra), extraDataLen := Some(d.extraDataLen),
                              outputs := outputs, outputsCnt := Some(d.outputsCount));
      if |outputs| != d.outputsCount then Truncated(partial)
      else
        match BuildInputsSpec(d.inputs)
        case Err(e) => Failed(e)
        case Ok(inputs) =>
          var tx := partial.(inputs := inputs, inputsCnt := Some(d.inputsCount));
          if |inputs| != d.inputsCount then Truncated(tx) else Built(tx)
  }

  /**
   * What one slot's build means: a malformed extra-data or input hex field fails it; a
   * declared count that differs from the built list stops it early; otherwise it holds the
   * decoded data and both lists, and the declared counts are the lists' lengths.
   */
  lemma BuildPrevTxMeaning(d: TransactionTypeInfo)
    ensures BuildPrevTx(d).Failed? <==>
              Decode(d.extraData).Err? ||
              (|d.outputs| == d.outputsCount && BuildInputsSpec(d.inputs).Err?)
    ensures BuildPrevTx(d).Truncated? <==>
              Decode(d.extraData).Ok? &&
              (|d.outputs| != d.outputsCount ||
               (BuildInputsSpec(d.inputs).Ok? && |BuildInputsSpec(d.inputs).value| != d.inputsCount))
    ensures BuildPrevTx(d).Built? ==>
              var tx := BuildPrevTx(d).tx;
              && tx.outputs == BuildOutputsSpec(d.outputs)
              && BuildInputsSpec(d.inputs) == Ok(tx.inputs)
              && tx.outputsCnt == Some(|tx.outputs|)
              && tx.inputsCnt == Some(|tx.inputs|)
              && tx.extraData == Decode(d.extraData).ToOption()
              && tx.extraDataLen == Some(d.extraDataLen)
    ensures !BuildPrevTx(d).Failed? ==> BuildPrevTx(d).tx.outputs == BuildOutputsSpec(d.outputs)
  {
  }

  function NoneSlots(n: nat): (r: seq<Option<TransactionType>>)
    ensures |r| == n && forall k :: 0 <= k < n ==> r[k] == None
  {
    seq(n, _ => None)
  }

  /** The slots of buildPrevTxes for a whole description list. */
  function BuildPrevTxesSpec(info: seq<TransactionTypeInfo>): (r: Result<seq<Option<TransactionType>>, HexError>)
    ensures r.Ok? ==> |r.value| == |info|
  {
    if info == [] then Ok([])
    else
      match BuildPrevTx(info[0])
      case Failed(e) => Err(e)
      case Truncated(tx) => Ok([Some(tx)] + NoneSlots(|info| - 1))
      case Built(tx) =>
        match BuildPrevTxesSpec(info[1..])
        case Err(e) => Err(e)
        case Ok(rest) => Ok([Some(tx)] + rest)
  }

  /** Every description built: one filled slot per description. */
  lemma {:induction false} PrevTxesAllBuilt(info: seq<TransactionTypeInfo>)
    requires forall k :: 0 <= k < |info| ==> BuildPrevTx(info[k]).Built?
    ensures BuildPrevTxesSpec(info).Ok?
    ensures forall k :: 0 <= k < |info| ==> BuildPrevTxesSpec(info).value[k] == Some(BuildPrevTx(info[k]).tx)
  {
    if info != [] {
      forall k | 0 <= k < |info[1..]| ensures BuildPrevTx(info[1..][k]).Built? {
        assert info[1..][k] == info[k + 1];
      }
      PrevTxesAllBuilt(info[1..]);
      forall k | 0 <= k < |info| ensures BuildPrevTxesSpec(info).value[k] == Some(BuildPrevTx(info[k]).tx) {
        if k > 0 { assert info[k] == info[1..][k - 1]; }
      }
    }
  }

  /**
   * A count mismatch at slot i ends the build with no error: earlier slots are filled,
   * slot i holds what was built so far, later slots stay empty.
   */
  lemma {:induction false} PrevTxesTruncated(info: seq<TransactionTypeInfo>, i: nat, slots: seq<Option<TransactionType>>)
    requires i < |info| == |slots|
    requires forall k :: 0 <= k < i ==> BuildPrevTx(info[k]).Built? && slots[k] == Some(BuildPrevTx(info[k]).tx)
    requires BuildPrevTx(info[i]).Truncated? && slots[i] == Some(BuildPrevTx(info[i]).tx)
    requires forall k :: i < k < |info| ==> slots[k] == None
    ensures BuildPrevTxesSpec(info) == Ok(slots)
  {
    if i == 0 {
      assert slots == [slots[0]] + NoneSlots(|info| - 1);
    } else {
      forall k | 0 <= k < i - 1
        ensures BuildPrevTx(info[1..][k]).Built? && slots[1..][k] == Some(BuildPrevTx(info[1..][k]).tx)
      {
        assert info[1..][k] == info[k + 1];
      }
      assert info[1..][i - 1] == info[i];
      PrevTxesTruncated(info[1..], i - 1, slots[1..]);
      assert slots == [slots[0]] + slots[1..];
    }
  }

  /** A malformed hex field at slot i, after well-built slots, is the build's error. */
  lemma {:induction false} PrevTxesFailed(info: seq<TransactionTypeInfo>, i: nat)
    requires i < |info|
    requires forall k :: 0 <= k < i ==> BuildPrevTx(info[k]).Built?
    requires BuildPrevTx(info[i]).Failed?
    ensures BuildPrevTxesSpec(info) == Err(BuildPrevTx(info[i]).e)
  {
    if i > 0 {
      forall k | 0 <= k < i - 1 ensures BuildPrevTx(info[1..][k]).Built? {
        assert info[1..][k] == info[k + 1];
      }
      assert info[1..][i - 1] == info[i];
      PrevTxesFailed(info[1..], i - 1);
    }
  }

  /**
   * Outputs are built and count-checked before inputs: an output-count mismatch leaves the
   * slot without inputs or input count, and malformed inputs then go unreported.
   */
  lemma OutputsCheckedFirst(d: TransactionTypeInfo)
    requires Decode(d.extraData).Ok?
    requires |d.outputs| != d.outputsCount
    ensures BuildPrevTx(d).Truncated?
    ensures BuildPrevTx(d).tx.inputs == [] && BuildPrevTx(d).tx.inputsCnt == None
    ensures BuildPrevTx(d).tx.outputsCnt == Some(d.outputsCount)
    ensures BuildPrevTx(d).tx.extraData == Decode(d.extraData).ToOption()
  {
  }

  /** One iteration of buildPrevTxes: decode, build the outputs, then the inputs. */
  method BuildPrevTxEntry(d: TransactionTypeInfo) returns (step: PrevTxStep)
    ensures step == BuildPrevTx(d)
  {
    var extra := Decode(d.extraData);
    if extra.Err? {
      return Failed(extra.error);
    }
    var outputs, _ := BuildOutputs(d.outputs);
    var tx := EmptyTx.(extraData := Some(extra.value), extraDataLen := Some(d.extraDataLen),
                       outputs := outputs, outputsCnt := Some(d.outputsCount));
    if |outputs| != d.outputsCount {
      return Truncated(tx);
    }
    var inputs := BuildInputs(d.inputs);
    if inputs.Err? {
      return Failed(inputs.error);
    }
    tx := tx.(inputs := inputs.value, inputsCnt := Some(d.inputsCount));
    if |inputs.value| != d.inputsCount {
      return Truncated(tx);
    }
    return Built(tx);
  }

  /** buildPrevTxes: fills one slot per description, stopping early at a short list. */
  method BuildPrevTxes(info: seq<TransactionTypeInfo>) returns (r: Result<seq<Option<TransactionType>>, HexError>)
    ensures r == BuildPrevTxesSpec(info)
  {
    var prevTxes := new Option<TransactionType>[|info|](_ => None);
    var i := 0;
    while i < prevTxes.Length
      invariant 0 <= i <= |info| == prevTxes.Length
      invariant forall k :: 0 <= k < i ==> BuildPrevTx(info[k]).Built? && prevTxes[k] == Some(BuildPrevTx(info[k]).tx)
      invariant forall k :: i <= k < |info| ==> prevTxes[k] == None
    {
      var step := BuildPrevTxEntry(info[i]);
      if step.Failed? {
        PrevTxesFailed(info, i);
        return Err(step.e);
      }
      prevTxes[i] := Some(step.tx);
      if step.Truncated? {
        PrevTxesTruncated(info, i, prevTxes[..]);
        return Ok(prevTxes[..]);
      }
      i := i + 1;
    }
    PrevTxesAllBuilt(info);
    assert prevTxes[..] == BuildPrevTxesSpec(info).value;
    return Ok(prevTxes[..]);
  }
}
