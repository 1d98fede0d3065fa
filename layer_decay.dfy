/** Layer-wise learning-rate decay for transformer fine-tuning: the rule that
    scales a parameter's learning rate by `decay_rate ** exponent`, the
    exponent chosen from the parameter's static name, and the AdamW variant
    that applies the rule around each parameter's update step and then
    restores the learning rate. */
module LayerDecay {
  import opened Wrappers
  import opened PyStr

  /** `decay_rate`: a Python float or a framework tensor. */
  datatype DecayRate = FloatRate(value: real) | TensorRate

  /** A parameter's `optimize_attr["learning_rate"]`, kept as the product it
      denotes: a starting value times each factor `rate ** exponent` applied. */
  datatype Lr = BaseLr(value: real) | Scaled(inner: Lr, rate: DecayRate, exponent: int)

  /** The `ratio` of the rule: the literal 1.0, or `decay_rate ** exponent`. */
  datatype Ratio = Unit | Power(exponent: int)

  /** `int(static_name[static_name.find("blocks."):].split(".")[1])`. When
      "blocks." is absent, `find` gives -1 and the slice is the last
      character alone. */
  function LayerOfBlockName(s: string): (r: Result<int, PyError>)
    ensures r.Failure? ==> r.error == IndexError || r.error == ValueError
  {
    var parts := Split(SliceFrom(s, Find(s, "blocks.")), '.');
    if |parts| < 2 then Failure(IndexError) else ParseInt(parts[1])
  }

  /** The exponent choice: "blocks" is checked before "embed"; `n_layers` is
      only read in those two branches (`None - layer` raises `TypeError`). */
  function ChooseRatio(staticName: string, nLayers: Option<int>): (r: Result<Ratio, PyError>)
    ensures r.Failure? ==> r.error == IndexError || r.error == ValueError || r.error == TypeError
    ensures r.Success? && r.value.Power? ==> nLayers.Some? && (Contains(staticName, "blocks") || Contains(staticName, "embed"))
    ensures r.Success? && r.value.Unit? ==> !Contains(staticName, "blocks") && !Contains(staticName, "embed")
  {
    if Contains(staticName, "blocks") then
      match LayerOfBlockName(staticName)
      case Failure(e) => Failure(e)
      case Success(layer) =>
        if nLayers.None? then Failure(TypeError) else Success(Power(nLayers.value - layer))
    else if Contains(staticName, "embed") then
      if nLayers.None? then Failure(TypeError) else Success(Power(nLayers.value + 1))
    else Success(Unit)
  }

  /** `decay_rate ** exponent` for a float rate raises `ZeroDivisionError`
      when 0.0 is raised to a negative power. */
  predicate PowerDefined(rate: DecayRate, ratio: Ratio) {
    !(rate.FloatRate? && rate.value == 0.0 && ratio.Power? && ratio.exponent < 0)
  }

  /** The ratio `layerwise_lr_decay` multiplies by, or the exception it
      raises: `name_dict` is subscripted first (`TypeError` when it is None,
      `KeyError` for an unknown parameter), then the exponent is chosen,
      then the power taken. */
  function DecayRatio(rate: DecayRate, nameDict: Option<map<string, string>>, nLayers: Option<int>, paramName: string): (r: Result<Ratio, PyError>)
    ensures r.Success? ==> nameDict.Some? && paramName in nameDict.value && PowerDefined(rate, r.value)
    ensures r.Failure? ==>
      (r.error == TypeError || r.error == KeyError(paramName) || r.error == IndexError ||
       r.error == ValueError || r.error == ZeroDivisionError)
  {
    if nameDict.None? then Failure(TypeError)
    else if paramName !in nameDict.value then Failure(KeyError(paramName))
    else
      match ChooseRatio(nameDict.value[paramName], nLayers)
      case Failure(e) => Failure(e)
      case Success(ratio) => if PowerDefined(rate, ratio) then Success(ratio) else Failure(ZeroDivisionError)
  }

  /** `lr *= ratio`: the existing learning rate is multiplied, not replaced
      (multiplying by the literal 1.0 leaves it as it is). */
  function ApplyRatio(lr: Lr, rate: DecayRate, ratio: Ratio): (r: Lr)
    ensures ratio.Unit? ==> r == lr
    ensures ratio.Power? ==> r.Scaled? && r.inner == lr && r.rate == rate && r.exponent == ratio.exponent
  {
    match ratio
    case Unit => lr
    case Power(e) => Scaled(lr, rate, e)
  }

  /** A trainable parameter: its framework name and its learning-rate attribute. */
  class Param {
    const name: string
    var learningRate: Lr

    constructor (name: string, learningRate: Lr)
      ensures this.name == name && this.learningRate == learningRate
    {
      this.name := name;
      this.learningRate := learningRate;
    }
  }

  /** `layerwise_lr_decay(decay_rate, name_dict, n_layers, param)`. */
  method LayerwiseLrDecay(decayRate: DecayRate, nameDict: Option<map<string, string>>, nLayers: Option<int>, param: Param)
    returns (r: Outcome<PyError>)
    modifies param
    ensures var d := DecayRatio(decayRate, nameDict, nLayers, param.name);
      && (r.Pass? <==> d.Success?)
      && (r.Fail? ==> r.error == d.error && param.learningRate == old(param.learningRate))
      && (d.Success? ==> param.learningRate == ApplyRatio(old(param.learningRate), decayRate, d.value))
  {
    var ratio := Unit;
    if nameDict.None? {
      return Fail(TypeError);
    }
    if param.name !in nameDict.value {
      return Fail(KeyError(param.name));
    }
    var staticName := nameDict.value[param.name];
    if Contains(staticName, "blocks") {
      var idx := Find(staticName, "blocks.");
      var parts := Split(SliceFrom(staticName, idx), '.');
      if |parts| < 2 {
        return Fail(IndexError);
      }
      var layer := ParseInt(parts[1]);
      if layer.Failure? {
        return Fail(layer.error);
      }
      if nLayers.None? {
        return Fail(TypeError);
      }
      ratio := Power(nLayers.value - layer.value);
    } else if Contains(staticName, "embed") {
      if nLayers.None? {
        return Fail(TypeError);
      }
      ratio := Power(nLayers.value + 1);
    }
    if !PowerDefined(decayRate, ratio) {
      return Fail(ZeroDivisionError);
    }
    param.learningRate := ApplyRatio(param.learningRate, decayRate, ratio);
    r := Pass;
  }

  /** After a first part without ".", the text up to the next "." (or the
      end) is the second part. */
  lemma SecondPart(first: string, segment: string, rest: string)
    requires '.' !in first && '.' !in segment
    requires rest == [] || rest[0] == '.'
    ensures |Split(first + ['.'] + (segment + rest), '.')| >= 2
    ensures Split(first + ['.'] + (segment + rest), '.')[1] == segment
  {
    SplitFirst(first, '.', segment + rest);
    SplitSegment(segment, rest);
  }

  /** A text without "." up to the end or the next "." is the first part. */
  lemma SplitSegment(segment: string, rest: string)
    requires '.' !in segment
    requires rest == [] || rest[0] == '.'
    ensures Split(segment + rest, '.')[0] == segment
  {
    if rest == [] {
      assert segment + rest == segment;
      SplitNoSep(segment, '.');
    } else {
      var r := rest[1..];
      assert rest == ['.'] + r;
      SplitAtDot(segment, r);
      assert segment + rest == segment + ['.'] + r;
    }
  }

  lemma SplitAtDot(segment: string, r: string)
    requires '.' !in segment
    ensures Split(segment + ['.'] + r, '.')[0] == segment
  {
    SplitFirst(segment, '.', r);
  }

  lemma BlocksDot()
    ensures "blocks." == "blocks" + ['.'] && '.' !in "blocks"
  {
  }

  /** For `<prefix>blocks.<segment><rest>`, the prefix holding no "blocks."
      and the rest empty or starting at the next ".", the name mentions
      "blocks" and its layer is `int(segment)`. */
  lemma LayerOfSegment(prefix: string, segment: string, rest: string)
    requires !Contains(prefix, "blocks.")
    requires '.' !in segment
    requires rest == [] || rest[0] == '.'
    ensures Contains(prefix + "blocks." + segment + rest, "blocks")
    ensures LayerOfBlockName(prefix + "blocks." + segment + rest) == ParseInt(segment)
  {
    var x := "blocks." + segment + rest;
    var s := prefix + x;
    assert s == prefix + "blocks." + segment + rest;
    FindAt(prefix, segment, rest);
    assert SliceFrom(s, |prefix|) == x;
    BlocksDot();
    assert x == "blocks" + ['.'] + (segment + rest);
    SecondPart("blocks", segment, rest);
    ContainsBlocks(prefix, segment, rest);
  }

  lemma FindAt(prefix: string, segment: string, rest: string)
    requires !Contains(prefix, "blocks.")
    ensures Find(prefix + ("blocks." + segment + rest), "blocks.") == |prefix|
  {
    var s := prefix + ("blocks." + segment + rest);
    assert s == prefix + "blocks." + (segment + rest);
    FindAfterStem(prefix, "blocks.", segment + rest);
  }

  lemma ContainsBlocks(prefix: string, segment: string, rest: string)
    ensures Contains(prefix + "blocks." + segment + rest, "blocks")
  {
    var s := prefix + "blocks." + segment + rest;
    assert s[|prefix|..|prefix| + 6] == "blocks";
    assert OccursAt(s, "blocks", |prefix|);
  }

  /** A block parameter `<prefix>blocks.<n><rest>` has layer `n`. */
  lemma BlockLayer(prefix: string, n: nat, rest: string)
    requires !Contains(prefix, "blocks.")
    requires rest == [] || rest[0] == '.'
    ensures LayerOfBlockName(prefix + "blocks." + Str(n) + rest) == Success(n)
  {
    assert '.' !in Str(n) by {
      assert forall i :: 0 <= i < |Str(n)| ==> IsDigit(Str(n)[i]);
    }
    LayerOfSegment(prefix, Str(n), rest);
    ParseIntOfStr(n);
  }

  /** Such a parameter gets exponent `n_layers - n`, whether or not its name
      also mentions "embed". */
  lemma BlockExponent(prefix: string, n: nat, rest: string, nLayers: int)
    requires !Contains(prefix, "blocks.")
    requires rest == [] || rest[0] == '.'
    ensures ChooseRatio(prefix + "blocks." + Str(n) + rest, Some(nLayers)) == Success(Power(nLayers - n))
  {
    var s := prefix + "blocks." + Str(n) + rest;
    BlockLayer(prefix, n, rest);
    ContainsBlocks(prefix, Str(n), rest);
    BlockRatio(s, n, nLayers);
  }

  lemma BlockRatio(s: string, layer: int, nLayers: int)
    requires Contains(s, "blocks") && LayerOfBlockName(s) == Success(layer)
    ensures ChooseRatio(s, Some(nLayers)) == Success(Power(nLayers - layer))
  {
  }

  /** An embedding parameter (no "blocks", some "embed") gets exponent
      `n_layers + 1`; any other parameter keeps its rate, even without
      `n_layers`. */
  lemma EmbedAndOtherExponent(staticName: string, nLayers: Option<int>)
    requires !Contains(staticName, "blocks")
    ensures Contains(staticName, "embed") && nLayers.Some? ==> ChooseRatio(staticName, nLayers) == Success(Power(nLayers.value + 1))
    ensures Contains(staticName, "embed") && nLayers.None? ==> ChooseRatio(staticName, nLayers) == Failure(TypeError)
    ensures !Contains(staticName, "embed") ==> ChooseRatio(staticName, nLayers) == Success(Unit)
  {
  }

  /** "blocks" without a following "." cannot be parsed: `find` gives -1,
      and the last character alone splits into too few parts (`IndexError`)
      or, when it is ".", into an empty layer text (`ValueError`). */
  lemma BlocksWithoutDot(staticName: string, nLayers: Option<int>)
    requires Contains(staticName, "blocks") && !Contains(staticName, "blocks.")
    ensures ChooseRatio(staticName, nLayers).Failure?
    ensures ChooseRatio(staticName, nLayers).error == (if staticName[|staticName| - 1] == '.' then ValueError else IndexError)
  {
    LastCharLayer(staticName);
  }

  lemma LastCharLayer(s: string)
    requires |s| > 0 && !Contains(s, "blocks.")
    ensures LayerOfBlockName(s) == Failure(if s[|s| - 1] == '.' then ValueError else IndexError)
  {
    var c := s[|s| - 1];
    assert Find(s, "blocks.") == -1;
    assert SliceFrom(s, -1) == [c];
    if c == '.' {
      assert [c] == [] + ['.'] + [];
      SplitFirst([], '.', []);
      SplitNoSep([], '.');
      ParseIntNeedsDigit([]);
    } else {
      SplitNoSep([c], '.');
    }
  }

  /** A block parameter whose layer text has no digit raises `ValueError`. */
  lemma BlockWithoutNumber(prefix: string, segment: string, rest: string, nLayers: Option<int>)
    requires !Contains(prefix, "blocks.")
    requires '.' !in segment && forall i :: 0 <= i < |segment| ==> !IsDigit(segment[i])
    requires rest == [] || rest[0] == '.'
    ensures ChooseRatio(prefix + "blocks." + segment + rest, nLayers) == Failure(ValueError)
  {
    LayerOfSegment(prefix, segment, rest);
    ParseIntNeedsDigit(segment);
  }

  /** `n_layers` defaults to None in `create_optimizer`; then a block or
      embedding parameter makes the rule raise `TypeError`, once its layer
      text parses. */
  lemma NoLayerCount(decayRate: DecayRate, nameDict: map<string, string>, paramName: string)
    requires paramName in nameDict
    requires if Contains(nameDict[paramName], "blocks") then LayerOfBlockName(nameDict[paramName]).Success?
      else Contains(nameDict[paramName], "embed")
    ensures DecayRatio(decayRate, Some(nameDict), None, paramName) == Failure(TypeError)
  {
  }

  /** A parameter outside the blocks and embeddings is never rescaled, and
      no power is taken for it. */
  lemma OtherParamUnchanged(decayRate: DecayRate, nameDict: map<string, string>, nLayers: Option<int>, paramName: string)
    requires paramName in nameDict
    requires !Contains(nameDict[paramName], "blocks") && !Contains(nameDict[paramName], "embed")
    ensures DecayRatio(decayRate, Some(nameDict), nLayers, paramName) == Success(Unit)
  {
  }

  /** The value of `layerwise_decay` given to the optimizer. */
  datatype PyValue = PyFloat(f: real) | PyInt(i: int) | PyBool(b: bool) | PyTensor | PyNone | PyString(s: string)

  /** The type check of `AdamWDL.__init__`: only a float or a framework
      Variable is accepted; an int (or bool) rate is refused. */
  function CheckLayerwiseDecay(v: PyValue): (r: Result<DecayRate, PyError>)
    ensures r.Success? <==> v.PyFloat? || v.PyTensor?
    ensures r.Failure? ==> r.error == TypeError
    ensures v.PyFloat? ==> r == Success(FloatRate(v.f))
    ensures v.PyTensor? ==> r == Success(TensorRate)
  {
    match v
    case PyFloat(f) => Success(FloatRate(f))
    case PyTensor => Success(TensorRate)
    case _ => Failure(TypeError)
  }

  /** What the optimizer's own update step is given for one parameter: its
      name and the learning rate in effect while the step is built. */
  datatype StepRecord = StepRecord(paramName: string, learningRate: Lr)

  /** The optimizer's layer-wise state: `set_param_lr_fun` is always
      `layerwise_lr_decay` bound to these three values. */
  class AdamWDL {
    const layerwiseDecay: DecayRate
    const nLayers: Option<int>
    const nameDict: Option<map<string, string>>

    constructor (layerwiseDecay: DecayRate, nLayers: Option<int>, nameDict: Option<map<string, string>>)
      ensures this.layerwiseDecay == layerwiseDecay && this.nLayers == nLayers && this.nameDict == nameDict
    {
      this.layerwiseDecay := layerwiseDecay;
      this.nLayers := nLayers;
      this.nameDict := nameDict;
    }

    /** `AdamWDL(layerwise_decay=..., n_layers=..., name_dict=...)`: raises
        `TypeError` unless the rate is a float or a Variable. */
    static method New(layerwiseDecay: PyValue, nLayers: Option<int>, nameDict: Option<map<string, string>>)
      returns (r: Result<AdamWDL, PyError>)
      ensures r.Failure? <==> CheckLayerwiseDecay(layerwiseDecay).Failure?
      ensures r.Failure? ==> r.error == TypeError
      ensures r.Success? ==> (fresh(r.value) && r.value.layerwiseDecay == CheckLayerwiseDecay(layerwiseDecay).value
        && r.value.nLayers == nLayers && r.value.nameDict == nameDict)
    {
      var checked := CheckLayerwiseDecay(layerwiseDecay);
      if checked.Failure? {
        return Failure(TypeError);
      }
      var o := new AdamWDL(checked.value, nLayers, nameDict);
      r := Success(o);
    }

    /** `_append_optimize_op` for one parameter: save its learning rate,
        apply the layer-wise rule, build the update step with the rescaled
        rate, then put the saved rate back. Whatever happens, the
        parameter's rate afterwards is the rate it had before. */
    method AppendOptimizeOp(param: Param) returns (r: Result<StepRecord, PyError>)
      modifies param
      ensures param.learningRate == old(param.learningRate)
      ensures var d := DecayRatio(layerwiseDecay, nameDict, nLayers, param.name);
        && (r.Success? <==> d.Success?)
        && (r.Failure? ==> r.error == d.error)
        && (r.Success? ==> r.value == StepRecord(param.name, ApplyRatio(old(param.learningRate), layerwiseDecay, d.value)))
    {
      var prevLr := param.learningRate;
      var outcome := LayerwiseLrDecay(layerwiseDecay, nameDict, nLayers, param);
      if outcome.Fail? {
        return Failure(outcome.error);
      }
      var step := StepRecord(param.name, param.learningRate);
      param.learningRate := prevLr;
      r := Success(step);
    }
  }
}
