/** `create_optimizer`: the weight-decay mask, the parameter list and the
    parameter-name table handed to the layer-wise AdamW optimizer. */
module OptimizerFactory {
  import opened Wrappers
  import opened PyStr
  import opened Dicts
  import opened LayerDecay

  /** A framework parameter: its unique framework name `param.name` and its
      rank `len(param.shape)`. */
  datatype ModelParam = ModelParam(name: string, rank: nat)

  /** What `create_optimizer` reads from a model: `named_parameters()` as
      (structured name, parameter) pairs in order, and the set returned by
      `no_weight_decay()` when the model has that method. */
  datatype Model = Model(named: seq<(string, ModelParam)>, noWeightDecay: Option<set<string>>)

  /** `model.parameters()`: the parameters of `named_parameters()`, in order. */
  function Parameters(named: seq<(string, ModelParam)>): (r: seq<ModelParam>)
    ensures |r| == |named| && forall i :: 0 <= i < |named| ==> r[i] == named[i].1
  {
    seq(|named|, i requires 0 <= i < |named| => named[i].1)
  }

  predicate Teacher(s: string) {
    Contains(s, "teacher")
  }

  /** The mask entry of one parameter: `not (len(param.shape) == 1 or
      name.endswith(".bias") or name in skip)`. */
  predicate Decays(name: string, p: ModelParam, skip: set<string>) {
    !(p.rank == 1 || EndsWith(name, ".bias") || name in skip)
  }

  /** The pairs the `decay_dict` comprehension assigns, teacher entries
      dropped, for a given skip set. */
  function MaskPairs(named: seq<(string, ModelParam)>, skip: set<string>): seq<(string, bool)> {
    if named == [] then []
    else
      var (n, p) := named[|named| - 1];
      MaskPairs(named[..|named| - 1], skip) + (if Teacher(n) then [] else [(p.name, Decays(n, p, skip))])
  }

  /** The comprehension as written: it tests `name in skip_list`, so with
      `skip_list` None the first entry that reaches that test raises
      `TypeError`; `or` short-circuits on a 1-D or ".bias" parameter. */
  function MaskPairsAsWritten(named: seq<(string, ModelParam)>, skipList: Option<set<string>>): (r: Result<seq<(string, bool)>, PyError>)
    ensures skipList.Some? ==> r.Success?
    ensures r.Failure? ==> r.error == TypeError && skipList.None?
    ensures r.Success? ==> |r.value| <= |named|
  {
    if named == [] then Success([])
    else
      var (n, p) := named[|named| - 1];
      match MaskPairsAsWritten(named[..|named| - 1], skipList)
      case Failure(e) => Failure(e)
      case Success(front) =>
        if Teacher(n) then Success(front)
        else if p.rank == 1 || EndsWith(n, ".bias") then Success(front + [(p.name, false)])
        else if skipList.None? then Failure(TypeError)
        else Success(front + [(p.name, n !in skipList.value)])
  }

  /** The skip set the code computes: `skip_list` when given, otherwise the
      model's `no_weight_decay()`, otherwise empty. */
  function SkipSet(model: Model, skipList: Option<set<string>>): set<string> {
    if skipList.Some? then skipList.value else model.noWeightDecay.GetOr({})
  }

  /** `decay_dict` as evidently intended: built with the computed skip set. */
  function DecayMask(model: Model, skipList: Option<set<string>>): map<string, bool> {
    LastWins(MaskPairs(model.named, SkipSet(model, skipList)))
  }

  /** The parameter list as written: filtered on the framework name
      `param.name`, unlike the mask, which is filtered on the structured name. */
  function ParametersAsWritten(ps: seq<ModelParam>): seq<ModelParam> {
    if ps == [] then []
    else
      ParametersAsWritten(ps[..|ps| - 1]) + (if Teacher(ps[|ps| - 1].name) then [] else [ps[|ps| - 1]])
  }

  /** The parameter list as evidently intended: the same entries the mask
      keeps, in order. */
  function OptimizerParameters(named: seq<(string, ModelParam)>): seq<ModelParam> {
    if named == [] then []
    else
      var (n, p) := named[|named| - 1];
      OptimizerParameters(named[..|named| - 1]) + (if Teacher(n) then [] else [p])
  }

  /** `name_dict[p.name] = n` for each named parameter. */
  function NamePairs(named: seq<(string, ModelParam)>): (r: seq<(string, string)>)
    ensures |r| == |named| && forall i :: 0 <= i < |named| ==> r[i] == (named[i].1.name, named[i].0)
  {
    seq(|named|, i requires 0 <= i < |named| => (named[i].1.name, named[i].0))
  }

  /** The keyword arguments `opt_args` given to the optimizer. */
  datatype OptimizerArgs = OptimizerArgs(
    learningRate: real,
    weightDecay: real,
    parameters: seq<ModelParam>,
    decayMask: Option<map<string, bool>>,
    beta1: real,
    beta2: real,
    layerwiseDecay: real,
    nameDict: map<string, string>,
    nLayers: Option<int>)

  const LearningRate: real := 0.0002
  const WeightDecay: real := 0.05
  const Beta1: real := 0.9
  const Beta2: real := 0.999
  const LayerDecayRate: real := 0.65

  function Args(weightDecay: real, parameters: seq<ModelParam>, decayMask: Option<map<string, bool>>,
                named: seq<(string, ModelParam)>, numLayers: Option<int>): OptimizerArgs {
    OptimizerArgs(LearningRate, weightDecay, parameters, decayMask, Beta1, Beta2, LayerDecayRate,
                  LastWins(NamePairs(named)), numLayers)
  }

  /** `create_optimizer` as written. Since `weight_decay` is the non-zero
      constant 0.05, the filtering branch is taken exactly when
      `filter_bias_and_bn` holds; it replaces any `decay_dict` argument and
      sets the weight decay to 0. */
  function CreateOptimizerAsWritten(model: Model, filterBiasAndBn: bool, numLayers: Option<int>,
                                    skipList: Option<set<string>>, decayDict: Option<map<string, bool>>): (r: Result<OptimizerArgs, PyError>)
    ensures r.Failure? ==> r.error == TypeError && filterBiasAndBn && skipList.None?
    ensures !filterBiasAndBn || skipList.Some? ==> r.Success?
  {
    if WeightDecay != 0.0 && filterBiasAndBn then
      match MaskPairsAsWritten(model.named, skipList)
      case Failure(e) => Failure(e)
      case Success(pairs) =>
        Success(Args(0.0, ParametersAsWritten(Parameters(model.named)), Some(LastWins(pairs)), model.named, numLayers))
    else Success(Args(WeightDecay, Parameters(model.named), decayDict, model.named, numLayers))
  }

  /** `create_optimizer` as evidently intended: the computed skip set, and
      the same teacher filter for the mask and the parameter list. */
  function CreateOptimizerArgs(model: Model, filterBiasAndBn: bool, numLayers: Option<int>,
                               skipList: Option<set<string>>, decayDict: Option<map<string, bool>>): OptimizerArgs {
    if filterBiasAndBn then Args(0.0, OptimizerParameters(model.named), Some(DecayMask(model, skipList)), model.named, numLayers)
    else Args(WeightDecay, Parameters(model.named), decayDict, model.named, numLayers)
  }

  /** `apply_decay_param_fun = lambda n: decay_dict[n]`. */
  function ApplyDecayParamFun(mask: map<string, bool>, paramName: string): (r: Result<bool, PyError>)
    ensures r.Success? <==> paramName in mask
    ensures r.Success? ==> r.value == mask[paramName]
    ensures r.Failure? ==> r.error == KeyError(paramName)
  {
    if paramName in mask then Success(mask[paramName]) else Failure(KeyError(paramName))
  }

  /** `create_optimizer(model, filter_bias_and_bn, num_layers, skip_list,
      decay_dict)`: the arguments and the optimizer built from them. */
  method CreateOptimizer(model: Model, filterBiasAndBn: bool, numLayers: Option<int>,
                         skipList: Option<set<string>>, decayDict: Option<map<string, bool>>)
    returns (optimizer: AdamWDL, args: OptimizerArgs)
    ensures args == CreateOptimizerArgs(model, filterBiasAndBn, numLayers, skipList, decayDict)
    ensures fresh(optimizer)
    ensures optimizer.layerwiseDecay == FloatRate(LayerDecayRate)
    ensures optimizer.nLayers == numLayers && optimizer.nameDict == Some(args.nameDict)
  {
    var weightDecay := WeightDecay;
    var mask := decayDict;
    var parameters := Parameters(model.named);
    if weightDecay != 0.0 && filterBiasAndBn {
      mask := Some(DecayMask(model, skipList));
      parameters := OptimizerParameters(model.named);
      weightDecay := 0.0;
    }
    var nameDict: map<string, string> := map[];
    for i := 0 to |model.named|
      invariant nameDict == LastWins(NamePairs(model.named[..i]))
    {
      var ps := NamePairs(model.named[..i + 1]);
      assert ps[..i] == NamePairs(model.named[..i]);
      nameDict := nameDict[model.named[i].1.name := model.named[i].0];
    }
    assert model.named[..|model.named|] == model.named;
    args := OptimizerArgs(LearningRate, weightDecay, parameters, mask, Beta1, Beta2, LayerDecayRate, nameDict, numLayers);
    var checked := CheckLayerwiseDecay(PyFloat(args.layerwiseDecay));
    optimizer := new AdamWDL(checked.value, numLayers, Some(nameDict));
  }

  /** No later entry of `named` shares the framework name of entry `i`. */
  predicate LastWithName(named: seq<(string, ModelParam)>, i: int) {
    0 <= i < |named| && forall j :: i < j < |named| ==> named[j].1.name != named[i].1.name
  }

  /** A mask pair exists for a framework name exactly when some non-teacher
      entry carries it. */
  lemma {:induction false} MaskPairsNames(named: seq<(string, ModelParam)>, skip: set<string>, k: string)
    ensures (exists j :: 0 <= j < |MaskPairs(named, skip)| && MaskPairs(named, skip)[j].0 == k)
        <==> (exists i :: 0 <= i < |named| && !Teacher(named[i].0) && named[i].1.name == k)
  {
    if named != [] {
      var front := named[..|named| - 1];
      var (n, p) := named[|named| - 1];
      MaskPairsNames(front, skip, k);
      var pf := MaskPairs(front, skip);
      var ps := MaskPairs(named, skip);
      assert ps == pf + (if Teacher(n) then [] else [(p.name, Decays(n, p, skip))]);
      assert forall j :: 0 <= j < |pf| ==> ps[j] == pf[j];
      assert forall i :: 0 <= i < |front| ==> front[i] == named[i];
      if exists i :: 0 <= i < |named| && !Teacher(named[i].0) && named[i].1.name == k {
        var i :| 0 <= i < |named| && !Teacher(named[i].0) && named[i].1.name == k;
        if i == |named| - 1 {
          assert ps[|pf|].0 == k;
        }
      }
    }
  }

  /** The keys of the mask are the framework names of the non-teacher
      entries; a parameter reachable only through teacher entries has none. */
  lemma MaskKeys(named: seq<(string, ModelParam)>, skip: set<string>, k: string)
    ensures k in LastWins(MaskPairs(named, skip))
        <==> (exists i :: 0 <= i < |named| && !Teacher(named[i].0) && named[i].1.name == k)
  {
    MaskPairsNames(named, skip, k);
  }

  /** A non-teacher entry that is the last with its framework name decides
      that name's mask entry: false for a 1-D parameter, a ".bias" name or a
      skipped name, true otherwise. */
  lemma {:induction false} MaskValue(named: seq<(string, ModelParam)>, skip: set<string>, i: int)
    requires LastWithName(named, i) && !Teacher(named[i].0)
    ensures named[i].1.name in LastWins(MaskPairs(named, skip))
    ensures LastWins(MaskPairs(named, skip))[named[i].1.name]
        == !(named[i].1.rank == 1 || EndsWith(named[i].0, ".bias") || named[i].0 in skip)
  {
    var front := named[..|named| - 1];
    var (n, p) := named[|named| - 1];
    var pf := MaskPairs(front, skip);
    var ps := MaskPairs(named, skip);
    assert ps == pf + (if Teacher(n) then [] else [(p.name, Decays(n, p, skip))]);
    if i < |named| - 1 {
      assert front[i] == named[i];
      assert forall j :: i < j < |front| ==> front[j] == named[j];
      MaskValue(front, skip, i);
      if !Teacher(n) {
        assert ps[..|ps| - 1] == pf;
      } else {
        assert ps == pf;
      }
    } else {
      assert ps[..|ps| - 1] == pf;
    }
  }

  /** With the model's `no_weight_decay()` and no `skip_list`, the names it
      lists are never decayed. */
  lemma NoWeightDecayHonoured(model: Model, i: int)
    requires LastWithName(model.named, i) && !Teacher(model.named[i].0)
    requires model.noWeightDecay.Some? && model.named[i].0 in model.noWeightDecay.value
    ensures model.named[i].1.name in DecayMask(model, None)
    ensures !DecayMask(model, None)[model.named[i].1.name]
  {
    MaskValue(model.named, model.noWeightDecay.value, i);
  }

  /** With `skip_list` given, the comprehension as written builds the
      intended pairs. */
  lemma {:induction false} SkipListGiven(named: seq<(string, ModelParam)>, skip: set<string>)
    ensures MaskPairsAsWritten(named, Some(skip)) == Success(MaskPairs(named, skip))
  {
    if named != [] {
      var front := named[..|named| - 1];
      var (n, p) := named[|named| - 1];
      SkipListGiven(front, skip);
      var pf := MaskPairs(front, skip);
      assert MaskPairs(named, skip) == pf + (if Teacher(n) then [] else [(p.name, Decays(n, p, skip))]);
      if !Teacher(n) {
        if p.rank == 1 || EndsWith(n, ".bias") {
          assert !Decays(n, p, skip);
          assert MaskPairsAsWritten(named, Some(skip)) == Success(pf + [(p.name, false)]);
        } else {
          assert Decays(n, p, skip) == (n !in skip);
          assert MaskPairsAsWritten(named, Some(skip)) == Success(pf + [(p.name, n !in skip)]);
        }
      } else {
        assert MaskPairs(named, skip) == pf;
        assert MaskPairsAsWritten(named, Some(skip)) == Success(pf);
      }
    }
  }

  /** Without `skip_list`, the comprehension as written raises `TypeError`
      exactly when some non-teacher entry is neither 1-D nor a ".bias";
      otherwise it builds the pairs of an empty skip set. */
  lemma {:induction false} SkipListMissing(named: seq<(string, ModelParam)>)
    ensures MaskPairsAsWritten(named, None).Failure?
        <==> (exists i :: 0 <= i < |named| && !Teacher(named[i].0) && named[i].1.rank != 1 && !EndsWith(named[i].0, ".bias"))
    ensures MaskPairsAsWritten(named, None).Failure? ==> MaskPairsAsWritten(named, None).error == TypeError
    ensures MaskPairsAsWritten(named, None).Success? ==> MaskPairsAsWritten(named, None).value == MaskPairs(named, {})
  {
    if named != [] {
      var front := named[..|named| - 1];
      SkipListMissing(front);
      assert forall i :: 0 <= i < |front| ==> front[i] == named[i];
      var (n, p) := named[|named| - 1];
      if MaskPairsAsWritten(front, None).Success? && !Teacher(n) && (p.rank == 1 || EndsWith(n, ".bias")) {
        assert Decays(n, p, {}) == false;
      }
    }
  }

  /** The input that shows it: one two-dimensional weight and no
      `skip_list`. The code as written raises; the intended mask decays it. */
  lemma SkipListMissingExample()
    ensures var named := [("head.weight", ModelParam("linear_0.w_0", 2))];
      && CreateOptimizerAsWritten(Model(named, None), true, None, None, None) == Failure(TypeError)
      && DecayMask(Model(named, None), None) == map["linear_0.w_0" := true]
  {
    var named := [("head.weight", ModelParam("linear_0.w_0", 2))];
    assert !EndsWith("head.weight", ".bias");
    assert !Teacher("head.weight") by {
      forall i | 0 <= i <= |"head.weight"| - 7 ensures !OccursAt("head.weight", "teacher", i) {
        assert "head.weight"[i..i + 7][0] == "head.weight"[i] != 't';
      }
    }
    SkipListMissing(named);
    assert MaskPairs(named[..0], {}) == [];
  }

  /** A parameter is in the intended list exactly when a non-teacher entry
      holds it. */
  lemma {:induction false} OptimizerParametersMembers(named: seq<(string, ModelParam)>, p: ModelParam)
    ensures p in OptimizerParameters(named) <==> exists i :: 0 <= i < |named| && !Teacher(named[i].0) && named[i].1 == p
  {
    if named != [] {
      var front := named[..|named| - 1];
      var (n, q) := named[|named| - 1];
      OptimizerParametersMembers(front, p);
      assert OptimizerParameters(named) == OptimizerParameters(front) + (if Teacher(n) then [] else [q]);
      assert forall i :: 0 <= i < |front| ==> front[i] == named[i];
      if p in OptimizerParameters(named) && p !in OptimizerParameters(front) {
        assert named[|named| - 1].1 == p;
      }
    }
  }

  /** Every parameter of the intended list has a mask entry, so the decay
      lookup never raises for it. */
  lemma EveryParameterHasMask(named: seq<(string, ModelParam)>, skip: set<string>, p: ModelParam)
    requires p in OptimizerParameters(named)
    ensures ApplyDecayParamFun(LastWins(MaskPairs(named, skip)), p.name).Success?
  {
    OptimizerParametersMembers(named, p);
    MaskKeys(named, skip, p.name);
  }

  /** The two teacher filters agree when each framework name mentions
      "teacher" exactly when its structured name does. */
  lemma {:induction false} TeacherFiltersAgree(named: seq<(string, ModelParam)>)
    requires forall i :: 0 <= i < |named| ==> (Teacher(named[i].0) <==> Teacher(named[i].1.name))
    ensures ParametersAsWritten(Parameters(named)) == OptimizerParameters(named)
  {
    if named != [] {
      var front := named[..|named| - 1];
      assert Parameters(named)[..|named| - 1] == Parameters(front);
      TeacherFiltersAgree(front);
    }
  }

  /** The input that shows it: a teacher weight with a generated framework
      name. The list as written keeps it, the mask has no entry for it, so
      the decay lookup raises `KeyError`; the intended list leaves it out. */
  lemma TeacherWeightExample()
    ensures var named := [("teacher.fc.weight", ModelParam("linear_0.w_0", 2))];
      && ParametersAsWritten(Parameters(named)) == [ModelParam("linear_0.w_0", 2)]
      && ApplyDecayParamFun(LastWins(MaskPairs(named, {})), "linear_0.w_0") == Failure(KeyError("linear_0.w_0"))
      && OptimizerParameters(named) == []
  {
    var named := [("teacher.fc.weight", ModelParam("linear_0.w_0", 2))];
    assert OccursAt("teacher.fc.weight", "teacher", 0);
    assert !Teacher("linear_0.w_0") by {
      forall i | 0 <= i <= |"linear_0.w_0"| - 7 ensures !OccursAt("linear_0.w_0", "teacher", i) {
        assert "linear_0.w_0"[i..i + 7][0] == "linear_0.w_0"[i] != 't';
      }
    }
    assert Parameters(named) == [ModelParam("linear_0.w_0", 2)];
    assert ParametersAsWritten(Parameters(named)[..0]) == [];
    assert MaskPairs(named, {}) == [];
  }

  /** When `skip_list` is given and the two names agree on "teacher", the
      code as written and the intended version build the same arguments. */
  lemma AsWrittenAgrees(model: Model, filterBiasAndBn: bool, numLayers: Option<int>, skip: set<string>, decayDict: Option<map<string, bool>>)
    requires forall i :: 0 <= i < |model.named| ==> (Teacher(model.named[i].0) <==> Teacher(model.named[i].1.name))
    ensures CreateOptimizerAsWritten(model, filterBiasAndBn, numLayers, Some(skip), decayDict)
         == Success(CreateOptimizerArgs(model, filterBiasAndBn, numLayers, Some(skip), decayDict))
  {
    SkipListGiven(model.named, skip);
    TeacherFiltersAgree(model.named);
  }

  /** `name_dict` maps each framework name to the structured name of the
      last entry carrying it. */
  lemma NameDictEntry(named: seq<(string, ModelParam)>, i: int)
    requires LastWithName(named, i)
    ensures named[i].1.name in LastWins(NamePairs(named))
    ensures LastWins(NamePairs(named))[named[i].1.name] == named[i].0
  {
    assert IsLastFor(NamePairs(named), i);
    LastWinsValue(NamePairs(named), i);
  }

  /** The optimizer scales a block parameter `<prefix>blocks.<n><rest>` by
      0.65 ** (num_layers - n). */
  lemma BlockParameterRatio(named: seq<(string, ModelParam)>, i: int, prefix: string, n: nat, rest: string, nLayers: int)
    requires LastWithName(named, i)
    requires named[i].0 == prefix + "blocks." + Str(n) + rest
    requires !Contains(prefix, "blocks.") && (rest == [] || rest[0] == '.')
    ensures DecayRatio(FloatRate(LayerDecayRate), Some(LastWins(NamePairs(named))), Some(nLayers), named[i].1.name)
         == Success(Power(nLayers - n))
  {
    NameDictEntry(named, i);
    BlockExponent(prefix, n, rest, nLayers);
  }

  /** With `num_layers` left at its default None, building the update step
      of such a block parameter raises `TypeError`. */
  lemma DefaultNumLayersFails(named: seq<(string, ModelParam)>, i: int, prefix: string, n: nat, rest: string)
    requires LastWithName(named, i)
    requires named[i].0 == prefix + "blocks." + Str(n) + rest
    requires !Contains(prefix, "blocks.") && (rest == [] || rest[0] == '.')
    ensures DecayRatio(FloatRate(LayerDecayRate), Some(LastWins(NamePairs(named))), None, named[i].1.name)
         == Failure(TypeError)
  {
    NameDictEntry(named, i);
    BlockLayer(prefix, n, rest);
    ContainsBlocks(prefix, Str(n), rest);
    NoLayerCount(FloatRate(LayerDecayRate), LastWins(NamePairs(named)), named[i].1.name);
  }
}
