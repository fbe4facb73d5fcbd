/**
 The AI profile of an asset: provider, model and inference parameters, resolved from the
 layers of the strategy, the asset, the novel and one run.
 */
module AiProfile {
  import opened ConfigMerge
  import opened Strings

  function Truthy(v: Value): bool {
    match v
    case Leaf(Null) => false
    case Leaf(Text(t)) => t != ""
    case Leaf(Number(n)) => n != 0
    case Leaf(Items(items)) => items != []
    case Node(fields) => fields != map[]
  }

  /** `dict.get`; something that is no mapping has no fields. */
  function Get(v: Value, key: string): Value {
    if v.Node? && key in v.fields then v.fields[key] else Leaf(Null)
  }

  /** A strategy as loaded: the three mappings that the profile is resolved from. */
  datatype Strategy = Strategy(stages: Value, inference: Value, assetProfiles: Value)

  /** The process's fallbacks: the primary runtime, and the built-in tables. `show` is `str`. */
  datatype Defaults = Defaults(provider: string, model: string, stages: Value, assetProfiles: Value,
                               show: Value -> string)

  datatype Profile = Profile(stage: string, provider: string, model: string, inference: Value)

  // ---------- the layers ----------

  /** Only a mapping is a layer. */
  function LayerOf(v: Value): (layers: seq<Value>)
    ensures forall l :: l in layers ==> l.Node?
  {
    if v.Node? then [v] else []
  }

  /** The layer below the stage's own. */
  function BaseLayer(inference: Value, stage: string): seq<Value> {
    if BeforeDot(stage) != stage then LayerOf(Get(inference, BeforeDot(stage))) else []
  }

  function StageLayers(inference: Value, stage: string): seq<Value> {
    BaseLayer(inference, stage) + LayerOf(Get(inference, stage))
  }

  function AssetProfile(strategy: Strategy, assetKey: string, defaults: Defaults): Value {
    var raw := Get(strategy.assetProfiles, assetKey);
    if raw.Node? then raw else Get(defaults.assetProfiles, assetKey)
  }

  function Stage(asset: Value, assetKey: string, defaults: Defaults): string {
    if Truthy(Get(asset, "stage")) then defaults.show(Get(asset, "stage")) else assetKey
  }

  /** The override of the novel for this asset. */
  function NovelOverride(novel: Value, assetKey: string): Value {
    Get(Get(novel, "ai_profiles"), assetKey)
  }

  /** All layers of the inference parameters, lowest priority first. */
  function InferenceLayers(strategy: Strategy, stage: string, asset: Value, override: Value, runtime: Value)
    : seq<Value>
  {
    StageLayers(strategy.inference, stage)
    + LayerOf(Get(asset, "inference")) + LayerOf(Get(override, "inference")) + LayerOf(Get(runtime, "inference"))
  }

  /** The layers of an asset's profile. */
  function ProfileLayers(strategy: Strategy, assetKey: string, novel: Value, runtime: Value, defaults: Defaults)
    : seq<Value>
  {
    var asset := AssetProfile(strategy, assetKey, defaults);
    InferenceLayers(strategy, Stage(asset, assetKey, defaults), asset, NovelOverride(novel, assetKey), runtime)
  }

  /** The text of `v` if it is set. */
  function SetOr(v: Value, fallback: string, show: Value -> string): string {
    if Truthy(v) then show(v) else fallback
  }

  /** The text of the highest of the three overrides that is set. */
  function Chosen(asset: Value, override: Value, runtime: Value, key: string, initial: string, show: Value -> string)
    : string
  {
    SetOr(Get(runtime, key), SetOr(Get(override, key), SetOr(Get(asset, key), initial, show), show), show)
  }

  predicate IsGemini(provider: string) {
    Lower(Strip(provider)) == "gemini"
  }

  /** Parameters for Gemini go to no other provider. */
  predicate Dropped(profile: Profile, p: Path) {
    p != [] && p[0] == "gemini" && !IsGemini(profile.provider)
  }

  // ---------- resolution ----------

  predicate UsesDefault(v: Value) {
    v in {Leaf(Text("__default__")), Leaf(Text("default")), Leaf(Text("")), Leaf(Null)}
  }

  /** `get_model_for_stage`: an entry of the stage, when it names something, replaces the default. */
  function StageChoice(strategy: Strategy, stage: string, key: string, initial: string, defaults: Defaults): string {
    var own := Get(strategy.stages, stage);
    var entry := if Truthy(own) then own else Get(defaults.stages, stage);
    if UsesDefault(Get(entry, key)) then initial else defaults.show(Get(entry, key))
  }

  lemma MergeAllLayer(layers: seq<Value>, v: Value)
    ensures MergeAll(layers + LayerOf(v)) == if v.Node? then Merge(MergeAll(layers), v) else MergeAll(layers)
  {
    if v.Node? {
      MergeAllThen(layers, v);
    } else {
      assert layers + [] == layers;
    }
  }

  method GetInferenceForStage(inference: Value, stage: string) returns (resolved: Value)
    ensures resolved.Node? && resolved == MergeAll(StageLayers(inference, stage))
  {
    resolved := EMPTY;
    var baseStage := BeforeDot(stage);
    if baseStage != stage {
      var baseConfig := Get(inference, baseStage);
      if baseConfig.Node? {
        resolved := DeepMerge(resolved, baseConfig);
      }
      MergeAllLayer([], baseConfig);
    }
    assert [] + BaseLayer(inference, stage) == BaseLayer(inference, stage);
    assert resolved == MergeAll(BaseLayer(inference, stage));
    var stageConfig := Get(inference, stage);
    if stageConfig.Node? {
      resolved := DeepMerge(resolved, stageConfig);
    }
    MergeAllLayer(BaseLayer(inference, stage), stageConfig);
  }

  method FilterInferenceForProvider(inference: Value, provider: string) returns (resolved: Value)
    requires inference.Node?
    ensures resolved.Node?
    ensures forall p :: p != [] ==>
              At(resolved, p) == if p[0] == "gemini" && !IsGemini(provider) then Absent else At(inference, p)
  {
    resolved := inference;
    if !IsGemini(provider) {
      resolved := Node(resolved.fields - {"gemini"});
    }
  }

  /** Lays `top` over what is resolved so far, if it is a mapping. */
  method Overlay(inference: Value, ghost layers: seq<Value>, top: Value) returns (resolved: Value)
    requires inference.Node? && inference == MergeAll(layers)
    ensures resolved.Node? && resolved == MergeAll(layers + LayerOf(top))
  {
    resolved := inference;
    if top.Node? {
      MergeAllThen(layers, top);
      resolved := DeepMerge(inference, top);
    } else {
      assert layers + [] == layers;
    }
  }

  method ResolveAiProfile(strategy: Strategy, assetKey: string, novel: Value, runtime: Value, defaults: Defaults)
    returns (profile: Profile)
    ensures var asset := AssetProfile(strategy, assetKey, defaults);
      var override := NovelOverride(novel, assetKey);
      && profile.stage == Stage(asset, assetKey, defaults)
      && profile.provider == Chosen(asset, override, runtime, "provider",
           StageChoice(strategy, profile.stage, "provider", defaults.provider, defaults), defaults.show)
      && profile.model == Chosen(asset, override, runtime, "model",
           StageChoice(strategy, profile.stage, "model", defaults.model, defaults), defaults.show)
    ensures var layers := ProfileLayers(strategy, assetKey, novel, runtime, defaults);
      forall p, i :: p != [] && Decides(layers, i, p) ==>
        At(profile.inference, p) == if Dropped(profile, p) then Absent else At(layers[i], p)
    ensures var layers := ProfileLayers(strategy, assetKey, novel, runtime, defaults);
      forall p :: p != [] && (forall i :: !Decides(layers, i, p)) ==> At(profile.inference, p) == Absent
    ensures var layers := ProfileLayers(strategy, assetKey, novel, runtime, defaults);
      forall p :: p != [] ==>
        At(profile.inference, p) == if Dropped(profile, p) then Absent else At(MergeAll(layers), p)
  {
    var show := defaults.show;
    var asset := AssetProfile(strategy, assetKey, defaults);
    var stage := Stage(asset, assetKey, defaults);
    var provider := StageChoice(strategy, stage, "provider", defaults.provider, defaults);
    var model := StageChoice(strategy, stage, "model", defaults.model, defaults);
    var inference := GetInferenceForStage(strategy.inference, stage);
    ghost var layers := StageLayers(strategy.inference, stage);

    inference := Overlay(inference, layers, Get(asset, "inference"));
    layers := layers + LayerOf(Get(asset, "inference"));
    provider := SetOr(Get(asset, "provider"), provider, show);
    model := SetOr(Get(asset, "model"), model, show);

    var override := NovelOverride(novel, assetKey);
    provider := SetOr(Get(override, "provider"), provider, show);
    model := SetOr(Get(override, "model"), model, show);
    inference := Overlay(inference, layers, Get(override, "inference"));
    layers := layers + LayerOf(Get(override, "inference"));

    provider := SetOr(Get(runtime, "provider"), provider, show);
    model := SetOr(Get(runtime, "model"), model, show);
    inference := Overlay(inference, layers, Get(runtime, "inference"));
    layers := layers + LayerOf(Get(runtime, "inference"));

    var filtered := FilterInferenceForProvider(inference, provider);
    profile := Profile(stage, provider, model, filtered);
    assert layers == ProfileLayers(strategy, assetKey, novel, runtime, defaults);
    forall p: Path | p != []
      ensures forall i :: Decides(layers, i, p) ==>
        At(profile.inference, p) == if Dropped(profile, p) then Absent else At(layers[i], p)
      ensures (forall i :: !Decides(layers, i, p)) ==> At(profile.inference, p) == Absent
    {
      HighestLayerDecides(layers, p);
    }
  }

  // ---------- who decides ----------

  /** What the layers so far show at `p` once `v` is laid over them. */
  lemma LayerDecides(layers: seq<Value>, v: Value, p: Path)
    ensures At(MergeAll(layers + LayerOf(v)), p) ==
            if v.Node? && Touches(v, p) then At(v, p) else At(MergeAll(layers), p)
  {
    MergeAllLayer(layers, v);
    MergeOverlays(MergeAll(layers), v, p);
  }

  /** The source says something about the inference parameter at `p`. */
  predicate Speaks(source: Value, p: Path) {
    source.Node? && Touches(source, p)
  }

  /** The entry of the stage's own parameters, or else of those of its base stage. */
  lemma StageDecides(inference: Value, stage: string, p: Path)
    requires p != []
    ensures var own, base := Get(inference, stage), Get(inference, BeforeDot(stage));
      At(MergeAll(StageLayers(inference, stage)), p) ==
      if Speaks(own, p) then At(own, p)
      else if BeforeDot(stage) != stage && Speaks(base, p) then At(base, p)
      else Absent
  {
    LayerDecides(BaseLayer(inference, stage), Get(inference, stage), p);
    if BeforeDot(stage) != stage {
      LayerDecides([], Get(inference, BeforeDot(stage)), p);
      assert [] + LayerOf(Get(inference, BeforeDot(stage))) == BaseLayer(inference, stage);
    }
  }

  /** Each inference parameter comes from the run, else the novel, else the asset, else the stage. */
  lemma RunThenNovelThenAsset(
      strategy: Strategy, assetKey: string, novel: Value, runtime: Value, defaults: Defaults, p: Path)
    requires p != []
    ensures var asset := AssetProfile(strategy, assetKey, defaults);
      var ofRun, ofAsset := Get(runtime, "inference"), Get(asset, "inference");
      var ofNovel := Get(Get(Get(novel, "ai_profiles"), assetKey), "inference");
      At(MergeAll(ProfileLayers(strategy, assetKey, novel, runtime, defaults)), p) ==
      if Speaks(ofRun, p) then At(ofRun, p)
      else if Speaks(ofNovel, p) then At(ofNovel, p)
      else if Speaks(ofAsset, p) then At(ofAsset, p)
      else At(MergeAll(StageLayers(strategy.inference, Stage(asset, assetKey, defaults))), p)
  {
    var asset := AssetProfile(strategy, assetKey, defaults);
    var ofStage := StageLayers(strategy.inference, Stage(asset, assetKey, defaults));
    var ofAsset, ofNovel := Get(asset, "inference"), Get(NovelOverride(novel, assetKey), "inference");
    LayerDecides(ofStage, ofAsset, p);
    LayerDecides(ofStage + LayerOf(ofAsset), ofNovel, p);
    LayerDecides(ofStage + LayerOf(ofAsset) + LayerOf(ofNovel), Get(runtime, "inference"), p);
  }

  /** Provider and model, by name: the run's if it is set, else the novel's, else the asset's, else the stage's. */
  lemma ChosenByPriority(ofAsset: Value, ofNovel: Value, ofRun: Value, key: string, ofStage: string,
                         show: Value -> string)
    ensures Chosen(ofAsset, ofNovel, ofRun, key, ofStage, show) ==
            if Truthy(Get(ofRun, key)) then show(Get(ofRun, key))
            else if Truthy(Get(ofNovel, key)) then show(Get(ofNovel, key))
            else if Truthy(Get(ofAsset, key)) then show(Get(ofAsset, key))
            else ofStage
  {
  }

  // ---------- what is read from where ----------

  /** What Python counts as false. */
  const FALSE_VALUES: set<Value> := {Leaf(Null), Leaf(Text("")), Leaf(Number(0)), Leaf(Items([])), EMPTY}

  lemma TruthyIs(v: Value)
    ensures Truthy(v) <==> v !in FALSE_VALUES
  {
  }

  /** The asset's profile is the strategy's own if that is a mapping, and the built-in one otherwise; its stage is
      the one it names, and the asset's key otherwise. */
  lemma AssetReads(strategy: Strategy, assetKey: string, defaults: Defaults)
    ensures var own, asset := Get(strategy.assetProfiles, assetKey), AssetProfile(strategy, assetKey, defaults);
      && (own.Node? ==> asset == own)
      && (own.Leaf? ==> asset == Get(defaults.assetProfiles, assetKey))
      && (Get(asset, "stage") in FALSE_VALUES ==> Stage(asset, assetKey, defaults) == assetKey)
      && (Get(asset, "stage") !in FALSE_VALUES ==>
            Stage(asset, assetKey, defaults) == defaults.show(Get(asset, "stage")))
  {
    TruthyIs(Get(AssetProfile(strategy, assetKey, defaults), "stage"));
  }

  /** Provider or model of a stage: from the strategy's entry of the stage if it has one, and the built-in entry
      otherwise; a placeholder or nothing there leaves the process's own. */
  lemma StageReads(strategy: Strategy, stage: string, key: string, initial: string, defaults: Defaults)
    ensures var own, builtIn := Get(strategy.stages, stage), Get(defaults.stages, stage);
      var named := if own in FALSE_VALUES then Get(builtIn, key) else Get(own, key);
      var nothing := {Leaf(Null), Leaf(Text("")), Leaf(Text("default")), Leaf(Text("__default__"))};
      StageChoice(strategy, stage, key, initial, defaults) == if named in nothing then initial else defaults.show(named)
  {
    TruthyIs(Get(strategy.stages, stage));
  }

  /** Capitals and spaces around do not matter; only Gemini keeps its parameters. */
  lemma GeminiKeepsItsParameters(stage: string, provider: string, model: string, inference: Value, p: Path)
    ensures Dropped(Profile(stage, provider, model, inference), p) <==>
            p != [] && p[0] == "gemini" && Lower(Strip(provider)) != "gemini"
    ensures IsGemini("gemini") && IsGemini("Gemini") && !IsGemini("openai") && !IsGemini("")
  {
    assert Strip("gemini") == "gemini" && Lower("gemini") == "gemini";
    assert Strip("Gemini") == "Gemini" && Lower("Gemini") == "gemini";
    assert Strip("openai") == "openai" && Lower("openai")[0] == 'o';
    assert Strip("") == "";
  }
}
