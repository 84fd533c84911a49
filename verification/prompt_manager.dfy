/**
  The prompt manager: a registry of per-model prompt configurations (a
  dictionary in insertion order) with lookup, insertion and field-wise
  update, and the choice of the chat template set by model-name prefix.
  Filling a template (`str.format`) is a parameter: the function from the
  template text to the filled prompt.
 */
module PromptManager {
  import opened Wrappers
  import opened Text
  import opened OrderedMaps

  /** `ModelPromptConfig`. */
  datatype ModelPromptConfig = ModelPromptConfig(
    modelName: string,
    template: string,
    temperature: real,
    maxTokens: int,
    stopSequences: seq<string>,
    systemPrompt: Option<string>)

  /** `PromptTemplate`, what `get_prompt` returns. */
  datatype PromptTemplate = PromptTemplate(
    modelName: string,
    prompt: string,
    systemPrompt: Option<string>,
    temperature: real,
    maxTokens: int,
    stopSequences: seq<string>)

  /** One entry of `self.templates`: the system, user and assistant templates. */
  datatype ChatTemplates = ChatTemplates(system: string, user: string, assistant: string)

  /** The manager's state: the chat template sets, the selected one, and the registry. */
  datatype Manager = Manager(
    templates: map<string, ChatTemplates>,
    current: ChatTemplates,
    registry: OMap<string, ModelPromptConfig>)

  datatype PromptError =
    | Unsupported(model: string)   // `ValueError(f"不支持的模型：{model_name}")`
    | MissingTemplates(key: string) // `KeyError` indexing `self.templates`

  /** The one model registered at construction. */
  const InitialModel := "Pro/deepseek-ai/DeepSeek-V3"

  /**
    `__init__`: only the `deepseek` chat templates, selected; the registry
    holds one entry for `Pro/deepseek-ai/DeepSeek-V3`. The two long texts
    (the system prompt and the role template) are parameters.
   */
  function NewManager(systemText: string, templateText: string): (m: Manager)
    ensures Valid(m.registry)
    ensures m.templates.Keys == {"deepseek"} && m.current == m.templates["deepseek"]
    ensures m.registry.keys == [InitialModel]
    ensures m.registry.entries[InitialModel] ==
      ModelPromptConfig("deepseek", templateText, 0.7, 1000, ["[用户输入]", "[助手回复]"], None)
  {
    var chat := ChatTemplates(systemText, "{input}", "{output}");
    var reg := Put(Empty(), InitialModel,
      ModelPromptConfig("deepseek", templateText, 0.7, 1000, ["[用户输入]", "[助手回复]"], None));
    Manager(map["deepseek" := chat], chat, reg)
  }

  /** `get_supported_models`: the registered names in registration order. */
  function GetSupportedModels(m: Manager): (names: seq<string>)
    requires Valid(m.registry)
    ensures forall n :: n in names <==> n in m.registry.entries
    ensures forall i, j :: 0 <= i < j < |names| ==> names[i] != names[j]
  {
    assert forall n :: n in m.registry.entries ==> exists i :: 0 <= i < |m.registry.keys| && m.registry.keys[i] == n;
    m.registry.keys
  }

  /**
    `get_prompt`: an unregistered name raises; otherwise the prompt is the
    registered template filled in, tagged with the name asked for, with the
    entry's sampling settings and system prompt.
   */
  function GetPrompt(m: Manager, modelName: string, fill: string -> string): (r: Result<PromptTemplate, PromptError>)
    ensures modelName !in m.registry.entries <==> r == Failure(Unsupported(modelName))
    ensures r.Success? ==>
      var c := m.registry.entries[modelName];
      && r.value.modelName == modelName && r.value.prompt == fill(c.template)
      && r.value.systemPrompt == c.systemPrompt && r.value.temperature == c.temperature
      && r.value.maxTokens == c.maxTokens && r.value.stopSequences == c.stopSequences
  {
    if modelName !in m.registry.entries then Failure(Unsupported(modelName))
    else
      var c := m.registry.entries[modelName];
      Success(PromptTemplate(modelName, fill(c.template), c.systemPrompt, c.temperature, c.maxTokens, c.stopSequences))
  }

  /** The initial manager answers for its one model and for nothing else. */
  lemma InitialSupportsOnlyDeepSeek(systemText: string, templateText: string, other: string, fill: string -> string)
    requires other != InitialModel
    ensures GetSupportedModels(NewManager(systemText, templateText)) == [InitialModel]
    ensures GetPrompt(NewManager(systemText, templateText), InitialModel, fill).Success?
    ensures GetPrompt(NewManager(systemText, templateText), InitialModel, fill).value.maxTokens == 1000
    ensures GetPrompt(NewManager(systemText, templateText), other, fill) == Failure(Unsupported(other))
  {
  }

  /**
    The fields `add_prompt_template` reads from its argument: a model name,
    a template, the sampling settings and a system prompt.
   */
  datatype NewPromptConfig = NewPromptConfig(
    modelName: string,
    promptTemplate: string,
    temperature: real,
    maxTokens: int,
    stopSequences: seq<string>,
    systemPrompt: Option<string>)

  /** `add_prompt_template`: insert or overwrite the entry under the config's model name. */
  function AddPromptTemplate(m: Manager, cfg: NewPromptConfig): (m': Manager)
    requires Valid(m.registry)
    ensures Valid(m'.registry) && m'.templates == m.templates && m'.current == m.current
    ensures cfg.modelName in m'.registry.entries
    ensures m'.registry.entries[cfg.modelName] ==
      ModelPromptConfig(cfg.modelName, cfg.promptTemplate, cfg.temperature, cfg.maxTokens, cfg.stopSequences, cfg.systemPrompt)
    ensures forall n :: n in m.registry.entries && n != cfg.modelName ==> n in m'.registry.entries && m'.registry.entries[n] == m.registry.entries[n]
    ensures m'.registry.entries.Keys == m.registry.entries.Keys + {cfg.modelName}
  {
    m.(registry := Put(m.registry, cfg.modelName,
      ModelPromptConfig(cfg.modelName, cfg.promptTemplate, cfg.temperature, cfg.maxTokens, cfg.stopSequences, cfg.systemPrompt)))
  }

  /** The supported models are listed in registration order: a new name goes last, a re-added one keeps its place. */
  lemma SupportedModelsOrder(m: Manager, cfg: NewPromptConfig)
    requires Valid(m.registry)
    ensures GetSupportedModels(AddPromptTemplate(m, cfg)) ==
      if cfg.modelName in m.registry.entries then GetSupportedModels(m) else GetSupportedModels(m) + [cfg.modelName]
  {
  }

  /** After adding a config, `get_prompt` for its name returns its settings; other names answer as before. */
  lemma AddThenGet(m: Manager, cfg: NewPromptConfig, other: string, fill: string -> string)
    requires Valid(m.registry) && other != cfg.modelName
    ensures var r := GetPrompt(AddPromptTemplate(m, cfg), cfg.modelName, fill);
      && r.Success? && r.value.prompt == fill(cfg.promptTemplate)
      && r.value.temperature == cfg.temperature && r.value.maxTokens == cfg.maxTokens
      && r.value.stopSequences == cfg.stopSequences && r.value.systemPrompt == cfg.systemPrompt
    ensures GetPrompt(AddPromptTemplate(m, cfg), other, fill) == GetPrompt(m, other, fill)
  {
  }

  /** The optional arguments of `update_prompt_template`; `None` leaves a field alone. */
  datatype Changes = Changes(
    template: Option<string>,
    temperature: Option<real>,
    maxTokens: Option<int>,
    stopSequences: Option<seq<string>>,
    systemPrompt: Option<string>)

  const NoChanges := Changes(None, None, None, None, None)

  /** One entry with the given fields replaced. */
  function Apply(c: ModelPromptConfig, ch: Changes): (c': ModelPromptConfig)
    ensures c'.modelName == c.modelName
    ensures c'.template == ch.template.GetOr(c.template)
    ensures c'.temperature == ch.temperature.GetOr(c.temperature)
    ensures c'.maxTokens == ch.maxTokens.GetOr(c.maxTokens)
    ensures c'.stopSequences == ch.stopSequences.GetOr(c.stopSequences)
    ensures c'.systemPrompt == (if ch.systemPrompt.Some? then ch.systemPrompt else c.systemPrompt)
  {
    ModelPromptConfig(
      c.modelName,
      ch.template.GetOr(c.template),
      ch.temperature.GetOr(c.temperature),
      ch.maxTokens.GetOr(c.maxTokens),
      ch.stopSequences.GetOr(c.stopSequences),
      if ch.systemPrompt.Some? then ch.systemPrompt else c.systemPrompt)
  }

  /**
    `update_prompt_template`: an unregistered name raises (and nothing
    changes); otherwise exactly the fields passed are replaced in that entry.
   */
  function UpdatePromptTemplate(m: Manager, modelName: string, ch: Changes): (r: Result<Manager, PromptError>)
    requires Valid(m.registry)
    ensures modelName !in m.registry.entries <==> r == Failure(Unsupported(modelName))
    ensures r.Success? ==> Valid(r.value.registry) && r.value.registry.keys == m.registry.keys
    ensures r.Success? ==> r.value.templates == m.templates && r.value.current == m.current
    ensures r.Success? ==> r.value.registry.entries.Keys == m.registry.entries.Keys
    ensures r.Success? ==> r.value.registry.entries[modelName] == Apply(m.registry.entries[modelName], ch)
    ensures r.Success? ==> forall n :: n in m.registry.entries && n != modelName ==> r.value.registry.entries[n] == m.registry.entries[n]
  {
    if modelName !in m.registry.entries then Failure(Unsupported(modelName))
    else Success(m.(registry := Put(m.registry, modelName, Apply(m.registry.entries[modelName], ch))))
  }

  /** Passing no field changes nothing. */
  lemma UpdateNothing(m: Manager, modelName: string)
    requires Valid(m.registry) && modelName in m.registry.entries
    ensures UpdatePromptTemplate(m, modelName, NoChanges) == Success(m)
  {
    assert m.registry.entries[modelName := m.registry.entries[modelName]] == m.registry.entries;
  }

  /** Updating twice with the same fields is updating once. */
  lemma UpdateIdempotent(m: Manager, modelName: string, ch: Changes)
    requires Valid(m.registry) && modelName in m.registry.entries
    ensures var once := UpdatePromptTemplate(m, modelName, ch);
      once.Success? && UpdatePromptTemplate(once.value, modelName, ch) == once
  {
    var once := UpdatePromptTemplate(m, modelName, ch).value;
    var c := once.registry.entries[modelName];
    assert Apply(c, ch) == c;
    assert once.registry.entries[modelName := c] == once.registry.entries;
  }

  /** A later update of a field wins over an earlier one; fields it leaves alone keep the earlier value. */
  lemma UpdatesCompose(m: Manager, modelName: string, first: Changes, second: Changes)
    requires Valid(m.registry) && modelName in m.registry.entries
    ensures var a := UpdatePromptTemplate(m, modelName, first);
      && a.Success?
      && var b := UpdatePromptTemplate(a.value, modelName, second);
      && b.Success?
      && b.value.registry.entries[modelName].temperature == second.temperature.GetOr(first.temperature.GetOr(m.registry.entries[modelName].temperature))
      && b.value.registry.entries[modelName].template == second.template.GetOr(first.template.GetOr(m.registry.entries[modelName].template))
  {
  }

  /**
    `set_model`: a name starting with `deepseek` selects the `deepseek`
    templates, one starting with `qianwen` the `qianwen` templates, and any
    other name `deepseek` again; a missing template set raises `KeyError`.
   */
  function SetModel(m: Manager, modelName: string): (r: Result<Manager, PromptError>)
    ensures var key := if !StartsWith(modelName, "deepseek") && StartsWith(modelName, "qianwen") then "qianwen" else "deepseek";
      && (key !in m.templates <==> r == Failure(MissingTemplates(key)))
      && (r.Success? ==> r.value == m.(current := m.templates[key]))
  {
    var key := if StartsWith(modelName, "deepseek") then "deepseek"
               else if StartsWith(modelName, "qianwen") then "qianwen"
               else "deepseek";
    if key in m.templates then Success(m.(current := m.templates[key])) else Failure(MissingTemplates(key))
  }

  /**
    On the manager as constructed, every `qianwen` name raises (there are no
    `qianwen` templates) and every other name keeps the `deepseek` templates.
   */
  lemma SetModelOnInitial(systemText: string, templateText: string, modelName: string)
    ensures var m := NewManager(systemText, templateText);
      && (StartsWith(modelName, "qianwen") ==> SetModel(m, modelName) == Failure(MissingTemplates("qianwen")))
      && (!StartsWith(modelName, "qianwen") ==> SetModel(m, modelName) == Success(m))
  {
    var m := NewManager(systemText, templateText);
    if StartsWith(modelName, "qianwen") {
      assert modelName[0] == 'q';
    }
    assert m.(current := m.templates["deepseek"]) == m;
  }
}
