/**
 * The auto classes of curated-transformers: a model type read from the Hugging Face
 * configuration is looked up in a per-family table, and either the mapped class is loaded
 * with the caller's arguments or a `ValueError` lists the supported model types.
 * Fetching the configuration and loading the weights are hub I/O; the first is a function
 * parameter and the second is represented by the request handed to the resolved class.
 */
module AutoModel {
  import opened Results

  /** The module classes the three tables map to. */
  datatype ModuleClass =
    | BertEncoder | AlbertEncoder | CamembertEncoder | RobertaEncoder | XlmRobertaEncoder
    | GPTNeoXDecoder | LLaMADecoder | RefinedWebModelDecoder
    | GPTNeoXCausalLM | LLaMACausalLM | RefinedWebModelCausalLM

  /** The module base class each class derives from. */
  datatype Family = EncoderModule | DecoderModule | CausalLMModule

  function FamilyOf(c: ModuleClass): Family
  {
    match c
    case BertEncoder | AlbertEncoder | CamembertEncoder | RobertaEncoder | XlmRobertaEncoder => EncoderModule
    case GPTNeoXDecoder | LLaMADecoder | RefinedWebModelDecoder => DecoderModule
    case GPTNeoXCausalLM | LLaMACausalLM | RefinedWebModelCausalLM => CausalLMModule
  }

  /** A `_HF_MODEL_TYPE_TO_CURATED` dictionary as its entries in insertion order. */
  type Table = seq<(string, ModuleClass)>

  /** `table.keys()`, in insertion order. */
  function Keys(table: Table): (keys: seq<string>)
    ensures |keys| == |table|
    ensures forall i :: 0 <= i < |table| ==> keys[i] == table[i].0
  {
    seq(|table|, i requires 0 <= i < |table| => table[i].0)
  }

  /** A dictionary never holds the same key twice. */
  predicate DistinctKeys(table: Table)
  {
    forall i, j :: 0 <= i < j < |table| ==> table[i].0 != table[j].0
  }

  /** `table.get(key)`: the class stored under the key, or `None`. */
  function Get(table: Table, key: string): (r: Option<ModuleClass>)
    ensures r.Some? <==> key in Keys(table)
  {
    if table == [] then None
    else if table[0].0 == key then Some(table[0].1)
    else
      assert Keys(table) == [table[0].0] + Keys(table[1..]);
      Get(table[1..], key)
  }

  /** What `get` returns is stored in the table under the key asked for. */
  lemma {:induction false} GetReturnsEntry(table: Table, key: string)
    ensures Get(table, key).Some? ==> exists i :: 0 <= i < |table| && table[i] == (key, Get(table, key).value)
  {
    if table != [] && table[0].0 != key && Get(table, key).Some? {
      GetReturnsEntry(table[1..], key);
      var i :| 0 <= i < |table[1..]| && table[1..][i] == (key, Get(table, key).value);
      assert table[i + 1] == table[1..][i];
    }
  }

  /** In a dictionary, every entry is what `get` returns for its key. */
  lemma {:induction false} GetFindsEntry(table: Table, i: nat)
    requires DistinctKeys(table)
    requires i < |table|
    ensures Get(table, table[i].0) == Some(table[i].1)
  {
    if i > 0 {
      assert table[0].0 != table[i].0;
      assert table[1..][i - 1] == table[i];
      GetFindsEntry(table[1..], i - 1);
    }
  }

  /** Python's `repr` of a key: the text between single quotes. */
  function QuotedKey(key: string): string
  {
    "'" + key + "'"
  }

  /** The quoted keys separated by `", "`. */
  function QuotedKeys(keys: seq<string>): string
  {
    if keys == [] then ""
    else if |keys| == 1 then QuotedKey(keys[0])
    else QuotedKey(keys[0]) + ", " + QuotedKeys(keys[1..])
  }

  /** The keys are listed in table order: two runs of keys list as the two lists joined by `", "`. */
  lemma {:induction false} QuotedKeysAppend(a: seq<string>, b: seq<string>)
    requires a != [] && b != []
    ensures QuotedKeys(a + b) == QuotedKeys(a) + ", " + QuotedKeys(b)
  {
    if |a| == 1 {
      assert (a + b)[1..] == b;
    } else {
      assert (a + b)[1..] == a[1..] + b;
      QuotedKeysAppend(a[1..], b);
    }
  }

  /** `str(tuple(keys))`: a one-element tuple keeps its trailing comma. */
  function TupleRepr(keys: seq<string>): (text: string)
    ensures |text| >= 2 && text[0] == '(' && text[|text| - 1] == ')'
    ensures |keys| == 1 ==> text == "(" + QuotedKey(keys[0]) + ",)"
  {
    if |keys| == 1 then "(" + QuotedKey(keys[0]) + ",)" else "(" + QuotedKeys(keys) + ")"
  }

  /** The message of the error raised for a model type missing from the table. */
  function UnsupportedMessage(modelType: string, autoName: string, table: Table): (message: string)
    ensures var n := 24 + |modelType|;
            && |message| == n + 6 + |autoName| + 25 + |TupleRepr(Keys(table))|
            && message[23] == '`' && message[24..n] == modelType && message[n] == '`'
            && message[n + 6..n + 6 + |autoName|] == autoName
            && message[|message| - |TupleRepr(Keys(table))|..] == TupleRepr(Keys(table))
  {
    "Unsupported model type `" + modelType + "` for " + autoName + ". Supported model types: " + TupleRepr(Keys(table))
  }

  /** The arguments `from_hf_hub` is called with. */
  datatype HubRequest<D, Q> = HubRequest(name: string, revision: string, device: Option<D>, quantizationConfig: Option<Q>)

  /** What loading produces: an instance of the resolved class, loaded for the request. */
  datatype LoadedModule<D, Q> = LoadedModule(moduleClass: ModuleClass, request: HubRequest<D, Q>)

  /**
   * `_instantiate_module_from_hf_hub`: the model type the configuration of `name` at
   * `revision` declares selects the class; a type missing from the table fails with the
   * error and nothing is loaded, a present one loads its class with every argument unchanged.
   */
  function InstantiateModuleFromHfHub<D, Q>(autoName: string, configModelType: (string, string) -> string,
                                            name: string, revision: string, device: Option<D>,
                                            quantizationConfig: Option<Q>, table: Table)
    : (r: Result<LoadedModule<D, Q>>)
    ensures r.Ok? <==> configModelType(name, revision) in Keys(table)
    ensures r.Err? ==> r.error == ValueError(UnsupportedMessage(configModelType(name, revision), autoName, table))
    ensures r.Ok? ==> exists i :: 0 <= i < |table| && table[i] == (configModelType(name, revision), r.value.moduleClass)
    ensures r.Ok? ==> r.value.request == HubRequest(name, revision, device, quantizationConfig)
  {
    var modelType := configModelType(name, revision);
    GetReturnsEntry(table, modelType);
    match Get(table, modelType)
    case None => Err(ValueError(UnsupportedMessage(modelType, autoName, table)))
    case Some(moduleClass) => Ok(LoadedModule(moduleClass, HubRequest(name, revision, device, quantizationConfig)))
  }

  function EncoderTable(): (table: Table)
    ensures DistinctKeys(table) && TableOfFamily(table, EncoderModule)
  {
    [("bert", BertEncoder), ("albert", AlbertEncoder), ("camembert", CamembertEncoder),
     ("roberta", RobertaEncoder), ("xlm-roberta", XlmRobertaEncoder)]
  }

  function DecoderTable(): (table: Table)
    ensures DistinctKeys(table) && TableOfFamily(table, DecoderModule)
  {
    [("gpt_neox", GPTNeoXDecoder), ("llama", LLaMADecoder),
     ("RefinedWeb", RefinedWebModelDecoder), ("RefinedWebModel", RefinedWebModelDecoder)]
  }

  function CausalLMTable(): (table: Table)
    ensures DistinctKeys(table) && TableOfFamily(table, CausalLMModule)
  {
    [("gpt_neox", GPTNeoXCausalLM), ("llama", LLaMACausalLM),
     ("RefinedWeb", RefinedWebModelCausalLM), ("RefinedWebModel", RefinedWebModelCausalLM)]
  }

  /** Every class in a table belongs to the family its auto class promises. */
  predicate TableOfFamily(table: Table, family: Family)
  {
    forall i :: 0 <= i < |table| ==> FamilyOf(table[i].1) == family
  }

  /** `AutoEncoder.from_hf_hub`: the result is an encoder module. */
  function AutoEncoderFromHfHub<D, Q>(configModelType: (string, string) -> string, name: string,
                                      revision: string := "main", device: Option<D> := None,
                                      quantizationConfig: Option<Q> := None)
    : (r: Result<LoadedModule<D, Q>>)
    ensures r.Ok? <==> configModelType(name, revision) in ["bert", "albert", "camembert", "roberta", "xlm-roberta"]
    ensures r.Ok? ==> FamilyOf(r.value.moduleClass) == EncoderModule
    ensures r.Ok? ==> r.value.request == HubRequest(name, revision, device, quantizationConfig)
  {
    EncoderTableKeys();
    InstantiateModuleFromHfHub("AutoEncoder", configModelType, name, revision, device, quantizationConfig, EncoderTable())
  }

  /** `AutoDecoder.from_hf_hub`: the result is a decoder module. */
  function AutoDecoderFromHfHub<D, Q>(configModelType: (string, string) -> string, name: string,
                                      revision: string := "main", device: Option<D> := None,
                                      quantizationConfig: Option<Q> := None)
    : (r: Result<LoadedModule<D, Q>>)
    ensures r.Ok? <==> configModelType(name, revision) in ["gpt_neox", "llama", "RefinedWeb", "RefinedWebModel"]
    ensures r.Ok? ==> FamilyOf(r.value.moduleClass) == DecoderModule
    ensures r.Ok? ==> r.value.request == HubRequest(name, revision, device, quantizationConfig)
  {
    DecoderTablesKeys();
    InstantiateModuleFromHfHub("AutoDecoder", configModelType, name, revision, device, quantizationConfig, DecoderTable())
  }

  /** `AutoCausalLM.from_hf_hub`: the result is a causal language model module. */
  function AutoCausalLMFromHfHub<D, Q>(configModelType: (string, string) -> string, name: string,
                                       revision: string := "main", device: Option<D> := None,
                                       quantizationConfig: Option<Q> := None)
    : (r: Result<LoadedModule<D, Q>>)
    ensures r.Ok? <==> configModelType(name, revision) in ["gpt_neox", "llama", "RefinedWeb", "RefinedWebModel"]
    ensures r.Ok? ==> FamilyOf(r.value.moduleClass) == CausalLMModule
    ensures r.Ok? ==> r.value.request == HubRequest(name, revision, device, quantizationConfig)
  {
    DecoderTablesKeys();
    InstantiateModuleFromHfHub("AutoCausalLM", configModelType, name, revision, device, quantizationConfig, CausalLMTable())
  }

  /** The encoder table holds exactly the five encoder model types, each once. */
  lemma EncoderTableKeys()
    ensures Keys(EncoderTable()) == ["bert", "albert", "camembert", "roberta", "xlm-roberta"]
    ensures DistinctKeys(EncoderTable())
    ensures TableOfFamily(EncoderTable(), EncoderModule)
  {
  }

  /** The decoder and causal-LM tables have the same four model types, each once. */
  lemma DecoderTablesKeys()
    ensures Keys(DecoderTable()) == Keys(CausalLMTable()) == ["gpt_neox", "llama", "RefinedWeb", "RefinedWebModel"]
    ensures DistinctKeys(DecoderTable()) && DistinctKeys(CausalLMTable())
    ensures TableOfFamily(DecoderTable(), DecoderModule) && TableOfFamily(CausalLMTable(), CausalLMModule)
  {
  }

  /** "RefinedWeb" is an alias: both spellings resolve to the same class in both tables. */
  lemma RefinedWebAliases()
    ensures Get(DecoderTable(), "RefinedWeb") == Get(DecoderTable(), "RefinedWebModel") == Some(RefinedWebModelDecoder)
    ensures Get(CausalLMTable(), "RefinedWeb") == Get(CausalLMTable(), "RefinedWebModel") == Some(RefinedWebModelCausalLM)
  {
    DecoderTablesKeys();
    GetFindsEntry(DecoderTable(), 2);
    GetFindsEntry(DecoderTable(), 3);
    GetFindsEntry(CausalLMTable(), 2);
    GetFindsEntry(CausalLMTable(), 3);
  }
  /** The encoder error lists the five keys as a Python tuple, in table order. */
  lemma EncoderKeysRepr()
    ensures TupleRepr(Keys(EncoderTable())) == "('bert', 'albert', 'camembert', 'roberta', 'xlm-roberta')"
  {
    EncoderTableKeys();
    var k1 := ["bert"];
    var k2 := k1 + ["albert"];
    var k3 := k2 + ["camembert"];
    var k4 := k3 + ["roberta"];
    assert k4 + ["xlm-roberta"] == Keys(EncoderTable());
    EncoderReprShortLiterals();
    EncoderReprLongLiterals();
    OpenTupleSnoc(k1, "albert", "('bert'", "('bert', 'albert'");
    OpenTupleSnoc(k2, "camembert", "('bert', 'albert'", "('bert', 'albert', 'camembert'");
    OpenTupleSnoc(k3, "roberta", "('bert', 'albert', 'camembert'", "('bert', 'albert', 'camembert', 'roberta'");
    OpenTupleSnoc(k4, "xlm-roberta", "('bert', 'albert', 'camembert', 'roberta'",
                  "('bert', 'albert', 'camembert', 'roberta', 'xlm-roberta'");
  }

  /** One more key extends the open tuple text by `", "` and the quoted key. */
  lemma OpenTupleSnoc(keys: seq<string>, key: string, before: string, after: string)
    requires keys != []
    requires "(" + QuotedKeys(keys) == before
    requires before + ", " + QuotedKey(key) == after
    ensures "(" + QuotedKeys(keys + [key]) == after
  {
    QuotedKeysAppend(keys, [key]);
    assert QuotedKeys([key]) == QuotedKey(key);
    Regroup("(", QuotedKeys(keys), ", ", QuotedKey(key));
  }

  lemma Regroup(a: string, b: string, c: string, d: string)
    ensures a + (b + c + d) == a + b + c + d
  {
  }

  lemma EncoderReprShortLiterals()
    ensures "(" + QuotedKeys(["bert"]) == "('bert'"
    ensures "('bert'" + ", " + QuotedKey("albert") == "('bert', 'albert'"
    ensures "('bert', 'albert'" + ", " + QuotedKey("camembert") == "('bert', 'albert', 'camembert'"
  {
  }

  lemma EncoderReprLongLiterals()
    ensures "('bert', 'albert', 'camembert'" + ", " + QuotedKey("roberta") == "('bert', 'albert', 'camembert', 'roberta'"
    ensures "('bert', 'albert', 'camembert', 'roberta'" + ", " + QuotedKey("xlm-roberta")
            == "('bert', 'albert', 'camembert', 'roberta', 'xlm-roberta'"
    ensures "('bert', 'albert', 'camembert', 'roberta', 'xlm-roberta'" + ")"
            == "('bert', 'albert', 'camembert', 'roberta', 'xlm-roberta')"
  {
  }

  /** A GPT-2 checkpoint is not an encoder this library supports: the error names it and lists the encoder types. */
  lemma UnsupportedEncoderExample<D, Q>(configModelType: (string, string) -> string, name: string)
    requires configModelType(name, "main") == "gpt2"
    ensures AutoEncoderFromHfHub<D, Q>(configModelType, name) ==
              Err(ValueError("Unsupported model type `gpt2` for AutoEncoder. Supported model types: " + TupleRepr(Keys(EncoderTable()))))
    ensures TupleRepr(Keys(EncoderTable())) == "('bert', 'albert', 'camembert', 'roberta', 'xlm-roberta')"
  {
    EncoderTableKeys();
    EncoderKeysRepr();
    MessagePrefixLiterals();
    MessageSupportedLiteral();
  }

  lemma MessagePrefixLiterals()
    ensures "Unsupported model type `" + "gpt2" + "` for " == "Unsupported model type `gpt2` for "
    ensures "Unsupported model type `gpt2` for " + "AutoEncoder" == "Unsupported model type `gpt2` for AutoEncoder"
  {
  }

  lemma MessageSupportedLiteral()
    ensures "Unsupported model type `gpt2` for AutoEncoder" + ". Supported model types: "
            == "Unsupported model type `gpt2` for AutoEncoder. Supported model types: "
  {
  }
}
