/** The pure helpers of the agents package (apps/agents/src/utils.ts): store
    lookup, artifact formatting, the model-name router, data-URL cleaning,
    Gemini context documents and message formatting. */
module AgentUtils {
  import opened Wrappers
  import opened Seqs
  import opened Strings
  import opened Messages
  import opened Artifacts
  import opened Runtime

  /** `ensureStoreInConfig(config)`: the configured store, or an error naming it. */
  function EnsureStoreInConfig(config: Config): (r: Result<Store>)
    ensures r.Ok? <==> config.store.Some?
    ensures r.Ok? ==> r.value == config.store.value
    ensures r.Err? ==> r.msg == "`store` not found in config"
  {
    match config.store
    case Some(st) => Ok(st)
    case None => Err("`store` not found in config")
  }

  // ---------------------------------------------------------------------
  // artifact formatting

  /** How many characters of the body a shortened rendering keeps. */
  const ShortContentLength: nat := 500

  function ArtifactHeader(c: Content): string
    requires c.Flat?
  {
    "Title: " + c.title + "\nArtifact type: " + c.kind + "\nContent: "
  }

  /** `formatArtifactContent(content, shortenContent)`. */
  function FormatArtifactContent(c: Content, shorten: bool): (r: string)
    requires c.Flat?
    ensures ArtifactHeader(c) <= r
    ensures var shown := r[|ArtifactHeader(c)|..];
            shown <= c.fullMarkdown &&
            (shorten ==> |shown| == if |c.fullMarkdown| < ShortContentLength then |c.fullMarkdown| else ShortContentLength) &&
            (!shorten ==> shown == c.fullMarkdown)
  {
    var shown := if shorten then Prefix(c.fullMarkdown, ShortContentLength) else c.fullMarkdown;
    var r := ArtifactHeader(c) + shown;
    assert r[|ArtifactHeader(c)|..] == shown;
    r
  }

  /** `formatArtifactContentWithTemplate(template, content, shortenContent)`. */
  function FormatArtifactContentWithTemplate(template: string, c: Content, shorten: bool): (r: string)
    requires c.Flat?
    ensures !Contains(template, "{artifact}") ==> r == template
  {
    ReplaceFirst(template, "{artifact}", FormatArtifactContent(c, shorten))
  }

  /** The formatted artifact lands where the template's `{artifact}` placeholder was. */
  lemma FormatWithTemplateFills(a: string, b: string, c: Content, shorten: bool)
    requires c.Flat? && '{' !in a
    ensures FormatArtifactContentWithTemplate(a + "{artifact}" + b, c, shorten) == a + FormatArtifactContent(c, shorten) + b
  {
    Fill(a, "{artifact}", b, FormatArtifactContent(c, shorten));
  }

  // ---------------------------------------------------------------------
  // getModelConfig

  /** The name and provider `getModelConfig` returns (keys, URLs and Azure
      settings come from the environment and are not modelled). */
  datatype ModelConfig = ModelConfig(modelName: string, modelProvider: string)

  const FireworksToolModel: string := "accounts/fireworks/models/llama-v3p3-70b-instruct"
  const GeminiToolModel: string := "gemini-2.0-flash-exp"

  /** The Gemini rule, which the source writes out twice. */
  function GeminiConfig(name: string, isToolCalling: bool): ModelConfig {
    ModelConfig(if isToolCalling && Contains(name, "thinking") then GeminiToolModel else name, "google-genai")
  }

  /** The provider chain of `getModelConfig`: the first matching name test,
      in source order (the Gemini test is written twice). */
  function RouteProvider(name: string): string {
    if "azure/" <= name then "azure_openai"
    else if Contains(name, "gpt-") || Contains(name, "o1") || Contains(name, "o3") then "openai"
    else if Contains(name, "claude-") then "anthropic"
    else if Contains(name, "fireworks/") then "fireworks"
    else if "groq/" <= name then "groq"
    else if Contains(name, "gemini-") then "google-genai"
    else if Contains(name, "gemini-") then "google-genai"
    else if "ollama-" <= name then "ollama"
    else ""
  }

  /** The model name each provider's branch returns: prefixes are stripped,
      and under tool calling o1 models become gpt-4o, Fireworks models the
      Llama tool model and Gemini thinking models the Gemini tool model. */
  function RoutedModelName(provider: string, name: string, isToolCalling: bool): string {
    match provider
    case "azure_openai" =>
      var actual := ReplaceFirst(name, "azure/", "");
      if isToolCalling && Contains(actual, "o1") then "gpt-4o" else actual
    case "openai" => if isToolCalling && Contains(name, "o1") then "gpt-4o" else name
    case "fireworks" => if isToolCalling && name != FireworksToolModel then FireworksToolModel else name
    case "groq" => ReplaceFirst(name, "groq/", "")
    case "google-genai" => GeminiConfig(name, isToolCalling).modelName
    case "ollama" => ReplaceFirst(name, "ollama-", "")
    case _ => name
  }

  /** `getModelConfig(config, { isToolCalling })`: the provider is decided by
      the first matching name rule, in source order. */
  function GetModelConfig(customModelName: string, isToolCalling: bool): (r: Result<ModelConfig>)
    ensures customModelName == "" <==> r == Err("Model name is missing in config.")
    ensures r.Ok? ==> r.value.modelName != "" || "azure/" <= customModelName || "groq/" <= customModelName || "ollama-" <= customModelName
    ensures r.Err? ==> r.msg in {"Model name is missing in config.", "Unknown model provider"}
    ensures customModelName != "" ==> (r.Ok? <==> RouteProvider(customModelName) != "")
    ensures r.Ok? ==> r.value.modelProvider == RouteProvider(customModelName)
  {
    var name := customModelName;
    if name == "" then Err("Model name is missing in config.")
    else
      var provider := RouteProvider(name);
      if provider == "" then Err("Unknown model provider")
      else Ok(ModelConfig(RoutedModelName(provider, name, isToolCalling), provider))
  }

  /** The name tests the router applies. */
  datatype NameTest = StartsWith(p: string) | Includes(p: string) | IncludesAny(ps: seq<string>)

  predicate Passes(t: NameTest, name: string) {
    match t
    case StartsWith(p) => p <= name
    case Includes(p) => Contains(name, p)
    case IncludesAny(ps) => exists i :: 0 <= i < |ps| && Contains(name, ps[i])
  }

  datatype ProviderRule = ProviderRule(test: NameTest, provider: string)

  /** The router as a decision table, one row per `if` of the source. */
  const ProviderRules: seq<ProviderRule> := [
    ProviderRule(StartsWith("azure/"), "azure_openai"),
    ProviderRule(IncludesAny(["gpt-", "o1", "o3"]), "openai"),
    ProviderRule(Includes("claude-"), "anthropic"),
    ProviderRule(Includes("fireworks/"), "fireworks"),
    ProviderRule(StartsWith("groq/"), "groq"),
    ProviderRule(Includes("gemini-"), "google-genai"),
    ProviderRule(Includes("gemini-"), "google-genai"),
    ProviderRule(StartsWith("ollama-"), "ollama")
  ]

  /** The first rule of the table that the name passes. */
  function SelectedRule(name: string): (r: Option<nat>)
    ensures r.Some? ==> r.value < |ProviderRules| && Passes(ProviderRules[r.value].test, name)
    ensures r.Some? ==> forall j :: 0 <= j < r.value ==> !Passes(ProviderRules[j].test, name)
    ensures r.None? <==> forall j :: 0 <= j < |ProviderRules| ==> !Passes(ProviderRules[j].test, name)
  {
    FindFirst(ProviderRules, (rule: ProviderRule) => Passes(rule.test, name))
  }

  lemma IncludesAnyOpenAI(name: string)
    ensures Passes(IncludesAny(["gpt-", "o1", "o3"]), name) <==>
              (Contains(name, "gpt-") || Contains(name, "o1") || Contains(name, "o3"))
  {
    var ps := ["gpt-", "o1", "o3"];
    if Contains(name, "gpt-") { assert Contains(name, ps[0]); }
    if Contains(name, "o1") { assert Contains(name, ps[1]); }
    if Contains(name, "o3") { assert Contains(name, ps[2]); }
  }

  /** What each row of the table tests, spelled out. */
  lemma RuleTests(name: string)
    ensures Passes(ProviderRules[0].test, name) <==> "azure/" <= name
    ensures Passes(ProviderRules[1].test, name) <==> (Contains(name, "gpt-") || Contains(name, "o1") || Contains(name, "o3"))
    ensures Passes(ProviderRules[2].test, name) <==> Contains(name, "claude-")
    ensures Passes(ProviderRules[3].test, name) <==> Contains(name, "fireworks/")
    ensures Passes(ProviderRules[4].test, name) <==> "groq/" <= name
    ensures Passes(ProviderRules[5].test, name) <==> Contains(name, "gemini-")
    ensures Passes(ProviderRules[6].test, name) <==> Contains(name, "gemini-")
    ensures Passes(ProviderRules[7].test, name) <==> "ollama-" <= name
  {
    IncludesAnyOpenAI(name);
  }

  /** For a non-empty name, `getModelConfig` succeeds exactly when some rule
      of the table matches, and then reports the provider of the first one. */
  lemma GetModelConfigFollowsRules(name: string, isToolCalling: bool)
    requires name != ""
    ensures GetModelConfig(name, isToolCalling).Ok? <==> SelectedRule(name).Some?
    ensures GetModelConfig(name, isToolCalling).Ok? ==>
              GetModelConfig(name, isToolCalling).value.modelProvider == ProviderRules[SelectedRule(name).value].provider
    ensures GetModelConfig(name, isToolCalling).Err? ==> GetModelConfig(name, isToolCalling).msg == "Unknown model provider"
  {
    RouteProviderIsTable(name);
  }

  /** The provider chain picks the provider of the first matching row, and
      no provider when no row matches. */
  lemma RouteProviderIsTable(name: string)
    ensures SelectedRule(name).Some? ==> RouteProvider(name) == ProviderRules[SelectedRule(name).value].provider
    ensures SelectedRule(name).None? ==> RouteProvider(name) == ""
    ensures SelectedRule(name).Some? <==> RouteProvider(name) != ""
  {
    if "azure/" <= name {
      AzureRow(name);
    } else if Contains(name, "gpt-") || Contains(name, "o1") || Contains(name, "o3") {
      OpenAIRow(name);
    } else if Contains(name, "claude-") {
      ClaudeRow(name);
    } else if Contains(name, "fireworks/") {
      FireworksRow(name);
    } else {
      LaterRows(name);
    }
  }

  lemma AzureRow(name: string)
    requires "azure/" <= name
    ensures SelectedRule(name) == Some(0)
    ensures RouteProvider(name) == "azure_openai"
  {
    RuleTests(name);
    SelectedRuleIs(name, 0);
  }

  lemma OpenAIRow(name: string)
    requires !("azure/" <= name) && (Contains(name, "gpt-") || Contains(name, "o1") || Contains(name, "o3"))
    ensures SelectedRule(name) == Some(1)
    ensures RouteProvider(name) == "openai"
  {
    RuleTests(name);
    SelectedRuleIs(name, 1);
  }

  lemma ClaudeRow(name: string)
    requires !("azure/" <= name) && !(Contains(name, "gpt-") || Contains(name, "o1") || Contains(name, "o3"))
    requires Contains(name, "claude-")
    ensures SelectedRule(name) == Some(2)
    ensures RouteProvider(name) == "anthropic"
  {
    RuleTests(name);
    SelectedRuleIs(name, 2);
  }

  lemma FireworksRow(name: string)
    requires !("azure/" <= name) && !(Contains(name, "gpt-") || Contains(name, "o1") || Contains(name, "o3"))
    requires !Contains(name, "claude-") && Contains(name, "fireworks/")
    ensures SelectedRule(name) == Some(3)
    ensures RouteProvider(name) == "fireworks"
  {
    RuleTests(name);
    SelectedRuleIs(name, 3);
  }

  lemma LaterRows(name: string)
    requires !("azure/" <= name) && !(Contains(name, "gpt-") || Contains(name, "o1") || Contains(name, "o3"))
    requires !Contains(name, "claude-") && !Contains(name, "fireworks/")
    ensures "groq/" <= name ==> SelectedRule(name) == Some(4) && RouteProvider(name) == "groq"
    ensures !("groq/" <= name) && Contains(name, "gemini-") ==>
              SelectedRule(name) == Some(5) && RouteProvider(name) == "google-genai"
    ensures !("groq/" <= name) && !Contains(name, "gemini-") && "ollama-" <= name ==>
              SelectedRule(name) == Some(7) && RouteProvider(name) == "ollama"
    ensures !("groq/" <= name) && !Contains(name, "gemini-") && !("ollama-" <= name) ==>
              SelectedRule(name) == None && RouteProvider(name) == ""
  {
    if "groq/" <= name {
      GroqRow(name);
    } else if Contains(name, "gemini-") {
      GeminiRow(name);
    } else if "ollama-" <= name {
      OllamaRow(name);
    } else {
      RuleTests(name);
      NoRuleSelected(name);
    }
  }

  lemma GroqRow(name: string)
    requires !("azure/" <= name) && !(Contains(name, "gpt-") || Contains(name, "o1") || Contains(name, "o3"))
    requires !Contains(name, "claude-") && !Contains(name, "fireworks/") && "groq/" <= name
    ensures SelectedRule(name) == Some(4)
  {
    RuleTests(name);
    SelectedRuleIs(name, 4);
  }

  lemma GeminiRow(name: string)
    requires !("azure/" <= name) && !(Contains(name, "gpt-") || Contains(name, "o1") || Contains(name, "o3"))
    requires !Contains(name, "claude-") && !Contains(name, "fireworks/") && !("groq/" <= name)
    requires Contains(name, "gemini-")
    ensures SelectedRule(name) == Some(5)
  {
    RuleTests(name);
    SelectedRuleIs(name, 5);
  }

  lemma OllamaRow(name: string)
    requires !("azure/" <= name) && !(Contains(name, "gpt-") || Contains(name, "o1") || Contains(name, "o3"))
    requires !Contains(name, "claude-") && !Contains(name, "fireworks/") && !("groq/" <= name)
    requires !Contains(name, "gemini-") && "ollama-" <= name
    ensures SelectedRule(name) == Some(7)
  {
    RuleTests(name);
    SelectedRuleIs(name, 7);
  }

  /** A name failing every row has no selected row. */
  lemma NoRuleSelected(name: string)
    requires forall j :: 0 <= j < |ProviderRules| ==> !Passes(ProviderRules[j].test, name)
    ensures SelectedRule(name) == None
  {
  }

  /** A row the name passes, after rows it fails, is the selected row. */
  lemma SelectedRuleIs(name: string, k: nat)
    requires k < |ProviderRules| && Passes(ProviderRules[k].test, name)
    requires forall j :: 0 <= j < k ==> !Passes(ProviderRules[j].test, name)
    ensures SelectedRule(name) == Some(k)
  {
  }

  /** The second Gemini rule can never be the one selected. */
  lemma SecondGeminiRuleUnreachable(name: string)
    ensures SelectedRule(name) != Some(6)
  {
    RuleTests(name);
  }

  /** A name carrying an "o1" anywhere is routed to OpenAI even when it also
      names another provider (unless it starts with "azure/"), and under tool
      calling it is swapped for gpt-4o. */
  lemma OpenAIRuleComesFirst(name: string, isToolCalling: bool)
    requires name != "" && !("azure/" <= name) && Contains(name, "o1")
    ensures GetModelConfig(name, isToolCalling).Ok?
    ensures GetModelConfig(name, isToolCalling).value.modelProvider == "openai"
    ensures isToolCalling ==> GetModelConfig(name, isToolCalling).value.modelName == "gpt-4o"
  {
  }

  /** The "azure/", "groq/" and "ollama-" rules strip exactly their prefix. */
  lemma PrefixRulesStrip(rest: string)
    ensures var r := GetModelConfig("azure/" + rest, false);
            r.Ok? && r.value.modelName == rest && r.value.modelProvider == "azure_openai"
    ensures var r := GetModelConfig("groq/" + rest, false);
            !Contains("groq/" + rest, "gpt-") && !Contains("groq/" + rest, "o1") && !Contains("groq/" + rest, "o3") &&
            !Contains("groq/" + rest, "claude-") && !Contains("groq/" + rest, "fireworks/") ==>
              r.Ok? && r.value.modelName == rest && r.value.modelProvider == "groq"
    ensures var n := "ollama-" + rest;
            var r := GetModelConfig(n, false);
            !Contains(n, "gpt-") && !Contains(n, "o1") && !Contains(n, "o3") && !Contains(n, "claude-") &&
            !Contains(n, "fireworks/") && !Contains(n, "gemini-") ==>
              r.Ok? && r.value.modelName == rest && r.value.modelProvider == "ollama"
  {
    AzureStrip(rest);
    GroqStrip(rest);
    OllamaStrip(rest);
  }

  lemma AzureStrip(rest: string)
    ensures var r := GetModelConfig("azure/" + rest, false);
            r.Ok? && r.value.modelName == rest && r.value.modelProvider == "azure_openai"
  {
    StripPrefix("azure/" + rest, "azure/");
    assert ("azure/" + rest)[|"azure/"|..] == rest;
  }

  lemma GroqStrip(rest: string)
    ensures var n := "groq/" + rest;
            var r := GetModelConfig(n, false);
            !Contains(n, "gpt-") && !Contains(n, "o1") && !Contains(n, "o3") &&
            !Contains(n, "claude-") && !Contains(n, "fireworks/") ==>
              r.Ok? && r.value.modelName == rest && r.value.modelProvider == "groq"
  {
    var n := "groq/" + rest;
    StripPrefix(n, "groq/");
    assert n[|"groq/"|..] == rest;
    assert n[0] == 'g';
    assert !("azure/" <= n);
    assert "groq/" <= n;
  }

  lemma OllamaStrip(rest: string)
    ensures var n := "ollama-" + rest;
            var r := GetModelConfig(n, false);
            !Contains(n, "gpt-") && !Contains(n, "o1") && !Contains(n, "o3") && !Contains(n, "claude-") &&
            !Contains(n, "fireworks/") && !Contains(n, "gemini-") ==>
              r.Ok? && r.value.modelName == rest && r.value.modelProvider == "ollama"
  {
    var n := "ollama-" + rest;
    assert "ollama-" <= n;
    if !Contains(n, "gpt-") && !Contains(n, "o1") && !Contains(n, "o3") && !Contains(n, "claude-") &&
       !Contains(n, "fireworks/") && !Contains(n, "gemini-") {
      OllamaRoute(n);
    }
    StripPrefix(n, "ollama-");
    assert n[|"ollama-"|..] == rest;
  }

  lemma OllamaRoute(n: string)
    requires "ollama-" <= n
    requires !Contains(n, "gpt-") && !Contains(n, "o1") && !Contains(n, "o3") && !Contains(n, "claude-")
    requires !Contains(n, "fireworks/") && !Contains(n, "gemini-")
    ensures RouteProvider(n) == "ollama"
  {
    assert n[0] == 'o';
    assert !("azure/" <= n) && !("groq/" <= n);
  }

  /** The model name each provider's branch hands back, for every name:
      Azure and OpenAI swap an "o1" model for gpt-4o under tool calling
      (Azure after dropping its prefix), Fireworks always answers tool calls
      with the Llama tool model, Gemini thinking models give way to the
      Gemini tool model, groq and ollama drop their prefix, and Anthropic
      keeps the name as given. */
  lemma ModelNamePerProvider(name: string, isToolCalling: bool)
    requires GetModelConfig(name, isToolCalling).Ok?
    ensures var c := GetModelConfig(name, isToolCalling).value;
            (c.modelProvider == "azure_openai" ==>
               |name| >= 6 && c.modelName == (if isToolCalling && Contains(name[6..], "o1") then "gpt-4o" else name[6..])) &&
            (c.modelProvider == "openai" ==>
               c.modelName == (if isToolCalling && Contains(name, "o1") then "gpt-4o" else name)) &&
            (c.modelProvider == "anthropic" ==> c.modelName == name) &&
            (c.modelProvider == "fireworks" ==> c.modelName == (if isToolCalling then FireworksToolModel else name)) &&
            (c.modelProvider == "google-genai" ==>
               c.modelName == (if isToolCalling && Contains(name, "thinking") then GeminiToolModel else name)) &&
            (c.modelProvider == "groq" ==> |name| >= 5 && c.modelName == name[5..]) &&
            (c.modelProvider == "ollama" ==> |name| >= 7 && c.modelName == name[7..])
  {
    var p := RouteProvider(name);
    var c := GetModelConfig(name, isToolCalling).value;
    assert c == ModelConfig(RoutedModelName(p, name, isToolCalling), p);
    if p == "azure_openai" {
      StripPrefix(name, "azure/");
    } else if p == "groq" {
      StripPrefix(name, "groq/");
    } else if p == "ollama" {
      StripPrefix(name, "ollama-");
    }
  }

  // ---------------------------------------------------------------------
  // cleanBase64

  /** The characters `.` does not match in a JavaScript regular expression. */
  predicate IsLineTerminator(c: char) {
    c == '\n' || c == '\r' || c == '\U{2028}' || c == '\U{2029}'
  }

  /** `s.replace(/^data:.*?;base64,/, "")`: when `s` starts with "data:", the
      lazy `.*?` stops at the first ";base64," provided no line terminator
      comes before it; otherwise nothing is removed. */
  function CleanBase64(s: string): (r: string)
    ensures |r| <= |s| && r == s[|s| - |r|..]
    ensures !("data:" <= s) ==> r == s
  {
    if "data:" <= s then
      var rest := s[5..];
      match IndexOf(rest, ";base64,")
      case Some(k) =>
        if forall j :: 0 <= j < k ==> !IsLineTerminator(rest[j]) then
          assert s[5 + k + 8..] == rest[k + 8..];
          rest[k + 8..]
        else s
      case None => s
    else s
  }

  /** A data URL whose media type has no ';' and no line break loses exactly
      its header. */
  lemma CleanBase64DataUrl(mime: string, payload: string)
    requires ';' !in mime
    requires forall j :: 0 <= j < |mime| ==> !IsLineTerminator(mime[j])
    ensures CleanBase64("data:" + mime + ";base64," + payload) == payload
  {
    var s := "data:" + mime + ";base64," + payload;
    assert s[5..] == mime + ";base64," + payload;
    FirstOccurrenceAfter(mime, ";base64,", payload);
    assert (mime + ";base64," + payload)[|mime| + 8..] == payload;
  }

  /** Cleaning is idempotent on a payload that itself has no data-URL header. */
  lemma CleanBase64Plain(s: string)
    requires !("data:" <= s)
    ensures CleanBase64(CleanBase64(s)) == CleanBase64(s)
  {
  }

  // ---------------------------------------------------------------------
  // Gemini context documents

  /** A stored context document: a media type and its data. */
  datatype ContextDocument = ContextDocument(kind: string, data: string)

  /** What `createContextDocumentMessagesGemini` makes of one document. */
  datatype GeminiPart = InlineData(mime: string, data: string) | TextDoc(text: string)

  /** One document: PDFs keep their type and their data without the data-URL
      header, types starting with "text/" are base64-decoded (by `atob`, a host function),
      "text" is passed through, anything else is refused. */
  function GeminiPartOf(doc: ContextDocument, atob: string -> Result<string>): (r: Result<GeminiPart>)
    ensures doc.kind == "application/pdf" ==> r == Ok(InlineData(doc.kind, CleanBase64(doc.data)))
    ensures doc.kind == "text" ==> r == Ok(TextDoc(doc.data))
    ensures doc.kind != "application/pdf" && !("text/" <= doc.kind) && doc.kind != "text" ==>
              r == Err("Unsupported document type: " + doc.kind)
  {
    if doc.kind == "application/pdf" then Ok(InlineData(doc.kind, CleanBase64(doc.data)))
    else if "text/" <= doc.kind then
      var text :- atob(CleanBase64(doc.data));
      Ok(TextDoc(text))
    else if doc.kind == "text" then Ok(TextDoc(doc.data))
    else Err("Unsupported document type: " + doc.kind)
  }

  /** `createContextDocumentMessagesGemini(documents)`: the documents mapped in
      order; the first document that fails makes the whole call fail. */
  function GeminiDocumentMessages(docs: seq<ContextDocument>, atob: string -> Result<string>): (r: Result<seq<GeminiPart>>)
    ensures r.Ok? <==> forall i :: 0 <= i < |docs| ==> GeminiPartOf(docs[i], atob).Ok?
    ensures r.Ok? ==> |r.value| == |docs| && forall i :: 0 <= i < |docs| ==> r.value[i] == GeminiPartOf(docs[i], atob).value
    ensures r.Err? ==> exists i :: 0 <= i < |docs| && GeminiPartOf(docs[i], atob).Err? &&
                        r.msg == GeminiPartOf(docs[i], atob).msg &&
                        forall j :: 0 <= j < i ==> GeminiPartOf(docs[j], atob).Ok?
  {
    if |docs| == 0 then Ok([])
    else
      match GeminiPartOf(docs[0], atob)
      case Err(m) => Err(m)
      case Ok(part) =>
        var rest := GeminiDocumentMessages(docs[1..], atob);
        assert forall i :: 1 <= i < |docs| ==> docs[1..][i - 1] == docs[i];
        match rest
        case Err(m) =>
          var i :| 0 <= i < |docs[1..]| && GeminiPartOf(docs[1..][i], atob).Err? &&
                   m == GeminiPartOf(docs[1..][i], atob).msg &&
                   forall j :: 0 <= j < i ==> GeminiPartOf(docs[1..][j], atob).Ok?;
          assert forall j :: 1 <= j < i + 1 ==> GeminiPartOf(docs[j], atob).Ok?;
          Err(m)
        case Ok(parts) => Ok([part] + parts)
  }

  // ---------------------------------------------------------------------
  // message text

  /** The `text` of each part that has one, in order (`flatMap`). */
  function TextsOf(parts: seq<ContentPart>): (r: seq<string>)
    ensures |r| <= |parts|
    ensures (forall i :: 0 <= i < |parts| ==> parts[i].TextPart?) ==>
              |r| == |parts| && forall i :: 0 <= i < |parts| ==> r[i] == parts[i].text
    ensures (forall i :: 0 <= i < |parts| ==> parts[i].OtherPart?) ==> r == []
  {
    if |parts| == 0 then []
    else
      var rest := TextsOf(parts[1..]);
      assert forall i :: 1 <= i < |parts| ==> parts[1..][i - 1] == parts[i];
      match parts[0]
      case TextPart(t) => [t] + rest
      case OtherPart(_) => rest
  }

  /** `getStringFromContent(content)`: string content as it is; structured
      content as the texts of its text parts joined by newlines. */
  function GetStringFromContent(c: MessageContent): (r: string)
    ensures c.Text? ==> r == c.s
    ensures c.Parts? && (forall i :: 0 <= i < |c.parts| ==> c.parts[i].OtherPart?) ==> r == ""
  {
    match c
    case Text(s) => s
    case Parts(ps) => Join(TextsOf(ps), "\n")
  }

  /** Appending a non-text part changes nothing; appending a text part adds
      its text after a newline (or alone, when there was no text yet). */
  lemma {:induction false} TextsOfSnoc(parts: seq<ContentPart>, p: ContentPart)
    ensures p.OtherPart? ==> TextsOf(parts + [p]) == TextsOf(parts)
    ensures p.TextPart? ==> TextsOf(parts + [p]) == TextsOf(parts) + [p.text]
    decreases |parts|
  {
    if |parts| == 0 {
      assert parts + [p] == [p];
      assert [p][1..] == [];
    } else {
      assert (parts + [p])[1..] == parts[1..] + [p];
      TextsOfSnoc(parts[1..], p);
    }
  }

  lemma GetStringFromContentSnoc(parts: seq<ContentPart>, p: ContentPart)
    ensures p.OtherPart? ==> GetStringFromContent(Parts(parts + [p])) == GetStringFromContent(Parts(parts))
    ensures p.TextPart? && |TextsOf(parts)| > 0 ==>
              GetStringFromContent(Parts(parts + [p])) == GetStringFromContent(Parts(parts)) + "\n" + p.text
  {
    TextsOfSnoc(parts, p);
    if p.TextPart? && |TextsOf(parts)| > 0 {
      JoinSnoc(TextsOf(parts), "\n", p.text);
    }
  }

  /** The tag that opens a rendered message: its type and its position. */
  function OpenTag(m: Message, idx: nat): string {
    "<" + m.kind + " index=\"" + NatToString(idx) + "\">\n"
  }

  /** The tag that closes a rendered message. */
  function CloseTag(m: Message): string {
    "\n</" + m.kind + ">"
  }

  /** One message as `formatMessages` renders it: the opening tag, the
      message's text, the closing tag. */
  function FormatMessage(m: Message, idx: nat): (r: string)
    ensures OpenTag(m, idx) <= r
  {
    var head := OpenTag(m, idx);
    var r := head + GetStringFromContent(m.content) + CloseTag(m);
    assert r[..|head|] == head;
    r
  }

  /** A rendered message is its opening tag, exactly its text, and its
      closing tag. */
  lemma FormatMessageLayout(m: Message, idx: nat)
    ensures var r := FormatMessage(m, idx);
            OpenTag(m, idx) <= r && |OpenTag(m, idx)| + |CloseTag(m)| <= |r| &&
            r[|r| - |CloseTag(m)|..] == CloseTag(m) &&
            r[|OpenTag(m, idx)|..|r| - |CloseTag(m)|] == GetStringFromContent(m.content)
  {
    var head := OpenTag(m, idx);
    var body := GetStringFromContent(m.content);
    var tail := CloseTag(m);
    var r := head + body + tail;
    assert r[|r| - |tail|..] == tail;
    assert r[|head|..|r| - |tail|] == body;
  }

  /** Two messages of the same type rendered at the same position differ
      whenever their texts do: the text can be read back. */
  lemma FormatMessageKeepsText(m1: Message, m2: Message, idx: nat)
    requires m1.kind == m2.kind && FormatMessage(m1, idx) == FormatMessage(m2, idx)
    ensures GetStringFromContent(m1.content) == GetStringFromContent(m2.content)
  {
    FormatMessageLayout(m1, idx);
    FormatMessageLayout(m2, idx);
    assert OpenTag(m1, idx) == OpenTag(m2, idx) && CloseTag(m1) == CloseTag(m2);
  }

  function FormattedList(ms: seq<Message>): (r: seq<string>)
    ensures |r| == |ms|
    ensures forall i :: 0 <= i < |ms| ==> r[i] == FormatMessage(ms[i], i)
  {
    seq(|ms|, i requires 0 <= i < |ms| => FormatMessage(ms[i], i))
  }

  /** `formatMessages(messages)`: each message tagged with its type and its
      position, joined by newlines. */
  function FormatMessages(ms: seq<Message>): (r: string)
    ensures ms == [] ==> r == ""
    ensures |ms| == 1 ==> r == FormatMessage(ms[0], 0)
    ensures |ms| > 0 ==> FormatMessage(ms[0], 0) <= r
  {
    var parts := FormattedList(ms);
    if |parts| > 1 then
      assert Join(parts, "\n") == parts[0] + "\n" + Join(parts[1..], "\n");
      Join(parts, "\n")
    else Join(parts, "\n")
  }

  lemma FormattedListSnoc(ms: seq<Message>, m: Message)
    ensures FormattedList(ms + [m]) == FormattedList(ms) + [FormatMessage(m, |ms|)]
  {
    var longer := FormattedList(ms + [m]);
    var parts := FormattedList(ms) + [FormatMessage(m, |ms|)];
    forall i | 0 <= i < |longer| ensures longer[i] == parts[i] {
      if i < |ms| { assert (ms + [m])[i] == ms[i]; }
    }
  }

  /** Formatting one more message appends its rendering, numbered by its
      position, after a newline. */
  lemma FormatMessagesSnoc(ms: seq<Message>, m: Message)
    requires |ms| > 0
    ensures FormatMessages(ms + [m]) == FormatMessages(ms) + "\n" + FormatMessage(m, |ms|)
  {
    FormattedListSnoc(ms, m);
    JoinSnoc(FormattedList(ms), "\n", FormatMessage(m, |ms|));
  }
}
