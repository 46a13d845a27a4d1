/**
 `BedrockService`: the request body sent to Claude, the reply field read back,
 and the four generation stubs the brief handler chains together. Every stub
 passes its inputs through verbatim and fills the rest with fixed values.
 */
module Bedrock {
  import opened Wrappers
  import opened Json

  const ANTHROPIC_VERSION: string := "bedrock-2023-05-31"

  /** The default `temperature`, the Python float `0.7`. */
  const DEFAULT_TEMPERATURE: Value := Float(7, 1)

  /** The conversation: one user message holding the prompt. */
  function Messages(prompt: string): Value {
    Arr([Obj([("role", Str("user")), ("content", Str(prompt))])])
  }

  /** The fields every request has: version, messages, token limit and temperature. */
  function BaseFields(prompt: string, maxTokens: int, temperature: Value): seq<(string, Value)> {
    [("anthropic_version", Str(ANTHROPIC_VERSION)), ("messages", Messages(prompt)), ("max_tokens", Num(maxTokens)),
     ("temperature", temperature)]
  }

  /**
   The body `invoke_claude` sends: version, messages, token limit and
   temperature, with `system` appended only for a truthy system prompt.
   */
  function RequestBody(prompt: string, systemPrompt: Value, maxTokens: int, temperature: Value): (body: Value)
    ensures body.Obj? && |body.fields| == if Truthy(systemPrompt) then 5 else 4
  {
    Obj(BaseFields(prompt, maxTokens, temperature) + if Truthy(systemPrompt) then [("system", systemPrompt)] else [])
  }

  /** The fixed fields have distinct names, none of them `system`, and each reads as given. */
  lemma BaseFieldsSpec(prompt: string, maxTokens: int, temperature: Value)
    ensures var base := BaseFields(prompt, maxTokens, temperature);
      && DistinctKeys(base)
      && Lookup(base, "anthropic_version") == Some(Str(ANTHROPIC_VERSION))
      && Lookup(base, "messages") == Some(Messages(prompt))
      && Lookup(base, "max_tokens") == Some(Num(maxTokens))
      && Lookup(base, "temperature") == Some(temperature)
      && Lookup(base, "system").None?
  {
    var base := BaseFields(prompt, maxTokens, temperature);
    LookupAt(base, 1);
    LookupAt(base, 2);
    LookupAt(base, 3);
  }

  /**
   The request body has a fixed version, the single user message, the token
   limit and the temperature, and carries `system` exactly when the system
   prompt is truthy.
   */
  lemma RequestBodySpec(prompt: string, systemPrompt: Value, maxTokens: int, temperature: Value)
    ensures var body := RequestBody(prompt, systemPrompt, maxTokens, temperature);
      && DistinctKeys(body.fields)
      && Lookup(body.fields, "anthropic_version") == Some(Str(ANTHROPIC_VERSION))
      && Lookup(body.fields, "messages") == Some(Messages(prompt))
      && Lookup(body.fields, "max_tokens") == Some(Num(maxTokens))
      && Lookup(body.fields, "temperature") == Some(temperature)
      && (Lookup(body.fields, "system").Some? <==> Truthy(systemPrompt))
      && (Truthy(systemPrompt) ==> Lookup(body.fields, "system") == Some(systemPrompt))
  {
    var base := BaseFields(prompt, maxTokens, temperature);
    var extra: seq<(string, Value)> := if Truthy(systemPrompt) then [("system", systemPrompt)] else [];
    BaseFieldsSpec(prompt, maxTokens, temperature);
    LookupPrefix(base, extra, "anthropic_version");
    LookupPrefix(base, extra, "messages");
    LookupPrefix(base, extra, "max_tokens");
    LookupPrefix(base, extra, "temperature");
    LookupAppend(base, extra, "system");
    if extra != [] {
      LookupAt(extra, 0);
      AppendNewKey(base, "system", systemPrompt);
    } else {
      assert base + extra == base;
    }
  }

  /** The one user message carries the prompt, verbatim. */
  lemma MessagesHoldPrompt(prompt: string)
    ensures var m := Messages(prompt);
      && m.Arr? && |m.items| == 1 && m.items[0].Obj?
      && Lookup(m.items[0].fields, "role") == Some(Str("user"))
      && Lookup(m.items[0].fields, "content") == Some(Str(prompt))
  {
    var fields := Messages(prompt).items[0].fields;
    assert fields[0].0 == "role" && fields[1].0 == "content";
  }

  /**
   `result["content"][0]["text"]`, then `len(text)` and
   `result.get("usage", {}).get(...)` in the log call: the generated text of a
   decoded reply, or the text of the exception Python raises. The texts for
   subscripting a value that is not a dict or list, and for `len` of a scalar,
   stand in for Python's type-specific wording.
   */
  function ReplyText(result: Value): (r: Result<string>)
    ensures r.Ok? ==> result.Obj? && Lookup(result.fields, "content").Some?
    ensures r.Ok? ==> var content := Lookup(result.fields, "content").value;
      content.Arr? && content.items != [] && content.items[0].Obj?
      && Lookup(content.items[0].fields, "text") == Some(Str(r.value))
    ensures r.Ok? ==> UsageReadable(result.fields)
    ensures result.Obj? && !UsageReadable(result.fields) ==> r.Err?
    ensures result.Obj? && UsageReadable(result.fields) && Lookup(result.fields, "content").Some?
      && Lookup(result.fields, "content").value.Arr? && Lookup(result.fields, "content").value.items != []
      && Lookup(result.fields, "content").value.items[0].Obj?
      && Lookup(Lookup(result.fields, "content").value.items[0].fields, "text").Some?
      && Lookup(Lookup(result.fields, "content").value.items[0].fields, "text").value.Str?
      ==> r == Ok(Lookup(Lookup(result.fields, "content").value.items[0].fields, "text").value.s)
  {
    if !result.Obj? then Err("object is not subscriptable")
    else
    var content: Option<Value> := Lookup(result.fields, "content");
    match content
    case None => Err("'content'")
    case Some(Arr(blocks)) =>
      if blocks == [] then Err("list index out of range")
      else if !blocks[0].Obj? then Err("object is not subscriptable")
      else
        var text: Option<Value> := Lookup(blocks[0].fields, "text");
        (match text
         case None => Err("'text'")
         case Some(t) =>
           if !(t.Str? || t.Arr? || t.Obj?) then Err("object has no len()")
           else if !UsageReadable(result.fields) then Err("object has no attribute 'get'")
           else if t.Str? then Ok(t.s)
           else Err("reply text is not a string"))
    case Some(_) => Err("object is not subscriptable")
  }

  /** `result.get("usage", {})` is a dict, so the log call's `.get` on it succeeds. */
  predicate UsageReadable(fields: seq<(string, Value)>) {
    Lookup(fields, "usage").None? || Lookup(fields, "usage").value.Obj?
  }

  /** `invoke_claude`: the model is an oracle from request body to decoded reply. */
  function InvokeClaude(prompt: string, systemPrompt: Value, maxTokens: int, temperature: Value, invoke: Value -> Result<Value>): (r: Result<string>)
    ensures invoke(RequestBody(prompt, systemPrompt, maxTokens, temperature)).Err? ==> r.Err?
  {
    match invoke(RequestBody(prompt, systemPrompt, maxTokens, temperature))
    case Err(e) => Err(e)
    case Ok(reply) => ReplyText(reply)
  }

  /** A reply whose first content block has text, and whose usage is absent or a dict, yields that text. */
  lemma ReplyTextOfContent(text: string, rest: seq<Value>, extra: seq<(string, Value)>)
    requires UsageReadable(extra)
    ensures ReplyText(Obj([("content", Arr([Obj([("type", Str("text")), ("text", Str(text))])] + rest))] + extra)) == Ok(text)
  {
    var block: seq<(string, Value)> := [("type", Str("text")), ("text", Str(text))];
    assert block[0].0 == "type" && block[1].0 == "text";
    LookupAt(block, 1);
    assert Lookup([("content", Arr([Obj(block)] + rest))] + extra, "usage") == Lookup(extra, "usage");
  }

  /* ---------------------------------------------------------------------- */
  /* Generation stubs                                                       */
  /* ---------------------------------------------------------------------- */

  /** The profile stub's fields; only the name depends on its input. */
  function ProfileFields(name: Value): seq<(string, Value)> {
    [ ("name", name),
      ("industry", Str("To be determined")),
      ("region", Str("Texas")),
      ("stage", Str("Unknown")),
      ("description", Str("Profile generation pending Phase 2 implementation.")),
      ("business_model", Obj([])),
      ("key_people", Arr([])),
      ("competitors", Arr([])),
      ("hypotheses", Arr([])),
      ("confidence_level", Str("Low — stub implementation")) ]
  }

  /**
   `generate_company_profile`: the stub profile named by the scraped data's
   `company_name`, or "Unknown". Scraped data that is not a dict fails on `.get`.
   */
  function GenerateProfile(scrapedData: Value): (r: Result<Value>)
    ensures r.Ok? <==> scrapedData.Obj?
    ensures r.Ok? ==> r.value.Obj? && |r.value.fields| == 10 && r.value.fields[0] == ("name", GetOr(scrapedData.fields, "company_name", Str("Unknown")))
  {
    if scrapedData.Obj? then Ok(Obj(ProfileFields(GetOr(scrapedData.fields, "company_name", Str("Unknown")))))
    else Err("object has no attribute 'get'")
  }

  /** The profile's name is the company name the scraped data carries, and "Unknown" when it carries none. */
  lemma ProfileName(scrapedData: seq<(string, Value)>)
    ensures var p := GenerateProfile(Obj(scrapedData));
      && p.Ok? && p.value.Obj?
      && Lookup(p.value.fields, "name") == Some(if Lookup(scrapedData, "company_name").Some? then Lookup(scrapedData, "company_name").value else Str("Unknown"))
  {
  }

  /** `generate_questions`: the stub generates no questions. */
  function GenerateQuestions(profile: Value, analysis: Value): (q: Value)
    ensures q == Arr([])
  {
    Arr([])
  }

  /** The brief's sections, in order. */
  const BRIEF_SECTIONS: seq<string> := ["executive_summary", "company_overview", "industry_context", "pre_call_hypotheses", "questions", "conversation_flow", "key_facts"]

  /** `generate_interviewer_brief`: the profile and questions, placed in fixed sections. */
  function GenerateBrief(profile: Value, questions: Value, analysis: Value): (brief: Value)
    ensures brief.Obj? && Keys(brief.fields) == BRIEF_SECTIONS
  {
    Obj([ ("executive_summary", Str("Brief generation pending Phase 2.")),
          ("company_overview", profile),
          ("industry_context", Str("")),
          ("pre_call_hypotheses", Arr([])),
          ("questions", questions),
          ("conversation_flow", Arr([])),
          ("key_facts", Arr([])) ])
  }

  /** The brief embeds the profile as `company_overview` and the questions as `questions`, verbatim. */
  lemma BriefEmbeds(profile: Value, questions: Value, analysis: Value)
    ensures var b := GenerateBrief(profile, questions, analysis);
      && Lookup(b.fields, "company_overview") == Some(profile)
      && Lookup(b.fields, "questions") == Some(questions)
  {
    var f := GenerateBrief(profile, questions, analysis).fields;
    assert f[0].0 == "executive_summary" && f[1].0 == "company_overview";
    assert f[2].0 == "industry_context" && f[3].0 == "pre_call_hypotheses";
    LookupAt(f, 4);
  }

  const INVITATION: string := "Please review the above and let us know what we got wrong."

  /** `generate_interviewee_packet`: the findings and the question menu, with the invitation to correct them. */
  function GeneratePacket(profile: Value, questions: Value): (packet: Value)
    ensures packet.Obj? && Keys(packet.fields) == ["ai_findings", "questions_menu", "invitation_text"]
  {
    Obj([("ai_findings", profile), ("questions_menu", questions), ("invitation_text", Str(INVITATION))])
  }

  /** The packet embeds the profile as `ai_findings` and the questions as `questions_menu`, verbatim. */
  lemma PacketEmbeds(profile: Value, questions: Value)
    ensures var p := GeneratePacket(profile, questions);
      && Lookup(p.fields, "ai_findings") == Some(profile)
      && Lookup(p.fields, "questions_menu") == Some(questions)
      && Lookup(p.fields, "invitation_text") == Some(Str(INVITATION))
  {
    var f := GeneratePacket(profile, questions).fields;
    assert f[0].0 == "ai_findings" && f[1].0 == "questions_menu" && f[2].0 == "invitation_text";
  }

  /** Brief and packet show the interviewer and the interviewee the same profile and the same questions. */
  lemma BriefAndPacketAgree(profile: Value, questions: Value, analysis: Value)
    ensures var b := GenerateBrief(profile, questions, analysis);
      var p := GeneratePacket(profile, questions);
      && Lookup(b.fields, "company_overview") == Lookup(p.fields, "ai_findings")
      && Lookup(b.fields, "questions") == Lookup(p.fields, "questions_menu")
  {
    BriefEmbeds(profile, questions, analysis);
    PacketEmbeds(profile, questions);
  }
}
