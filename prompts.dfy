/**
 * The three prompt builders of `src/utils/prompt_utils.py`: deterministic
 * string templates whose optional blocks appear exactly when an argument is
 * truthy. `json.dumps` and `str` are the host's; the business configuration
 * is a parameter. The fixed wording of each template is held in constants,
 * and the holes are filled in template order.
 */
module Prompts {
  import opened Wrappers
  import opened JsonModel
  import opened Text

  /** The fields of `BUSINESS_CONFIG` that the prompts quote. */
  datatype Business = Business(name: string, description: string, industry: string, location: string)

  /** One entry of `found_values`: what the extraction recorded for a field. */
  datatype FoundValue = FoundValue(value: Json, source: Json, confidence: Json, explanation: Json)

  // ---------------------------------------------------------------------------
  // create_consulting_prompt
  // ---------------------------------------------------------------------------

  /** The stages `create_consulting_prompt` has a template for. */
  predicate KnownStage(stage: string) {
    stage == "problem_definition" || stage == "data_collection" || stage == "analysis"
  }

  /** The similar cases rendered into the `<context>` block: `json.dumps` of a
      non-empty dict, and nothing for anything else. */
  function CasesContext(h: Host, cases: Json): (ctx: string)
    ensures !(cases.JObj? && cases.fields != []) ==> ctx == ""
  {
    if Truthy(cases) && cases.JObj? then h.dumps(cases) else ""
  }

  /** The fixed wording of `create_consulting_prompt`'s templates. */
  datatype ConsultingWording = ConsultingWording(
    contextOpening: string, contextClosingHead: string,
    problemIntro: string, problemOutro: string, dataOutro: string, analysisOutro: string)

  /** What the proofs need of the wording: the text after the similar cases
      starts with a line break. */
  predicate ConsultingWordingFacts(w: ConsultingWording) {
    w.contextClosingHead != [] && w.contextClosingHead[0] == '\n'
  }

  /** The wording of the source's templates. */
  const SourceConsultingWording: ConsultingWording :=
    ConsultingWording(ContextOpening, ContextClosingHead, ProblemIntro, ProblemOutro, DataOutro, AnalysisOutro)

  lemma SourceConsultingWordingFacts()
    ensures ConsultingWordingFacts(SourceConsultingWording)
  {
    assert SourceConsultingWording.contextClosingHead == ContextClosingHead;
    assert ContextClosingHead[0] == '\n';
  }

  const ContextOpening: string :=
    "You are an experienced MBB (McKinsey, Bain, BCG) consulting case coach. \n" +
    "    Your goal is to help analyze business problems using consulting frameworks and methodologies.\n" +
    "    \n" +
    "    Below is a list of similar cases that you can use as reference, " +
    "but do not come up with data values by yourself:\n" +
    "    <context>\n" +
    "    "

  const ContextClosingHead: string := "\n    </context>" + "\n\n    Context: You're advising "

  function ContextClosing(w: ConsultingWording, biz: Business): string {
    w.contextClosingHead + biz.name + ", " + biz.description +
    " in the " + biz.industry + " industry in " + biz.location + ".\n    "
  }

  /** The preamble every stage's prompt starts with. */
  function BasePrompt(w: ConsultingWording, biz: Business, ctx: string): string {
    w.contextOpening + ctx + ContextClosing(w, biz)
  }

  const ProblemIntro: string :=
    "\n\nAnalyze the following business challenge using consulting frameworks and methodologies. \n" +
    "Structure your response in markdown format with clear headers (using # or ##) for each major section.\n" +
    "\nBusiness Challenge: "

  const ProblemOutro: string :=
    "\n\nUse markdown formatting for clear structure, and feel free to add any other relevant sections."

  const DataOutro: string :=
    "\n\nList exactly what data points we need to collect from the client. " +
    "Format your response as a valid JSON object like this:\n" +
    "{\n" +
    "    \"market_size\": {\n" +
    "        \"description\": \"Total market size in USD millions\",\n" +
    "        \"type\": \"number\",\n" +
    "        \"required\": true\n" +
    "    },\n" +
    "    \"competitor_count\": {\n" +
    "        \"description\": \"Number of direct competitors in target market\",\n" +
    "        \"type\": \"number\",\n" +
    "        \"required\": true\n" +
    "    }\n" +
    "}\n" +
    "\nOnly return the JSON object, no other text. Ensure all JSON keys and values are properly quoted."

  const AnalysisOutro: string :=
    "\n\nProvide a detailed analysis and specific recommendations. " +
    "Structure your response in markdown format with clear headers (using # or ##) for each major section.\n"

  /** The stage-specific text that follows the preamble, `None` for an unknown stage. */
  function StageBody(w: ConsultingWording, biz: Business, query: string, stage: string): (b: Option<string>)
    ensures b.Some? <==> KnownStage(stage)
  {
    if stage == "problem_definition" then
      Some(w.problemIntro + query + w.problemOutro)
    else if stage == "data_collection" then
      Some("\n\nFor " + biz.name + "'s challenge: " + query + w.dataOutro)
    else if stage == "analysis" then
      Some("\n\nBased on the following data for " + biz.name + ":\n" + query + w.analysisOutro)
    else None
  }

  /** `create_consulting_prompt(query, similar_cases, stage)`; an unknown stage
      leaves `prompt` unbound, which Python reports as an error. */
  function ConsultingPrompt(w: ConsultingWording, h: Host, biz: Business, query: string, cases: Json, stage: string)
    : (r: Result<string, string>)
    ensures r.Ok? <==> KnownStage(stage)
    ensures r.Ok? ==> IsPrefix(BasePrompt(w, biz, CasesContext(h, cases)), r.value)
  {
    var base := BasePrompt(w, biz, CasesContext(h, cases));
    match StageBody(w, biz, query, stage)
    case Some(b) =>
      PrefixOfBuilt(base, b);
      Ok(base + b)
    case None => Err("prompt is unbound for stage " + stage)
  }

  /** Every stage's prompt quotes the query verbatim. */
  lemma ConsultingPromptQuotesQuery(w: ConsultingWording, h: Host, biz: Business, query: string, cases: Json,
                                    stage: string)
    requires KnownStage(stage)
    ensures Contains(ConsultingPrompt(w, h, biz, query, cases, stage).value, query)
  {
    var base := BasePrompt(w, biz, CasesContext(h, cases));
    if stage == "problem_definition" {
      ContainsBuilt(base, w.problemIntro, query, w.problemOutro);
    } else if stage == "data_collection" {
      ContainsBuilt(base, "\n\nFor " + biz.name + "'s challenge: ", query, w.dataOutro);
    } else {
      ContainsBuilt(base, "\n\nBased on the following data for " + biz.name + ":\n", query, w.analysisOutro);
    }
  }

  /** The `<context>` block of a prompt is empty exactly when the similar cases
      are not a non-empty dict. */
  lemma ConsultingContextEmptyIff(w: ConsultingWording, h: Host, biz: Business, query: string, cases: Json,
                                  stage: string)
    requires ConsultingWordingFacts(w) && DumpsObjectsBraced(h) && KnownStage(stage)
    ensures IsPrefix(w.contextOpening + ContextClosing(w, biz), ConsultingPrompt(w, h, biz, query, cases, stage).value)
            <==> !(cases.JObj? && cases.fields != [])
  {
    var ctx := CasesContext(h, cases);
    assert ContextClosing(w, biz)[0] == '\n';
    if cases.JObj? && cases.fields != [] {
      assert ctx == h.dumps(JObj(cases.fields));
    }
    EmptyHoleIff(w.contextOpening, ctx, ContextClosing(w, biz), StageBody(w, biz, query, stage).value);
  }

  // ---------------------------------------------------------------------------
  // create_refinement_prompt
  // ---------------------------------------------------------------------------

  /** The fixed wording of `create_refinement_prompt`'s template. */
  datatype RefinementWording = RefinementWording(intro: string, researchHeading: string, closing: string)

  /** What the proofs need of the wording: the research block's heading and the
      closing text differ at their eleventh character. */
  predicate RefinementWordingFacts(w: RefinementWording) {
    |w.researchHeading| > 10 && |w.closing| > 10 && w.researchHeading[10] != w.closing[10]
  }

  const SourceRefinementWording: RefinementWording :=
    RefinementWording(RefinementIntro, ResearchHeading, RefinementClosing)

  lemma SourceRefinementWordingFacts()
    ensures RefinementWordingFacts(SourceRefinementWording)
  {
    assert SourceRefinementWording.researchHeading == ResearchHeading;
    assert SourceRefinementWording.closing == RefinementClosing;
    assert ResearchHeading[10] == 'A';
    assert RefinementClosing[10] == 'P';
  }

  const RefinementIntro: string :=
    "You are an expert business consultant tasked with refining an analysis section.\n    \n" +
    "    Original section: "

  function RefinementBase(w: RefinementWording, title: string, content: string, feedback: string): string {
    w.intro + title + "\n    \n    Content:\n    " + content +
    "\n    \n    User feedback:\n    " + feedback + "\n    "
  }

  /** The line that opens the research-context block. */
  const ResearchHeading: string := "\n    \n    " + "Additional context from research:"

  function ResearchBody(dumped: string): string {
    "\n    <context>\n    " + dumped + "\n    </context>\n    "
  }

  const RefinementClosing: string :=
    "\n    \n    " + RevisionRequest

  /** The request to revise that follows the blank lines closing the prompt. */
  const RevisionRequest: string :=
    "Please" + " revise this section based on the user's feedback and available context.\n" +
    "    Maintain the same analytical structure but incorporate the user's suggestions and concerns\n\n" +
    "    If <context> is provided, incorporate also: Any relevant insights from the provided context " +
    "and specific data points and evidence to support the analysis\n\n" +
    "    Only return the revised content for this specific section. No need to reiterate the section title.\n    "

  /** `create_refinement_prompt(section_title, section_content, feedback, rag_context)`. */
  function RefinementPrompt(w: RefinementWording, h: Host, title: string, content: string, feedback: string,
                            rag: Json): (p: string)
    ensures IsPrefix(RefinementBase(w, title, content, feedback), p)
  {
    var base := RefinementBase(w, title, content, feedback);
    var block := if Truthy(rag) then w.researchHeading + ResearchBody(h.dumps(rag)) else "";
    PrefixExtends(base, block, w.closing);
    base + block + w.closing
  }

  /** The research block follows the section text exactly when the research
      context is truthy. */
  lemma RefinementResearchIff(w: RefinementWording, h: Host, title: string, content: string, feedback: string,
                              rag: Json)
    requires RefinementWordingFacts(w)
    ensures IsPrefix(RefinementBase(w, title, content, feedback) + w.researchHeading,
                     RefinementPrompt(w, h, title, content, feedback, rag))
            <==> Truthy(rag)
  {
    OptionalBlockIff(RefinementBase(w, title, content, feedback), w.researchHeading,
                     ResearchBody(h.dumps(rag)), Truthy(rag), w.closing, 10);
  }

  // ---------------------------------------------------------------------------
  // create_webpages_prompt
  // ---------------------------------------------------------------------------

  /** The fixed wording of `create_webpages_prompt`'s template. */
  datatype WebpagesWording = WebpagesWording(
    intro: string, previousHeading: string, feedbackHeading: string, feedbackTail: string,
    contextTag: string, tail: string)

  /** What the proofs need of the wording: the openings of the previous-analysis
      block, of the feedback block and of the context block differ pairwise at
      their sixth character. */
  predicate WebpagesWordingFacts(w: WebpagesWording) {
    |w.previousHeading| > 5 && |w.feedbackHeading| > 5 && |w.contextTag| > 5 &&
    w.previousHeading[5] != w.feedbackHeading[5] &&
    w.previousHeading[5] != w.contextTag[5] &&
    w.feedbackHeading[5] != w.contextTag[5]
  }

  const SourceWebpagesWording: WebpagesWording :=
    WebpagesWording(WebpagesIntro, PreviousHeading, FeedbackHeading, FeedbackTail, ContextTag, WebpagesTail)

  lemma SourceWebpagesWordingFacts()
    ensures WebpagesWordingFacts(SourceWebpagesWording)
  {
  }

  const WebpagesIntro: string :=
    "You are an expert business consultant. You are to estimate the value for the following data " +
    "using the context provided in the <context> tags. \n" +
    "    You are free to make estimations if the data does not give you an exact value. " +
    "Otherwise, stick to the data.\n" +
    "    \n    <field>\n" +
    "    Name: "

  function WebpagesBase(w: WebpagesWording, name: string, description: string, kind: string): string {
    w.intro + name + "\n    Description: " + description + "\n    Type: " + kind + "\n    </field>\n    "
  }

  /** The line that opens the previous-analysis block. */
  const PreviousHeading: string := "\n    Previous analysis:"

  /** The rest of the previous-analysis block; a recorded result always has all
      four keys, so the `'Not found'` and `'N/A'` defaults of the source never apply. */
  function PreviousBody(h: Host, prev: FoundValue): string {
    "\n    Value: " + h.format(prev.value) +
    "\n    Confidence: " + h.format(prev.confidence) +
    "\n    Source: " + h.format(prev.source) +
    "\n    Explanation: " + h.format(prev.explanation) + "\n    "
  }

  /** The line that opens the feedback block. */
  const FeedbackHeading: string := "\n    User feedback:"

  const FeedbackTail: string :=
    "\n    \n    Please revise your analysis based on the user's feedback and previous analysis " +
    "while still grounding your response in the provided context.\n    "

  const ContextTag: string := "\n    <context>          \n    "

  const WebpagesTail: string :=
    "\n    </context>\n    \n" +
    "    Return only a JSON object following this structure:\n" +
    "    {\n" +
    "        \"found\": true/false,\n" +
    "        \"value\": \"Extracted value or null if not found\",\n" +
    "        \"confidence\": \"HIGH/MEDIUM/LOW\",\n" +
    "        \"source\": \"Excerpt from the context that supports the argument\",\n" +
    "        \"explanation\": \"Your thought process and reasoning for deriving the value\"\n" +
    "    }\n    "

  /** Python's truthiness of an optional string argument. */
  predicate Given(s: Option<string>) {
    s.Some? && s.value != ""
  }

  /** The previous-analysis block, present when a previous result is given. */
  function PreviousPart(w: WebpagesWording, h: Host, prev: Option<FoundValue>): string {
    if prev.Some? then w.previousHeading + PreviousBody(h, prev.value) else ""
  }

  /** The rest of the feedback block: the comment and the request to revise. */
  function FeedbackBody(w: WebpagesWording, comment: string): string {
    "\n    " + comment + w.feedbackTail
  }

  /** The feedback block, present when a non-empty comment is given. */
  function FeedbackPart(w: WebpagesWording, comment: Option<string>): string {
    if Given(comment) then w.feedbackHeading + FeedbackBody(w, comment.value) else ""
  }

  /** The context block and the answer format that close every prompt. */
  function WebpagesClosing(w: WebpagesWording, dumped: string): string {
    w.contextTag + (dumped + w.tail)
  }

  /** The field block, for details that hold both a description and a type. */
  function FieldBlock(w: WebpagesWording, h: Host, name: string, details: Json): string
    requires Index(details, "description").Some? && Index(details, "type").Some?
  {
    WebpagesBase(w, name, h.format(Index(details, "description").value), h.format(Index(details, "type").value))
  }

  /** `create_webpages_prompt(field_name, field_details, context, user_comment,
      previous_response)`; reading `field_details['description']` or
      `field_details['type']` raises when the details are not a dict holding
      both keys. */
  function WebpagesPrompt(w: WebpagesWording, h: Host, name: string, details: Json, context: Json,
                          comment: Option<string>, prev: Option<FoundValue>): (r: Result<string, string>)
    ensures r.Ok? <==> Index(details, "description").Some? && Index(details, "type").Some?
    ensures r.Ok? ==> IsPrefix(FieldBlock(w, h, name, details), r.value)
  {
    match (Index(details, "description"), Index(details, "type"))
    case (Some(d), Some(t)) =>
      var base := WebpagesBase(w, name, h.format(d), h.format(t));
      var p := base + PreviousPart(w, h, prev);
      var r := p + FeedbackPart(w, comment) + WebpagesClosing(w, h.dumps(context));
      PrefixOfBuilt(base, PreviousPart(w, h, prev));
      PrefixExtends(p, FeedbackPart(w, comment), WebpagesClosing(w, h.dumps(context)));
      PrefixTrans(base, p, r);
      Ok(r)
    case _ => Err("KeyError reading the field details")
  }

  /** The previous-analysis block follows the field block exactly when a
      previous result is given. */
  lemma WebpagesPreviousIff(w: WebpagesWording, h: Host, name: string, details: Json, context: Json,
                            comment: Option<string>, prev: Option<FoundValue>)
    requires WebpagesWordingFacts(w)
    requires Index(details, "description").Some? && Index(details, "type").Some?
    ensures IsPrefix(FieldBlock(w, h, name, details) + w.previousHeading,
                     WebpagesPrompt(w, h, name, details, context, comment, prev).value)
            <==> prev.Some?
  {
    var fb := FeedbackPart(w, comment);
    var cl := WebpagesClosing(w, h.dumps(context));
    if Given(comment) {
      CharInFront(w.feedbackHeading, FeedbackBody(w, comment.value), 5);
      CharInFront(fb, cl, 5);
    } else {
      CharInFront(w.contextTag, h.dumps(context) + w.tail, 5);
    }
    var body := if prev.Some? then PreviousBody(h, prev.value) else "";
    OptionalBlockBeforeIff(FieldBlock(w, h, name, details), w.previousHeading, body, prev.Some?, fb, cl, 5);
  }

  /** The feedback block follows the previous analysis (or the field block when
      there is none) exactly when a non-empty comment is given. */
  lemma WebpagesFeedbackIff(w: WebpagesWording, h: Host, name: string, details: Json, context: Json,
                            comment: Option<string>, prev: Option<FoundValue>)
    requires WebpagesWordingFacts(w)
    requires Index(details, "description").Some? && Index(details, "type").Some?
    ensures IsPrefix(FieldBlock(w, h, name, details) + PreviousPart(w, h, prev) + w.feedbackHeading,
                     WebpagesPrompt(w, h, name, details, context, comment, prev).value)
            <==> Given(comment)
  {
    var body := if Given(comment) then FeedbackBody(w, comment.value) else "";
    CharInFront(w.contextTag, h.dumps(context) + w.tail, 5);
    OptionalBlockIff(FieldBlock(w, h, name, details) + PreviousPart(w, h, prev), w.feedbackHeading, body,
                     Given(comment), WebpagesClosing(w, h.dumps(context)), 5);
  }
}
