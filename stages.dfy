/**
 * The bookkeeping of `src/handlers/stage_handlers.py`, apart from its widgets:
 * the state the handlers keep in `st.session_state`, and what each button and
 * each first visit of a stage does to it. The stages run
 * welcome → problem_definition → data_collection → analysis, and two buttons
 * start over with a fresh session.
 *
 * The language model, the case and web-page searches, `json`, `float()` and
 * the fresh session ids are parameters; the text a user types is an argument
 * of the method for the button that reads it.
 */
module Stages {
  import opened Wrappers
  import opened JsonModel
  import opened Text
  import opened MarkdownSpec
  import opened Markdown
  import opened Prompts
  import opened Extraction
  import opened Session
  import Html = Render

  /** What the handlers call besides the state: the business, the wording of
      the three prompts, the services and primitives of the extraction, and
      `get_similar_cases`. */
  datatype Deps = Deps(
    biz: Business,
    consulting: ConsultingWording,
    refinement: RefinementWording,
    env: Env,
    similarCases: string -> Json)

  /** The stages a session goes through. */
  predicate IsStage(stage: string) {
    stage == "welcome" || KnownStage(stage)
  }

  /** How an f-string writes `current_problem`, which is `None` before the
      first stage sets it. */
  function ProblemText(problem: Option<string>): string {
    match problem
    case Some(p) => p
    case None => "None"
  }

  // ---------------------------------------------------------------------------
  // Required fields
  // ---------------------------------------------------------------------------

  /** Field `field` with `details` is required and its collected value is falsy. */
  predicate IsMissing(field: string, details: Json, collected: seq<(string, FormValue)>) {
    Index(details, "required").Some? && Truthy(Index(details, "required").value)
    && !FormTruthy(Get(collected, field, Plain(JNull)))
  }

  /** What the comprehension lists for one field: `None` where
      `details["required"]` raises, else the field when it is missing. */
  function Listed(field: string, details: Json, collected: seq<(string, FormValue)>): (r: Option<seq<string>>)
    ensures r.None? <==> Index(details, "required").None?
    ensures r.Some? ==> r.value == (if IsMissing(field, details, collected) then [field] else [])
  {
    match Index(details, "required")
    case None => None
    case Some(flag) => Some(if Truthy(flag) && !FormTruthy(Get(collected, field, Plain(JNull))) then [field] else [])
  }

  /** What a comprehension lists for one `(field, details)` pair, `None` where it raises. */
  type Check = (string, Json) -> Option<seq<string>>

  /** A list comprehension over `items`: what `check` lists for each pair, in
      order; `Err` at the first pair where it raises. */
  function ListFrom(check: Check, items: seq<(string, Json)>): Result<seq<string>, string>
    decreases |items|
  {
    if items == [] then Ok([])
    else
      match check(items[0].0, items[0].1)
      case None => Err("KeyError reading the required flag")
      case Some(head) =>
        match ListFrom(check, items[1..])
        case Err(e) => Err(e)
        case Ok(rest) => Ok(head + rest)
  }

  /** The `missing_fields` comprehension: the required fields with a falsy
      collected value, in the order of the required data; `Err` where
      `details["required"]` raises. */
  function MissingFields(required: seq<(string, Json)>, collected: seq<(string, FormValue)>): Result<seq<string>, string> {
    ListFrom((field, details) => Listed(field, details, collected), required)
  }

  /** A comprehension raises exactly when its check raises for some pair. */
  lemma {:induction false} ListFromRaises(check: Check, items: seq<(string, Json)>)
    ensures ListFrom(check, items).Err? <==> exists i :: 0 <= i < |items| && check(items[i].0, items[i].1).None?
    decreases |items|
  {
    if items != [] {
      ListFromRaises(check, items[1..]);
      if exists i :: 0 <= i < |items[1..]| && check(items[1..][i].0, items[1..][i].1).None? {
        var i :| 0 <= i < |items[1..]| && check(items[1..][i].0, items[1..][i].1).None?;
        assert items[i + 1] == items[1..][i];
      }
      if exists i :: 0 <= i < |items| && check(items[i].0, items[i].1).None? {
        var i :| 0 <= i < |items| && check(items[i].0, items[i].1).None?;
        if i > 0 { assert items[1..][i - 1] == items[i]; }
      }
    }
  }

  /** A comprehension lists exactly what its check lists for some pair. */
  lemma {:induction false} ListFromExactly(check: Check, items: seq<(string, Json)>, f: string)
    requires ListFrom(check, items).Ok?
    ensures f in ListFrom(check, items).value <==>
              exists i :: 0 <= i < |items| && check(items[i].0, items[i].1).Some? && f in check(items[i].0, items[i].1).value
    decreases |items|
  {
    if items != [] {
      ListFromExactly(check, items[1..], f);
      var head := check(items[0].0, items[0].1).value;
      var rest := ListFrom(check, items[1..]).value;
      assert ListFrom(check, items).value == head + rest;
      if exists i :: 0 <= i < |items[1..]| && check(items[1..][i].0, items[1..][i].1).Some?
                     && f in check(items[1..][i].0, items[1..][i].1).value {
        var i :| 0 <= i < |items[1..]| && check(items[1..][i].0, items[1..][i].1).Some?
                 && f in check(items[1..][i].0, items[1..][i].1).value;
        assert items[i + 1] == items[1..][i];
      }
      if exists i :: 0 <= i < |items| && check(items[i].0, items[i].1).Some? && f in check(items[i].0, items[i].1).value {
        var i :| 0 <= i < |items| && check(items[i].0, items[i].1).Some? && f in check(items[i].0, items[i].1).value;
        if i > 0 { assert items[1..][i - 1] == items[i]; }
      }
    }
  }

  /** A comprehension over two runs of pairs lists what it lists for the first
      run, then what it lists for the second. */
  lemma {:induction false} ListFromAppend(check: Check, a: seq<(string, Json)>, b: seq<(string, Json)>)
    requires ListFrom(check, a).Ok? && ListFrom(check, b).Ok?
    ensures ListFrom(check, a + b) == Ok(ListFrom(check, a).value + ListFrom(check, b).value)
    decreases |a|
  {
    if a == [] {
      assert a + b == b;
      assert ListFrom(check, a).value + ListFrom(check, b).value == ListFrom(check, b).value;
    } else {
      assert (a + b)[0] == a[0] && (a + b)[1..] == a[1..] + b;
      ListFromAppend(check, a[1..], b);
      var head := check(a[0].0, a[0].1).value;
      assert head + (ListFrom(check, a[1..]).value + ListFrom(check, b).value)
          == (head + ListFrom(check, a[1..]).value) + ListFrom(check, b).value;
    }
  }

  /** The check raises exactly when some details lack the `required` key. */
  lemma MissingFieldsRaises(required: seq<(string, Json)>, collected: seq<(string, FormValue)>)
    ensures MissingFields(required, collected).Err? <==>
              exists i :: 0 <= i < |required| && Index(required[i].1, "required").None?
  {
    ListFromRaises((field, details) => Listed(field, details, collected), required);
  }

  /** A field is listed exactly when it is one of the required data's fields
      that is required and whose collected value is falsy; fields that are not
      required are never listed. */
  lemma MissingFieldsExactly(required: seq<(string, Json)>, collected: seq<(string, FormValue)>, f: string)
    requires MissingFields(required, collected).Ok?
    ensures f in MissingFields(required, collected).value <==>
              exists i :: 0 <= i < |required| && required[i].0 == f && IsMissing(f, required[i].1, collected)
  {
    var check: Check := (field, details) => Listed(field, details, collected);
    ListFromExactly(check, required, f);
    forall i | 0 <= i < |required|
      ensures (check(required[i].0, required[i].1).Some? && f in check(required[i].0, required[i].1).value)
              <==> (required[i].0 == f && IsMissing(f, required[i].1, collected))
    {
      ListedHas(required[i].0, required[i].1, collected, f);
    }
  }

  /** The data-collection form renders to its end: the required data is a
      dict, and every field's details hold the description and the `required`
      flag its heading reads outside the `try`. Otherwise the handler raises
      before "Submit Data" and the refinement are reached. */
  predicate FormRenders(required: Json) {
    required.JObj? &&
    forall i :: 0 <= i < |required.fields| ==>
      Index(required.fields[i].1, "description").Some? && Index(required.fields[i].1, "required").Some?
  }

  /** Once the form renders, the check of the required fields never raises. */
  lemma RenderedFormChecks(required: Json, collected: seq<(string, FormValue)>)
    requires FormRenders(required)
    ensures MissingFields(required.fields, collected).Ok?
  {
    MissingFieldsRaises(required.fields, collected);
  }

  /** One field is listed exactly when it is `f` and missing. */
  lemma ListedHas(field: string, details: Json, collected: seq<(string, FormValue)>, f: string)
    ensures (Listed(field, details, collected).Some? && f in Listed(field, details, collected).value)
            <==> (field == f && IsMissing(f, details, collected))
  {
  }

  /** The check of the first fields followed by the check of the others: fields
      are listed in the order of the required data. */
  lemma MissingFieldsAppend(a: seq<(string, Json)>, b: seq<(string, Json)>, collected: seq<(string, FormValue)>)
    requires MissingFields(a, collected).Ok? && MissingFields(b, collected).Ok?
    ensures MissingFields(a + b, collected) ==
              Ok(MissingFields(a, collected).value + MissingFields(b, collected).value)
  {
    ListFromAppend((field, details) => Listed(field, details, collected), a, b);
  }

  // ---------------------------------------------------------------------------
  // Problem statements
  // ---------------------------------------------------------------------------

  /** The problem statement "Continue Research" builds from a task. */
  function ContinueQuery(title: string, description: string, query: string): string {
    title + ": " + description + "\nQuery: " + query
  }

  /** The problem statement of a task with one-line fields shows the task's
      title and description as its title and the task's query as its query. */
  lemma ContinueQueryParts(title: string, description: string, query: string)
    requires Lacks(title + ": " + description, '\n') && Lacks(query, '\n')
    ensures Html.QueryParts(ContinueQuery(title, description, query)) == (Strip(title + ": " + description), Strip(query))
  {
    var pre := title + ": " + description;
    assert "\nQuery: " == Html.QueryMarker + " ";
    assert ContinueQuery(title, description, query) == pre + Html.QueryMarker + (" " + query);
    assert Lacks(" " + query, '\n') by {
      forall i | 0 <= i < |" " + query| ensures (" " + query)[i] != '\n' {
        if i > 0 { assert (" " + query)[i] == query[i - 1]; }
      }
    }
    Html.QueryPartsOneMarker(pre, " " + query);
    StripSpaceFront(query);
  }

  /** The challenge the analysis prompt is built on: the problem and the
      collected data as JSON; `None` where `json.dumps` raises on a date. */
  function AnalysisQuery(h: Host, problem: Option<string>, collected: Option<seq<(string, FormValue)>>): (r: Option<string>)
    ensures r.None? <==> collected.Some? && !Writable(collected.value)
    ensures r.Some? ==> IsPrefix("Challenge: " + ProblemText(problem), r.value)
  {
    var data := match collected case Some(c) => CollectedJson(c) case None => Some(JNull);
    match data
    case None => None
    case Some(j) => Some(ChallengeText(h, problem, j))
  }

  /** The text of the challenge, given the collected data as JSON. */
  function ChallengeText(h: Host, problem: Option<string>, data: Json): string {
    "Challenge: " + ProblemText(problem) + "\n            Collected Data: " + h.dumps(data)
  }

  /** Collected data with each date written as its ISO text, which is what
      `json.dumps(..., default=str)` writes. */
  function DatesAsText(c: seq<(string, FormValue)>): (r: seq<(string, Json)>)
    ensures |r| == |c|
    ensures forall i :: 0 <= i < |c| ==> r[i].0 == c[i].0
    ensures forall i :: 0 <= i < |c| ==> r[i].1 == match c[i].1 case Plain(j) => j case Date(iso) => JStr(iso)
  {
    seq(|c|, i requires 0 <= i < |c| => (c[i].0, match c[i].1 case Plain(j) => j case Date(iso) => JStr(iso)))
  }

  /** The challenge with dates written as text: defined for all collected
      data, and the same as `AnalysisQuery` wherever that one is. */
  function AnalysisQueryDatesAsText(h: Host, problem: Option<string>, collected: Option<seq<(string, FormValue)>>): (r: string)
    ensures AnalysisQuery(h, problem, collected).Some? ==> AnalysisQuery(h, problem, collected) == Some(r)
  {
    match collected
    case None => ChallengeText(h, problem, JNull)
    case Some(c) =>
      assert Writable(c) ==> CollectedJson(c) == Some(JObj(DatesAsText(c))) by {
        if Writable(c) {
          assert CollectedJson(c).value.fields == DatesAsText(c);
        }
      }
      ChallengeText(h, problem, JObj(DatesAsText(c)))
  }

  /** The sections the model's answer to the problem-definition prompt splits
      into; no answer gives no sections. */
  function FrameworkFor(d: Deps, problem: Option<string>, cases: Json): seq<Section> {
    var prompt := ConsultingPrompt(d.consulting, d.env.host, d.biz, ProblemText(problem), cases, "problem_definition");
    match d.env.services.complete(prompt.value)
    case None => []
    case Some(response) => Parse(response, true)
  }

  // ---------------------------------------------------------------------------
  // The state of the app
  // ---------------------------------------------------------------------------

  /** `found_values.get(field)`: the value found so far for a field, if any. */
  function Previous(found: map<string, FoundValue>, field: string): (r: Option<FoundValue>)
    ensures r.Some? <==> field in found
    ensures r.Some? ==> r.value == found[field]
  {
    if field in found then Some(found[field]) else None
  }

  /** A session just started at the problem definition of `problem` with the
      cases `cases`: every other field holds its dataclass default. */
  predicate StartsOn(s: ConsultingSession, problem: string, cases: Json, id: string)
    reads s
  {
    && s.stage == "problem_definition" && s.currentProblem == Some(problem) && s.similarCases == cases
    && s.frameworkSections.None? && s.requiredData == JNull && s.collectedData.None?
    && s.regeneratedSections == map[] && s.sessionId == id && !s.agreedFramework
  }

  /** `st.session_state`: the consulting session and the keys the handlers
      add. `regenerated_section_{i}` and `regenerated_analysis_{i}` are kept by
      section index; a key the state lacks is `None`, as is
      `field_to_refine` set to `None`. */
  class App {
    var session: ConsultingSession
    /** `framework_sections`. */
    var frameworkSections: Option<seq<Section>>
    /** `regenerated_section_{i}`. */
    var sectionEdits: map<nat, string>
    /** `found_values`. */
    var foundValues: Option<map<string, FoundValue>>
    /** `field_to_refine`: a field and the comment to refine it with. */
    var fieldToRefine: Option<(string, string)>
    /** `analysis_response`. */
    var analysisResponse: Option<string>
    /** `analysis_complete`. */
    var analysisComplete: bool
    /** `regenerated_analysis_{i}`. */
    var analysisEdits: map<nat, string>

    /** Every session is at a known stage, has a problem once past the welcome
        screen, and has collected data once at the analysis. */
    predicate Valid()
      reads this, session
    {
      && IsStage(session.stage)
      && (session.stage != "welcome" ==> session.currentProblem.Some?)
      && (session.stage == "analysis" ==> session.collectedData.Some?)
    }

    /** The first run of the app: a fresh session and nothing else. */
    constructor (freshId: string)
      ensures Valid() && fresh(session)
      ensures session.stage == "welcome" && session.sessionId == freshId
      ensures frameworkSections.None? && sectionEdits == map[] && foundValues.None? && fieldToRefine.None?
      ensures analysisResponse.None? && !analysisComplete && analysisEdits == map[]
    {
      session := new ConsultingSession.Fresh(freshId);
      frameworkSections := None;
      sectionEdits := map[];
      foundValues := None;
      fieldToRefine := None;
      analysisResponse := None;
      analysisComplete := false;
      analysisEdits := map[];
    }

    // -------------------------------------------------------------------------
    // Welcome screen
    // -------------------------------------------------------------------------

    /** A fresh session at the problem definition of `problem`. */
    method Begin(d: Deps, problem: string, freshId: string)
      modifies this
      ensures fresh(session) && StartsOn(session, problem, d.similarCases(problem), freshId) && Valid()
      ensures frameworkSections == old(frameworkSections) && sectionEdits == old(sectionEdits)
      ensures foundValues == old(foundValues) && fieldToRefine == old(fieldToRefine)
      ensures analysisResponse == old(analysisResponse) && analysisComplete == old(analysisComplete)
      ensures analysisEdits == old(analysisEdits)
    {
      var cases := d.similarCases(problem);
      session := new ConsultingSession.Fresh(freshId);
      session.stage := "problem_definition";
      session.currentProblem := Some(problem);
      session.similarCases := cases;
    }

    /** "Continue Research" under the card of a task. */
    method ContinueResearch(d: Deps, title: string, description: string, query: string, freshId: string)
      modifies this
      ensures fresh(session) && Valid()
      ensures var q := ContinueQuery(title, description, query);
              StartsOn(session, q, d.similarCases(q), freshId)
      ensures frameworkSections == old(frameworkSections) && sectionEdits == old(sectionEdits)
      ensures foundValues == old(foundValues) && fieldToRefine == old(fieldToRefine)
      ensures analysisResponse == old(analysisResponse) && analysisComplete == old(analysisComplete)
      ensures analysisEdits == old(analysisEdits)
    {
      Begin(d, ContinueQuery(title, description, query), freshId);
    }

    /** "Start Analysis" with the custom challenge: only a non-empty challenge
        starts a consultation. */
    method StartAnalysis(d: Deps, challenge: string, freshId: string) returns (started: bool)
      requires Valid() && session.stage == "welcome"
      modifies this
      ensures Valid()
      ensures started <==> challenge != ""
      ensures started ==> fresh(session) && StartsOn(session, challenge, d.similarCases(challenge), freshId)
      ensures !started ==> session == old(session)
      ensures frameworkSections == old(frameworkSections) && foundValues == old(foundValues)
      ensures sectionEdits == old(sectionEdits) && fieldToRefine == old(fieldToRefine)
      ensures analysisResponse == old(analysisResponse) && analysisComplete == old(analysisComplete)
      ensures analysisEdits == old(analysisEdits)
    {
      started := challenge != "";
      if started {
        Begin(d, challenge, freshId);
      }
    }

    // -------------------------------------------------------------------------
    // Problem definition
    // -------------------------------------------------------------------------

    /** The first visit of the problem definition: without `framework_sections`
        in the state, the model's framework for the problem is parsed into it. */
    method EnsureFramework(d: Deps)
      requires Valid() && session.stage == "problem_definition"
      modifies this
      ensures Valid() && session == old(session)
      ensures old(frameworkSections).Some? ==> frameworkSections == old(frameworkSections)
      ensures old(frameworkSections).None? ==>
                frameworkSections == Some(FrameworkFor(d, session.currentProblem, session.similarCases))
      ensures sectionEdits == old(sectionEdits) && foundValues == old(foundValues)
      ensures fieldToRefine == old(fieldToRefine) && analysisEdits == old(analysisEdits)
      ensures analysisResponse == old(analysisResponse) && analysisComplete == old(analysisComplete)
    {
      if frameworkSections.None? {
        var prompt := ConsultingPrompt(d.consulting, d.env.host, d.biz, ProblemText(session.currentProblem),
                                       session.similarCases, "problem_definition");
        var response := d.env.services.complete(prompt.value);
        var sections: seq<Section> := [];
        if response.Some? {
          sections := ParseMarkdownSections(response.value, true);
        }
        frameworkSections := Some(sections);
      }
    }

    /** "Improve Section" under section `i` of the framework: the model rewrites
        the section's original text after `comment`, and a non-empty answer
        becomes `regenerated_section_{i}`. */
    method ImproveSection(d: Deps, i: nat, comment: string)
      requires Valid() && session.stage == "problem_definition"
      requires frameworkSections.Some? && i < |frameworkSections.value|
      modifies this
      ensures session == old(session) && frameworkSections == old(frameworkSections) && Valid()
      ensures var s := frameworkSections.value[i];
              var answer := d.env.services.complete(RefinementPrompt(d.refinement, d.env.host, s.title, s.content,
                                                                     comment, JNull));
              sectionEdits == if answer.Some? && answer.value != "" then old(sectionEdits)[i := answer.value]
                              else old(sectionEdits)
      ensures foundValues == old(foundValues) && fieldToRefine == old(fieldToRefine)
      ensures analysisResponse == old(analysisResponse) && analysisComplete == old(analysisComplete)
      ensures analysisEdits == old(analysisEdits)
    {
      var section := frameworkSections.value[i];
      var prompt := RefinementPrompt(d.refinement, d.env.host, section.title, section.content, comment, JNull);
      var regenerated := d.env.services.complete(prompt);
      if regenerated.Some? && regenerated.value != "" {
        sectionEdits := sectionEdits[i := regenerated.value];
      }
    }

    /** "Proceed to Data Collection": the framework with every regenerated
        section in place of its original becomes the session's agreed framework.
        The button is shown only while the framework has a section. */
    method ProceedToDataCollection()
      requires Valid() && session.stage == "problem_definition"
      requires frameworkSections.Some? && frameworkSections.value != []
      modifies this, session
      ensures session == old(session) && frameworkSections == old(frameworkSections) && sectionEdits == old(sectionEdits)
      ensures Valid() && session.stage == "data_collection"
      ensures session.agreedFramework
      ensures session.frameworkSections.Some?
      ensures var final := session.frameworkSections.value;
              && |final| == |frameworkSections.value|
              && forall k :: 0 <= k < |final| ==>
                   final[k].title == frameworkSections.value[k].title
                   && final[k].content == (if k in sectionEdits then sectionEdits[k] else frameworkSections.value[k].content)
      ensures session.currentProblem == old(session.currentProblem) && session.similarCases == old(session.similarCases)
      ensures session.requiredData == old(session.requiredData) && session.collectedData == old(session.collectedData)
      ensures session.regeneratedSections == old(session.regeneratedSections)
      ensures session.sessionId == old(session.sessionId)
      ensures foundValues == old(foundValues) && fieldToRefine == old(fieldToRefine)
      ensures analysisResponse == old(analysisResponse) && analysisComplete == old(analysisComplete)
      ensures analysisEdits == old(analysisEdits)
    {
      var final := FinalSections(frameworkSections.value, sectionEdits);
      session.agreedFramework := true;
      session.frameworkSections := Some(final);
      session.stage := "data_collection";
    }

    /** "Start Over": every `regenerated_section_` and `framework_` key is
        dropped and a fresh session starts at the welcome screen. The button is
        shown only while the framework has a section. */
    method StartOver(freshId: string)
      requires session.stage == "problem_definition"
      requires frameworkSections.Some? && frameworkSections.value != []
      modifies this
      ensures Valid() && fresh(session) && session.IsFresh(freshId)
      ensures frameworkSections.None? && sectionEdits == map[]
      ensures foundValues == old(foundValues) && fieldToRefine == old(fieldToRefine)
      ensures analysisResponse == old(analysisResponse) && analysisComplete == old(analysisComplete)
      ensures analysisEdits == old(analysisEdits)
    {
      sectionEdits := map[];
      frameworkSections := None;
      session := new ConsultingSession.Fresh(freshId);
    }

    // -------------------------------------------------------------------------
    // Data collection
    // -------------------------------------------------------------------------

    /** The first visit of data collection: while the required data is falsy,
        the model's answer is cleaned and decoded into it. `false` where the
        handler stops with an error: no answer, or an answer that does not decode. */
    method EnsureRequiredData(d: Deps) returns (ok: bool)
      requires Valid() && session.stage == "data_collection"
      modifies session
      ensures Valid()
      ensures Truthy(old(session.requiredData)) ==> ok && session.requiredData == old(session.requiredData)
      ensures !Truthy(old(session.requiredData)) ==>
                var prompt := ConsultingPrompt(d.consulting, d.env.host, d.biz, ProblemText(session.currentProblem),
                                               session.similarCases, "data_collection").value;
                var answer := d.env.services.complete(prompt);
                && (ok <==> answer.Some? && d.env.host.loads(CleanResponse(answer.value)).Some?)
                && session.requiredData == (if ok then d.env.host.loads(CleanResponse(answer.value)).value
                                            else old(session.requiredData))
      ensures session.stage == old(session.stage) && session.currentProblem == old(session.currentProblem)
      ensures session.similarCases == old(session.similarCases)
      ensures session.frameworkSections == old(session.frameworkSections)
      ensures session.collectedData == old(session.collectedData)
      ensures session.regeneratedSections == old(session.regeneratedSections)
      ensures session.sessionId == old(session.sessionId) && session.agreedFramework == old(session.agreedFramework)
    {
      ok := true;
      if !Truthy(session.requiredData) {
        var prompt := ConsultingPrompt(d.consulting, d.env.host, d.biz, ProblemText(session.currentProblem),
                                       session.similarCases, "data_collection");
        var response := d.env.services.complete(prompt.value);
        if response.None? {
          ok := false;
        } else {
          var decoded := d.env.host.loads(CleanResponse(response.value));
          if decoded.None? {
            ok := false;
          } else {
            session.requiredData := decoded.value;
          }
        }
      }
    }

    /** The first visit of the form: without `found_values` in the state, the
        extraction loop fills it. Where the loop raises, the values found
        until then stay in the state. */
    method EnsureFoundValues(d: Deps) returns (raised: bool)
      requires Valid() && session.stage == "data_collection"
      modifies this
      ensures Valid() && session == old(session)
      ensures old(foundValues).Some? ==> !raised && foundValues == old(foundValues)
      ensures old(foundValues).None? ==>
                foundValues == Some(Extract(d.env, session.requiredData).0)
                && raised == Extract(d.env, session.requiredData).1
      ensures frameworkSections == old(frameworkSections) && sectionEdits == old(sectionEdits)
      ensures fieldToRefine == old(fieldToRefine) && analysisEdits == old(analysisEdits)
      ensures analysisResponse == old(analysisResponse) && analysisComplete == old(analysisComplete)
    {
      raised := false;
      if foundValues.None? {
        var found;
        found, raised := ExtractFoundValues(d.env, session.requiredData);
        foundValues := Some(found);
      }
    }

    /** "Submit Data" with the values of the form: with no required field
        missing, the values are stored and the session moves to the analysis;
        otherwise the missing fields are reported and nothing changes. `Err`
        where the form raises before the button, and nothing changes. */
    method SubmitData(collected: seq<(string, FormValue)>) returns (outcome: Result<seq<string>, string>)
      requires Valid() && session.stage == "data_collection"
      modifies session
      ensures Valid()
      ensures FormRenders(session.requiredData) ==> outcome == MissingFields(session.requiredData.fields, collected)
      ensures FormRenders(session.requiredData) ==> outcome.Ok?
      ensures !FormRenders(session.requiredData) ==> outcome.Err?
      ensures outcome == Ok([]) ==> session.stage == "analysis" && session.collectedData == Some(collected)
      ensures outcome != Ok([]) ==> session.stage == old(session.stage) && session.collectedData == old(session.collectedData)
      ensures session.currentProblem == old(session.currentProblem) && session.similarCases == old(session.similarCases)
      ensures session.frameworkSections == old(session.frameworkSections)
      ensures session.requiredData == old(session.requiredData)
      ensures session.regeneratedSections == old(session.regeneratedSections)
      ensures session.sessionId == old(session.sessionId) && session.agreedFramework == old(session.agreedFramework)
    {
      if !FormRenders(session.requiredData) {
        return Err("the form raised before Submit Data");
      }
      outcome := MissingFields(session.requiredData.fields, collected);
      RenderedFormChecks(session.requiredData, collected);
      if outcome == Ok([]) {
        session.collectedData := Some(collected);
        session.stage := "analysis";
      }
    }

    /** "Refine {field}" in the form: the field and the comment are stored. */
    method RequestRefinement(field: string, comment: string)
      modifies this
      ensures fieldToRefine == Some((field, comment))
      ensures session == old(session) && frameworkSections == old(frameworkSections)
      ensures sectionEdits == old(sectionEdits) && foundValues == old(foundValues)
      ensures analysisResponse == old(analysisResponse) && analysisComplete == old(analysisComplete)
      ensures analysisEdits == old(analysisEdits)
    {
      fieldToRefine := Some((field, comment));
    }

    /** What a refinement does to the state: an error leaves everything as it
        was; otherwise the refinement is over, and a new value replaces the
        field's entry. */
    method ApplyRefinement(outcome: Result<Option<FoundValue>, string>)
      requires foundValues.Some? && fieldToRefine.Some?
      modifies this
      ensures session == old(session)
      ensures frameworkSections == old(frameworkSections) && sectionEdits == old(sectionEdits)
      ensures analysisResponse == old(analysisResponse) && analysisComplete == old(analysisComplete)
      ensures analysisEdits == old(analysisEdits)
      ensures match outcome
              case Err(_) => fieldToRefine == old(fieldToRefine) && foundValues == old(foundValues)
              case Ok(None) => fieldToRefine.None? && foundValues == old(foundValues)
              case Ok(Some(v)) =>
                fieldToRefine.None? && foundValues == Some(old(foundValues).value[old(fieldToRefine).value.0 := v])
    {
      if outcome.Ok? {
        if outcome.value.Some? {
          foundValues := Some(foundValues.value[fieldToRefine.value.0 := outcome.value.value]);
        }
        fieldToRefine := None;
      }
    }

    /** The refinement the form runs while a field is stored: a decoded answer
        overwrites the field's entry, and the stored field is cleared. `Err`
        where the handler raises before clearing it: the form raises before
        reaching the refinement, `found_values` is missing, or `RefineOutcome`
        raises. */
    method RefineField(d: Deps) returns (outcome: Result<Option<FoundValue>, string>)
      requires Valid() && session.stage == "data_collection" && fieldToRefine.Some?
      modifies this
      ensures session == old(session) && Valid()
      ensures frameworkSections == old(frameworkSections) && sectionEdits == old(sectionEdits)
      ensures analysisResponse == old(analysisResponse) && analysisComplete == old(analysisComplete)
      ensures analysisEdits == old(analysisEdits)
      ensures !FormRenders(session.requiredData) || old(foundValues).None? ==> outcome.Err?
      ensures FormRenders(session.requiredData) && old(foundValues).Some? ==>
                outcome == RefineOutcome(d.env, old(fieldToRefine).value.0, session.requiredData,
                                         old(fieldToRefine).value.1, Previous(old(foundValues).value, old(fieldToRefine).value.0))
      ensures match outcome
              case Err(_) => fieldToRefine == old(fieldToRefine) && foundValues == old(foundValues)
              case Ok(None) => fieldToRefine.None? && foundValues == old(foundValues)
              case Ok(Some(v)) =>
                fieldToRefine.None? && foundValues == Some(old(foundValues).value[old(fieldToRefine).value.0 := v])
    {
      if !FormRenders(session.requiredData) {
        return Err("the form raised before the refinement");
      }
      if foundValues.None? {
        return Err("found_values is not in the session state");
      }
      var (field, comment) := fieldToRefine.value;
      outcome := RefineOutcome(d.env, field, session.requiredData, comment, Previous(foundValues.value, field));
      ApplyRefinement(outcome);
    }

    // -------------------------------------------------------------------------
    // Analysis
    // -------------------------------------------------------------------------

    /** The handler gets past the analysis prompt to the sections and the
        buttons: the analysis is complete, or the collected data can be written. */
    predicate AnalysisShown()
      reads this, session
    {
      analysisComplete || session.collectedData.None? || Writable(session.collectedData.value)
    }

    /** A visit of the analysis: until an analysis is complete, the prompt is
        built from the collected data, which raises on a date; while no answer
        is stored, the model's non-empty answer is stored and marks the
        analysis complete. */
    method EnsureAnalysis(d: Deps) returns (raised: bool)
      requires Valid() && session.stage == "analysis"
      modifies this
      ensures Valid() && session == old(session)
      ensures raised <==> !old(AnalysisShown())
      ensures raised || old(analysisComplete) || (old(analysisResponse).Some? && old(analysisResponse).value != "") ==>
                analysisResponse == old(analysisResponse) && analysisComplete == old(analysisComplete)
      ensures !raised && !old(analysisComplete) && (old(analysisResponse).None? || old(analysisResponse).value == "") ==>
                var query := AnalysisQuery(d.env.host, session.currentProblem, session.collectedData).value;
                var prompt := ConsultingPrompt(d.consulting, d.env.host, d.biz, query, session.similarCases, "analysis");
                var answer := d.env.services.complete(prompt.value);
                if answer.Some? && answer.value != "" then analysisResponse == answer && analysisComplete
                else analysisResponse == old(analysisResponse) && !analysisComplete
      ensures frameworkSections == old(frameworkSections) && sectionEdits == old(sectionEdits)
      ensures foundValues == old(foundValues) && fieldToRefine == old(fieldToRefine)
      ensures analysisEdits == old(analysisEdits)
    {
      raised := false;
      if !analysisComplete {
        var query := AnalysisQuery(d.env.host, session.currentProblem, session.collectedData);
        if query.None? {
          return true;
        }
        var prompt := ConsultingPrompt(d.consulting, d.env.host, d.biz, query.value, session.similarCases, "analysis");
        if analysisResponse.None? || analysisResponse.value == "" {
          var response := d.env.services.complete(prompt.value);
          if response.Some? && response.value != "" {
            analysisResponse := response;
            analysisComplete := true;
          }
        }
      }
    }

    /** A visit of the analysis with dates written as text: the prompt is
        always built, so a non-empty answer completes the analysis. */
    method EnsureAnalysisDatesAsText(d: Deps)
      requires Valid() && session.stage == "analysis"
      modifies this
      ensures Valid() && session == old(session)
      ensures old(analysisComplete) || (old(analysisResponse).Some? && old(analysisResponse).value != "") ==>
                analysisResponse == old(analysisResponse) && analysisComplete == old(analysisComplete)
      ensures !old(analysisComplete) && (old(analysisResponse).None? || old(analysisResponse).value == "") ==>
                var query := AnalysisQueryDatesAsText(d.env.host, session.currentProblem, session.collectedData);
                var prompt := ConsultingPrompt(d.consulting, d.env.host, d.biz, query, session.similarCases, "analysis");
                var answer := d.env.services.complete(prompt.value);
                if answer.Some? && answer.value != "" then analysisResponse == answer && analysisComplete
                else analysisResponse == old(analysisResponse) && !analysisComplete
      ensures frameworkSections == old(frameworkSections) && sectionEdits == old(sectionEdits)
      ensures foundValues == old(foundValues) && fieldToRefine == old(fieldToRefine)
      ensures analysisEdits == old(analysisEdits)
    {
      if !analysisComplete {
        var query := AnalysisQueryDatesAsText(d.env.host, session.currentProblem, session.collectedData);
        var prompt := ConsultingPrompt(d.consulting, d.env.host, d.biz, query, session.similarCases, "analysis");
        if analysisResponse.None? || analysisResponse.value == "" {
          var response := d.env.services.complete(prompt.value);
          if response.Some? && response.value != "" {
            analysisResponse := response;
            analysisComplete := true;
          }
        }
      }
    }

    /** "Improve Section" under section `i` of the analysis: with web-page
        results for the section's text, the model rewrites it after `comment`
        and the results, and a non-empty answer becomes `regenerated_analysis_{i}`. */
    method ImproveAnalysisSection(d: Deps, i: nat, comment: string)
      requires Valid() && session.stage == "analysis" && AnalysisShown()
      requires analysisResponse.Some? && i < |Parse(analysisResponse.value, true)|
      modifies this
      ensures session == old(session) && Valid()
      ensures analysisResponse == old(analysisResponse) && analysisComplete == old(analysisComplete)
      ensures var s := Parse(analysisResponse.value, true)[i];
              var results := d.env.services.search(s.content);
              var answer := d.env.services.complete(RefinementPrompt(d.refinement, d.env.host, s.title, s.content,
                                                                     comment, results));
              analysisEdits == if Truthy(results) && answer.Some? && answer.value != ""
                               then old(analysisEdits)[i := answer.value] else old(analysisEdits)
      ensures frameworkSections == old(frameworkSections) && sectionEdits == old(sectionEdits)
      ensures foundValues == old(foundValues) && fieldToRefine == old(fieldToRefine)
    {
      var sections := ParseMarkdownSections(analysisResponse.value, true);
      var section := sections[i];
      var results := d.env.services.search(section.content);
      if Truthy(results) {
        var prompt := RefinementPrompt(d.refinement, d.env.host, section.title, section.content, comment, results);
        var regenerated := d.env.services.complete(prompt);
        if regenerated.Some? && regenerated.value != "" {
          analysisEdits := analysisEdits[i := regenerated.value];
        }
      }
    }

    /** "Start New Consultation" as written: the analysis keys are dropped and a
        fresh session starts at the welcome screen, but the framework, its
        regenerated sections, the found values and the field to refine stay.
        The button follows the analysis prompt, so a raise there hides it. */
    method StartNewConsultation(freshId: string)
      requires Valid() && session.stage == "analysis" && AnalysisShown()
      modifies this
      ensures Valid() && fresh(session) && session.IsFresh(freshId)
      ensures analysisResponse.None? && !analysisComplete && analysisEdits == map[]
      ensures frameworkSections == old(frameworkSections) && sectionEdits == old(sectionEdits)
      ensures foundValues == old(foundValues) && fieldToRefine == old(fieldToRefine)
    {
      analysisEdits := map[];
      analysisResponse := None;
      analysisComplete := false;
      session := new ConsultingSession.Fresh(freshId);
    }

    /** "Start New Consultation" as intended: the state of the finished
        consultation is dropped as well, so the next one starts from scratch. */
    method StartNewConsultationClean(freshId: string)
      requires Valid() && session.stage == "analysis" && AnalysisShown()
      modifies this
      ensures Valid() && fresh(session) && session.IsFresh(freshId)
      ensures analysisResponse.None? && !analysisComplete && analysisEdits == map[]
      ensures frameworkSections.None? && sectionEdits == map[] && foundValues.None? && fieldToRefine.None?
    {
      StartNewConsultation(freshId);
      frameworkSections := None;
      sectionEdits := map[];
      foundValues := None;
      fieldToRefine := None;
    }
  }

  /** Section finalisation: the sections with `regenerated_section_{i}` in
      place of the content of section `i` wherever the state holds it. */
  method FinalSections(sections: seq<Section>, edits: map<nat, string>) returns (final: seq<Section>)
    ensures |final| == |sections|
    ensures forall k :: 0 <= k < |final| ==> final[k].title == sections[k].title
    ensures forall k :: 0 <= k < |final| ==> (k in edits ==> final[k].content == edits[k])
    ensures forall k :: 0 <= k < |final| ==> (k !in edits ==> final[k] == sections[k])
  {
    final := [];
    var i := 0;
    while i < |sections|
      invariant 0 <= i <= |sections| && |final| == i
      invariant forall k :: 0 <= k < i ==> final[k].title == sections[k].title
      invariant forall k :: 0 <= k < i ==> (k in edits ==> final[k].content == edits[k])
      invariant forall k :: 0 <= k < i ==> (k !in edits ==> final[k] == sections[k])
    {
      var section := sections[i];
      if i in edits {
        final := final + [Section(section.title, edits[i])];
      } else {
        final := final + [section];
      }
      i := i + 1;
    }
  }

  /** A new consultation after "Start New Consultation" as written keeps the
      framework of the previous one: once the new problem reaches the problem
      definition, the old sections are shown whatever the new problem is. */
  method StaleFrameworkAfterNewConsultation(app: App, d: Deps, challenge: string, id1: string, id2: string)
    requires app.Valid() && app.session.stage == "analysis" && app.AnalysisShown()
    requires app.frameworkSections.Some? && challenge != ""
    modifies app
    ensures app.Valid() && app.session.currentProblem == Some(challenge)
    ensures app.frameworkSections == old(app.frameworkSections)
  {
    app.StartNewConsultation(id1);
    var started := app.StartAnalysis(d, challenge, id2);
    app.EnsureFramework(d);
  }

  /** With the clean reset, the new consultation gets the framework of its own problem. */
  method FreshFrameworkAfterCleanConsultation(app: App, d: Deps, challenge: string, id1: string, id2: string)
    requires app.Valid() && app.session.stage == "analysis" && app.AnalysisShown() && challenge != ""
    modifies app
    ensures app.Valid() && app.session.currentProblem == Some(challenge)
    ensures app.frameworkSections == Some(FrameworkFor(d, Some(challenge), d.similarCases(challenge)))
  {
    app.StartNewConsultationClean(id1);
    var started := app.StartAnalysis(d, challenge, id2);
    app.EnsureFramework(d);
  }

  /** With a date among the collected data, no number of visits completes the
      analysis: each one raises building the prompt, before the model is asked. */
  method DateBlocksAnalysis(app: App, d: Deps, visits: nat)
    requires app.Valid() && app.session.stage == "analysis" && !app.analysisComplete
    requires app.session.collectedData.Some? && !Writable(app.session.collectedData.value)
    modifies app
    ensures !app.analysisComplete && app.analysisResponse == old(app.analysisResponse)
    ensures !app.AnalysisShown()
  {
    var n := 0;
    while n < visits
      invariant app.Valid() && app.session == old(app.session) && app.session.stage == "analysis"
      invariant !app.analysisComplete && app.analysisResponse == old(app.analysisResponse)
    {
      var raised := app.EnsureAnalysis(d);
      n := n + 1;
    }
  }
}
