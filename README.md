# A verified model of the hilm consulting assistant's core

hilm is a Streamlit assistant that walks a consultant through one business
problem in four stages: welcome, problem definition, data collection and
analysis. Around its user interface sits a small pipeline that turns the
language model's free-text answers into structured, editable records. This
project models that pipeline in Dafny and proves what it promises:

- `markdown_spec.dfy`, `markdown.dfy`: `parse_markdown_sections`. The line loop
  is a method. It is proved equal to a closed-form specification (one section
  per level-1 or level-2 header line, its body lines joined and stripped), and
  the properties of the parse are proved about that specification.
- `prompts.dfy`: the three prompt builders. They are string templates whose
  optional blocks appear exactly when an argument is truthy.
- `extraction.dfy`: fence stripping before `json.loads`, numeric coercion, the
  extraction loop that fills `found_values`, and the refinement of one entry.
- `stages.dfy`: what the stage handlers do to `st.session_state`, with the
  widgets removed. `App` is a class holding the consulting session and the
  handler keys. Each button and each first visit of a stage is a method on it.
  It also covers the `missing_fields` check and section finalisation.
- `render.dfy`: `render_query_section` (split, HTML escape, line and sentence
  breaks) and `render_task_card` (the tag loop).
- `session.dfy`: the `ConsultingSession` dataclass, its `__post_init__`, the
  regenerated-sections map and the session file name, with the file system as a map.
- `text.dfy`, `json.dfy`, `wrappers.dfy`: Python's `str` operations (`strip`,
  `split`, `join`, `replace`, `in`, `split()`), JSON values with Python
  truthiness, and `Option`/`Result`.

The language model, the case and web-page searches, `json.dumps`/`json.loads`,
`str()` formatting, `float()` and `uuid.uuid4()` are parameters of the model.
They are function-typed fields of the `Host`, `Services` and `Deps` records, or
arguments. `BUSINESS_CONFIG` is a `Business` record. The fixed wording of
each prompt template and the fixed HTML of each renderer are records of their
pieces. Constants hold the source's own text (`SourceConsultingWording`,
`SourceRefinementWording`, `SourceWebpagesWording`, `SourceQueryMarkup`,
`SourceCardMarkup`). The lemmas are stated for any wording that has the few
facts they need, and those facts are proved for the source's wording.

Some of what the handlers do is not what their comments and button labels
suggest. The model follows the code:

- Text before the first header is dropped whenever the text has a header
  (src/utils/prompt_utils.py:186-192). This holds whatever the strictness flag
  says; the flag is read only when no header exists (`ParseFlagIrrelevant`,
  `ParseDropsPreamble`).
- Fences are always stripped before decoding (src/handlers/stage_handlers.py:217-220).
  There is no first attempt on the raw answer.
- A field counts as missing when its collected value is falsy
  (src/handlers/stage_handlers.py:372), which includes `0.0`, `""` and `None`.
- The comment "Clear the refinement state" (src/handlers/stage_handlers.py:418)
  describes a line that a raise skips. The handler raises first, and
  `field_to_refine` stays set (`RefineField`), in three cases: the field or its
  description is missing from `required_data`; the search has results and the
  field has no type; or the form raised earlier because some field's heading
  lacks its description or `required` flag (lines 297-298). Without search
  results a missing type is never read, and the field is cleared.
- The form reads each field's description and `required` flag outside its
  `try` (src/handlers/stage_handlers.py:297-298). If any field lacks one, every
  visit raises before "Submit Data" is shown (`SubmitData`).
- An answer to the problem-definition prompt that has no `#` or `##` header
  stores an empty framework (src/handlers/stage_handlers.py:112-113).
  Line 102 never rebuilds a stored framework, and both buttons of the stage sit
  inside `if st.session_state.framework_sections:` (line 120). The session then
  has no way out of the problem definition, so `ProceedToDataCollection` and
  `StartOver` require a non-empty framework.
- The comment on "Start New Consultation" says it clears the analysis state,
  and that is all it clears (see Findings).
- A date field makes the analysis raise on every visit (see Findings).

## Model

| member | source | states |
|---|---|---|
| MarkdownSpec.MarkerLength | src/utils/prompt_utils.py:166 | a header marker is `#` or `##`: length 1 or 2 |
| MarkdownSpec.HeaderTitleShape | src/utils/prompt_utils.py:166 | on a header line, group 1 is a non-empty suffix after the marker and a whitespace run; it starts with a non-space unless the line is marker and whitespace only |
| MarkdownSpec.HeaderTitleNonEmpty | src/utils/prompt_utils.py:183-191 | every header line gives a non-empty title, so every header opens a section |
| MarkdownSpec.TitleAfterShape | src/utils/prompt_utils.py:166 | `\s+(.+)$` takes the longest whitespace run that still leaves one character for the title |
| MarkdownSpec.HeaderIndices | src/utils/prompt_utils.py:173 | the header indices are header lines, strictly increasing |
| MarkdownSpec.SpansToShape | src/utils/prompt_utils.py:182-199 | section j runs from header j to header j+1, and the last one to the end of the text |
| Markdown.ParseMarkdownSections | src/utils/prompt_utils.py:146-217 | the method's result equals the closed-form `Parse` |
| Markdown.CollectSections | src/utils/prompt_utils.py:182-199 | the line loop with the last close computes the sections of the scanned state |
| Markdown.CloseOpen | src/utils/prompt_utils.py:186-188 | closing appends one section with the open title, and only when a title is open |
| Markdown.ScanLine | src/utils/prompt_utils.py:182-194 | a header closes the open section and opens its own with an empty body; any other line joins the body |
| Markdown.ScanMatchesSections | src/utils/prompt_utils.py:182-199 | the loop followed by the final close equals one section per header line |
| Markdown.HasHeadersIff | src/utils/prompt_utils.py:173 | `any(re.match(...))` holds iff the header list is non-empty |
| Markdown.HeaderIndicesComplete | src/utils/prompt_utils.py:183-184 | a line is listed iff it is a header line |
| Markdown.HeaderIndicesLines | src/utils/prompt_utils.py:183-191 | the header indices point exactly at the header lines, in order |
| Markdown.SectionsAt | src/utils/prompt_utils.py:186-198 | section k has the k-th header's title and the stripped `'\n'`-join of the lines up to the next header or the end |
| Markdown.BodyHasNoHeader | src/utils/prompt_utils.py:193-194 | no line of a section's body is a header line |
| Markdown.LinesHaveNoNewline | src/utils/prompt_utils.py:172 | no line of the split contains `'\n'` |
| Markdown.ParseWithHeaders | src/utils/prompt_utils.py:182-199 | with headers: as many sections as header lines, titled in document order |
| Markdown.ParseWithoutHeaders | src/utils/prompt_utils.py:173-180 | without headers: `[]` when strict, otherwise one "Analysis" section holding the stripped text |
| Markdown.ParseEmpty | src/utils/prompt_utils.py:157-159 | empty input gives no sections, whatever the flag |
| Markdown.ParseFlagIrrelevant | src/utils/prompt_utils.py:176-200 | once a header exists, the flag changes nothing |
| Markdown.ParseDropsPreamble | src/utils/prompt_utils.py:186-192 | text before the first header is discarded |
| Markdown.SectionsDropPreamble | src/utils/prompt_utils.py:186-192 | the sections of a text are those of the text from its first header on |
| Markdown.HeaderIndicesAppend | src/utils/prompt_utils.py:182-184 | headers of a concatenation: those of each part, the second shifted |
| Prompts.CasesContext | src/utils/prompt_utils.py:9-11 | the context is empty unless the cases are a non-empty dict |
| Prompts.StageBody | src/utils/prompt_utils.py:24-62 | a body exists iff the stage is one of the three known stages |
| Prompts.ConsultingPrompt | src/utils/prompt_utils.py:7-64 | an unknown stage is an error; otherwise the prompt starts with the shared preamble around the cases |
| Prompts.ConsultingPromptQuotesQuery | src/utils/prompt_utils.py:25-59 | every stage's prompt contains the query verbatim |
| Prompts.ConsultingContextEmptyIff | src/utils/prompt_utils.py:9-19 | the `<context>` block is empty iff the cases are not a non-empty dict |
| Prompts.SourceConsultingWordingFacts | src/utils/prompt_utils.py:13-22 | the text after the cases starts with a line break |
| Prompts.RefinementPrompt | src/utils/prompt_utils.py:66-98 | the prompt starts with the section title, content and feedback block |
| Prompts.RefinementResearchIff | src/utils/prompt_utils.py:79-86 | the research block follows iff `rag_context` is truthy |
| Prompts.SourceRefinementWordingFacts | src/utils/prompt_utils.py:79-96 | the research heading and the closing text differ, so the block can be read off the prompt |
| Prompts.WebpagesPrompt | src/utils/prompt_utils.py:100-144 | an error iff the details lack `description` or `type`; otherwise the prompt starts with the field block |
| Prompts.WebpagesPreviousIff | src/utils/prompt_utils.py:112-119 | the previous-analysis block follows the field block iff a previous result is given |
| Prompts.WebpagesFeedbackIff | src/utils/prompt_utils.py:121-127 | the feedback block follows iff the comment is non-empty |
| Prompts.SourceWebpagesWordingFacts | src/utils/prompt_utils.py:112-131 | the openings of the three optional blocks differ pairwise |
| Extraction.CleanResponseFenceFree | src/handlers/stage_handlers.py:249-251 | the cleaned answer holds no code fence |
| Extraction.FenceFree | src/handlers/stage_handlers.py:218 | removing every fence leaves none behind |
| Extraction.CleanResponseStripped | src/handlers/stage_handlers.py:217-218 | the cleaned answer is already stripped |
| Extraction.CleanResponsePlain | src/handlers/stage_handlers.py:403 | an answer without backticks is only stripped |
| Extraction.CleanResponseFenced | src/handlers/stage_handlers.py:249-251 | a document in a ```` ```json ```` fence, with whitespace around, comes out as the stripped document |
| Extraction.NumberToken | src/handlers/stage_handlers.py:260-262 | no token iff the value is only commas and whitespace; a token is non-empty and has neither |
| Extraction.NumberTokenFirstWord | src/handlers/stage_handlers.py:260-262 | the token is the first word with its commas removed ("1,250 units" gives "1250") |
| Extraction.Coerce | src/handlers/stage_handlers.py:256-264 | only strings of number fields are coerced; the field is skipped iff `float()` fails |
| Extraction.Reply | src/handlers/stage_handlers.py:245-254 | a decoded answer exists only when the model answered |
| Extraction.FieldOutcome | src/handlers/stage_handlers.py:236-271 | one pass raises iff the description is missing, or the search has results and the type is missing |
| Extraction.FieldOutcomeRecorded | src/handlers/stage_handlers.py:240-271 | an entry is recorded only after search results and a decoded answer with a `value`; it holds the coerced value and the defaulted keys |
| Extraction.FieldOutcomeKeepsNonString | src/handlers/stage_handlers.py:257-258 | a value that is not a string is stored unchanged, `null` included |
| Extraction.FieldOutcomeNumberText | src/handlers/stage_handlers.py:258-264 | a string for a number field is stored as the parsed number, or skipped when parsing fails |
| Extraction.ExtractFromKeys | src/handlers/stage_handlers.py:236-271 | every recorded key is a field whose pass recorded something |
| Extraction.ExtractFromRaises | src/handlers/stage_handlers.py:236-242 | the loop raises iff some field's pass raises |
| Extraction.ExtractFromEntry | src/handlers/stage_handlers.py:266-271 | a field that recorded `v` ends with entry `v` |
| Extraction.ExtractFromKeeps | src/handlers/stage_handlers.py:236-271 | a key no later field names keeps its entry |
| Extraction.ExtractFoundValues | src/handlers/stage_handlers.py:232-278 | the loop method computes `Extract` |
| Extraction.RefineOutcome | src/handlers/stage_handlers.py:384-411 | an error iff the field or its description is missing, or the search has results and the type is missing |
| Extraction.RefineOverwrites | src/handlers/stage_handlers.py:402-411 | a decoded answer overwrites the entry with its value as given via `.get`, `null` when absent, never coerced |
| Extraction.RefineKeeps | src/handlers/stage_handlers.py:389-416 | without results, or without a decodable answer, the entry is left as it is |
| Render.EscapeChar | src/utils/renderer_utils.py:38-39 | an escape is non-empty and holds no markup character |
| Render.Escape | src/utils/renderer_utils.py:38-39 | the escaped text is no shorter and holds no markup character |
| Render.EscapeRoundTrip | src/utils/renderer_utils.py:38-39 | decoding the entities of the escaped text gives the text back |
| Render.BreaksRoundTrip | src/utils/renderer_utils.py:38-39 | `\n` to `<br>` and back is the identity on escaped text |
| Render.SentencesApart | src/utils/renderer_utils.py:42-43 | after the sentence step, no `". "` is left |
| Render.QueryPartsNoMarker | src/utils/renderer_utils.py:25-35 | without a `\nQuery:` line, the title is the stripped text and the query is empty |
| Render.QueryPartsFirstMarker | src/utils/renderer_utils.py:25-31 | the title is the stripped text before the first marker; the query is the stripped text up to the next marker |
| Render.QueryPartsOneMarker | src/utils/renderer_utils.py:25-31 | one marker between two one-line parts gives those parts, stripped |
| Render.TitleHtmlDecodes | src/utils/renderer_utils.py:38 | the written title decodes back to the title, so the sentence step never touches it |
| Render.TitleHtmlSafe | src/utils/renderer_utils.py:38 | the written title has no line break and no quote |
| Render.QueryHtmlShape | src/utils/renderer_utils.py:39-43 | the written query is empty iff the query is; it has no line break and no `". "` |
| Render.SourceQueryMarkupFacts | src/utils/renderer_utils.py:45-52 | the query block and the section's end start differently |
| Render.QuerySectionShape | src/utils/renderer_utils.py:45-52 | the section opens with the written title; the query `<div>` follows iff the query is non-empty |
| Render.TagSpans | src/utils/renderer_utils.py:4-7 | one span per tag, span i being tag i's |
| Render.RenderTaskCard | src/utils/renderer_utils.py:1-18 | the loop method writes the card of the task |
| Render.TagsHtmlAppend | src/utils/renderer_utils.py:5-17 | the tags' markup is that of the first tags followed by that of the others |
| Render.TagsHtmlAround | src/utils/renderer_utils.py:17 | tag i's span sits between the spans of the tags before and after it |
| Render.CardShowsTag | src/utils/renderer_utils.py:4-17 | every tag's span appears on the card |
| Render.TagSpanShowsText | src/utils/renderer_utils.py:6 | a tag's text is written into its span unescaped |
| Render.CardWithoutTags | src/utils/renderer_utils.py:10-18 | a task without tags has nothing between the description and the card's end |
| Session.SessionPath | src/models/consulting_session.py:25-28 | the file name is the prefix, the id and the suffix |
| Session.SessionPathInjective | src/models/consulting_session.py:28-43 | two ids without `'/'` share a file only when they are equal |
| Session.CollectedJson | src/models/consulting_session.py:36-38 | the collected data can be written iff it holds no date, and then as the object of its plain values, in order |
| Session.FromFile | src/models/consulting_session.py:46-48 | collected data read back from a file holds the stored values, all plain, in order |
| Session.ConsultingSession.constructor | src/models/consulting_session.py:7-23 | the given fields are kept; the regenerated sections are emptied; a missing id is replaced by a fresh one |
| Session.ConsultingSession.Fresh | src/models/consulting_session.py:9-22 | a new session is at "welcome" with every optional field `None`, no regenerated sections and the fresh id |
| Session.ConsultingSession.Save | src/models/consulting_session.py:34-38 | a record is written iff the collected data holds no date |
| Session.ConsultingSession.GetRegeneratedSection | src/models/consulting_session.py:53-55 | `None` iff the key is absent, otherwise its content |
| Session.ConsultingSession.SetRegeneratedSection | src/models/consulting_session.py:57-60 | the key now reads the content, every other key reads as before; the save raises where `SaveRaises` says, and otherwise the file holds the new content |
| Session.SaveTo | src/models/consulting_session.py:28-38 | an id with `'/'` writes nothing; a date leaves the file undecodable; otherwise the session's file holds its record; other files are unchanged |
| Session.SaveKeepsOtherSessions | src/models/consulting_session.py:34-38 | saving leaves the file of every other id without `'/'` as it was |
| Session.Load | src/models/consulting_session.py:40-51 | `None` iff the id has `'/'` or there is no decodable file; otherwise the stored fields, with empty regenerated sections |
| Session.SaveAndLoad | src/models/consulting_session.py:34-51 | nothing comes back iff the save raises; otherwise every field comes back except the regenerated sections, which come back empty |
| Stages.Listed | src/handlers/stage_handlers.py:370-373 | a field raises iff `required` is missing; otherwise it is listed iff required and falsy |
| Stages.MissingFieldsRaises | src/handlers/stage_handlers.py:370-373 | the check raises iff some details lack `required` |
| Stages.MissingFieldsExactly | src/handlers/stage_handlers.py:370-373 | listed iff required with a falsy collected value; fields that are not required are never listed |
| Stages.MissingFieldsAppend | src/handlers/stage_handlers.py:370-373 | fields are listed in the order of the required data |
| Stages.RenderedFormChecks | src/handlers/stage_handlers.py:370-373 | once every field's heading reads its description and `required` flag, the check of the required fields cannot raise |
| Stages.ContinueQueryParts | src/handlers/stage_handlers.py:38-44 | a task's problem statement renders with "title: description" as its title and the task's query as its query |
| Stages.Previous | src/handlers/stage_handlers.py:387 | a previous value exists iff the field has an entry, and it is that entry |
| Stages.App.constructor | app.py:113-114 | the first run holds a fresh session at "welcome" and no handler keys |
| Stages.App.Begin | src/handlers/stage_handlers.py:66-72 | a fresh session at problem definition, with its problem, its similar cases, the fresh id and the defaults otherwise; no handler key changes |
| Stages.App.ContinueResearch | src/handlers/stage_handlers.py:38-45 | "Continue Research" starts a fresh session at the problem definition of the task's problem statement, with the defaults otherwise; no handler key changes |
| Stages.App.StartAnalysis | src/handlers/stage_handlers.py:63-75 | a consultation starts iff the challenge is non-empty, with a fresh session holding the defaults otherwise; without one the session is untouched; no handler key changes |
| Stages.App.EnsureFramework | src/handlers/stage_handlers.py:101-117 | on the first visit only, the framework is the parse of the model's answer; later visits keep it |
| Stages.App.ImproveSection | src/handlers/stage_handlers.py:148-165 | a non-empty answer to the refinement prompt becomes section i's edit; otherwise the edits stay |
| Stages.App.ProceedToDataCollection | src/handlers/stage_handlers.py:170-186 | shown only with a non-empty framework; the session moves to data collection with the agreed framework: same titles, with each edit in place of its original |
| Stages.App.StartOver | src/handlers/stage_handlers.py:188-195 | shown only with a non-empty framework; the framework and edits are dropped and a session with every default starts at "welcome" |
| Stages.App.EnsureRequiredData | src/handlers/stage_handlers.py:201-226 | without required data, the decoded cleaned answer becomes the required data; the handler stops iff there is none |
| Stages.App.EnsureFoundValues | src/handlers/stage_handlers.py:231-278 | on the first visit only, `found_values` is the extraction's result, kept even when it raises |
| Stages.App.SubmitData | src/handlers/stage_handlers.py:368-381 | an error, changing nothing, iff the form raises before the button (required data not a dict, or some details without `description` or `required`); otherwise the stage moves to analysis and the data is stored iff no required field is missing |
| Stages.App.RequestRefinement | src/handlers/stage_handlers.py:353-355 | the field and the comment are stored |
| Stages.App.ApplyRefinement | src/handlers/stage_handlers.py:406-419 | an error changes nothing; otherwise the refinement is over, and a new value replaces the field's entry |
| Stages.App.RefineField | src/handlers/stage_handlers.py:383-420 | an error where the form raises before the refinement or `found_values` is missing; otherwise the outcome is the refinement of the stored field, and the state follows it |
| Stages.AnalysisQuery | src/handlers/stage_handlers.py:455-457 | the challenge exists iff the collected data holds no date, and starts with the problem |
| Stages.AnalysisQueryDatesAsText | src/handlers/stage_handlers.py:455-457 | dates written as text: defined for all collected data, and equal to `AnalysisQuery` wherever that is |
| Stages.App.EnsureAnalysis | src/handlers/stage_handlers.py:444-467 | until complete, the visit raises iff the collected data holds a date; otherwise, while no answer is stored, a non-empty answer is stored and completes the analysis |
| Stages.App.EnsureAnalysisDatesAsText | src/handlers/stage_handlers.py:444-467 | corrected: the prompt is always built, so a non-empty answer completes the analysis whatever was collected |
| Stages.DateBlocksAnalysis | src/handlers/stage_handlers.py:454-467 | with a date collected, no number of visits completes the analysis or reaches its buttons |
| Stages.App.ImproveAnalysisSection | src/handlers/stage_handlers.py:522-541 | reached only past the analysis prompt; with search results, a non-empty answer becomes section i's analysis edit; otherwise the edits stay |
| Stages.App.StartNewConsultation | src/handlers/stage_handlers.py:547-556 | reached only past the analysis prompt; as written: a session with every default, and only the analysis keys are dropped |
| Stages.App.StartNewConsultationClean | src/handlers/stage_handlers.py:547-556 | the intended reset: a session with every default, and the finished consultation's framework, edits, found values and field to refine are dropped as well |
| Stages.FinalSections | src/handlers/stage_handlers.py:172-181 | same length and titles; section k's content is its edit when one exists, otherwise the section is kept |
| Stages.StaleFrameworkAfterNewConsultation | src/handlers/stage_handlers.py:547-556 | after a new consultation and a new challenge, the previous framework is still in place |
| Stages.FreshFrameworkAfterCleanConsultation | src/handlers/stage_handlers.py:547-556 | after the clean reset, the new challenge gets the framework of its own problem |

## Left out

- The user interface: every `st.*` call, widget keys, CSS, the logo, `st.rerun`, page setup and the stage dispatch in `app.py`. The dispatch appears only as each handler's precondition on the stage.
- The debug output behind `advanced_features`, including inside `parse_markdown_sections`.
- The Snowflake connection, Cortex search, the SQL document lookup and `stream_response`. The model and the searches are function parameters; a failed call is an absent answer, as `get_llm_response` returns `None` on an exception.
- `json.dumps`, `json.loads`, `str()` formatting and `float()` are uninterpreted parameters, because JSON encoding and floating point are not modelled. The one way `json.dumps` and `json.dump` fail here, a `TypeError` on a collected date, is modelled.
- Temperature and streaming flags are not modelled; they do not change the core's logic.
- `uuid.uuid4()` is a `freshId` argument.
- File I/O in `save`/`load` is a map from paths to saved records. Files that fail to decode are absent from the map. `os.makedirs` appears only as the fact that `data/sessions` is the one directory that exists. Ids that the file system refuses for other reasons, such as a NUL character or an over-long name, are not modelled.
- The data-collection form's widgets: which input each field gets, and the values it proposes, are not modelled. The collected data is an argument of `SubmitData`. Its values are JSON values or dates (`FormValue`), which covers what the number, text and date inputs give.
- The analysis display: the header-level font sizes (src/handlers/stage_handlers.py:489-505) and the share popup.
- The text of the welcome screen and the `CONSULTING_SUGGESTIONS`/`TASK_CARDS` data. A task card is a `Task` argument.
- `regenerated_section_{i}` and `regenerated_analysis_{i}` keys are maps from the index `i`. `comment_{i}` and the other widget keys are not modelled.
- Stages.App.RefineField: the form raising before line 384, the exception at line 386, the `description` lookup at line 389, and the `type` lookup inside `create_webpages_prompt` when the search has results all leave `field_to_refine` set, as the code does. The field is cleared only when the refinement does not raise.
- Extraction.Coerce: the parsed number is `float()`'s result, uninterpreted, rather than a binary64 value.

## Findings

| source | as written | input that shows it | evidently intended | confidence | as-written member | corrected member |
|---|---|---|---|---|---|---|
| src/handlers/stage_handlers.py:547-556 | "Start New Consultation" deletes only the `analysis_`/`regenerated_analysis_` keys. `framework_sections`, `regenerated_section_*`, `found_values` and `field_to_refine` survive, and line 102 then skips building the next framework. | finish one consultation with framework F, press "Start New Consultation", then start a new challenge C: the problem definition of C shows F | a new consultation starts from scratch, as "Start Over" does for its keys | not executed | Stages.StaleFrameworkAfterNewConsultation | Stages.FreshFrameworkAfterCleanConsultation |
| src/handlers/stage_handlers.py:454-467 | The analysis prompt is built with `json.dumps(collected_data)`, outside any `try`. A date field's `st.date_input` (lines 320-335) stores a `datetime.date`, which `json.dumps` rejects with `TypeError`. A date is truthy, so "Submit Data" accepts it. | required data with a field of type "date": submit the form, and every visit of the analysis raises before asking the model or showing "Start New Consultation" | the collected data reaches the prompt with dates written as text | not executed | Stages.DateBlocksAnalysis | Stages.App.EnsureAnalysisDatesAsText |
