/**
 * What the data-collection stage of `src/handlers/stage_handlers.py` does with
 * the language model's answers: strip code fences before decoding, coerce
 * numeric answers, fill `found_values` field by field, and overwrite one entry
 * when the user asks for a refinement.
 */
module Extraction {
  import opened Wrappers
  import opened JsonModel
  import opened Text
  import opened Prompts

  // ---------------------------------------------------------------------------
  // Fence stripping
  // ---------------------------------------------------------------------------

  /** `response.strip().replace('```json', '').replace('```', '').strip()`. */
  function CleanResponse(response: string): string {
    Strip(Replace(Replace(Strip(response), "```json", ""), "```", ""))
  }

  /** A non-empty result of removing fences starts with a backtick only when the
      text it came from does. */
  lemma FenceFreeHead(u: string)
    requires Replace(u, "```", "") != [] && Replace(u, "```", "")[0] == '`'
    ensures u != [] && u[0] == '`'
  {
    if |u| >= 3 && u[..3] != "```" {
      assert Replace(u, "```", "") == [u[0]] + Replace(u[1..], "```", "");
    }
  }

  /** The same for a result that starts with two backticks. */
  lemma FenceFreeHead2(t: string)
    requires |Replace(t, "```", "")| >= 2
    requires Replace(t, "```", "")[0] == '`' && Replace(t, "```", "")[1] == '`'
    ensures |t| >= 2 && t[0] == '`' && t[1] == '`'
  {
    if |t| >= 3 && t[..3] != "```" {
      var rest := Replace(t[1..], "```", "");
      assert Replace(t, "```", "") == [t[0]] + rest;
      assert rest != [] && rest[0] == '`';
      FenceFreeHead(t[1..]);
    } else if |t| >= 3 {
      assert t[..3][0] == t[0] && t[..3][1] == t[1];
    }
  }

  /** Removing every fence leaves no fence behind: three backticks can only meet
      in the result if they were already adjacent, and then they were removed. */
  lemma {:induction false} FenceFree(s: string)
    ensures !Contains(Replace(s, "```", ""), "```")
    decreases |s|
  {
    if |s| < 3 {
      ShortNotContains(s, "```");
    } else if s[..3] == "```" {
      FenceFree(s[3..]);
      assert Replace(s, "```", "") == "" + Replace(s[3..], "```", "");
      assert "" + Replace(s[3..], "```", "") == Replace(s[3..], "```", "");
    } else {
      var rest := Replace(s[1..], "```", "");
      FenceFree(s[1..]);
      var r := [s[0]] + rest;
      assert Replace(s, "```", "") == r;
      assert r[1..] == rest;
      if |rest| >= 2 && rest[0] == '`' && rest[1] == '`' {
        FenceFreeHead2(s[1..]);
        assert s[..3][1..] == "``";
      }
    }
  }

  /** The cleaned response holds no code fence. */
  lemma CleanResponseFenceFree(response: string)
    ensures !Contains(CleanResponse(response), "```")
  {
    var x := Replace(Replace(Strip(response), "```json", ""), "```", "");
    FenceFree(Replace(Strip(response), "```json", ""));
    var lo, hi := StripRange(x);
    if Contains(Strip(x), "```") {
      ContainsInSlice(x, lo, hi, "```");
    }
  }

  /** The cleaned response is already stripped: cleaning is idempotent on its whitespace. */
  lemma CleanResponseStripped(response: string)
    ensures Strip(CleanResponse(response)) == CleanResponse(response)
  {
    StripShape(Replace(Replace(Strip(response), "```json", ""), "```", ""));
    StripNoop(CleanResponse(response));
  }

  /** A response without backticks is only stripped. */
  lemma CleanResponsePlain(response: string)
    requires forall i :: 0 <= i < |response| ==> response[i] != '`'
    ensures CleanResponse(response) == Strip(response)
  {
    var s := Strip(response);
    StripShape(response);
    forall i | 0 <= i < |s| ensures s[i] != '`' {
      assert s[i] == response[LeadingSpaces(response) + i];
    }
    NotContainsChar(s, "```json");
    ReplaceAbsent(s, "```json", "");
    NotContainsChar(s, "```");
    ReplaceAbsent(s, "```", "");
    StripShape(s);
    StripNoop(s);
  }

  /** A JSON document wrapped in a ```` ```json ```` fence, with whitespace
      around it, comes out as the stripped document. */
  lemma CleanResponseFenced(pre: string, body: string, post: string)
    requires AllSpace(pre) && AllSpace(post)
    requires forall i :: 0 <= i < |body| ==> body[i] != '`'
    ensures CleanResponse(pre + "```json" + body + "```" + post) == Strip(body)
  {
    StripFenced(pre, body, post);
    DropOpeningFence(body);
    DropClosingFence(body);
  }

  lemma StripFenced(pre: string, body: string, post: string)
    requires AllSpace(pre) && AllSpace(post)
    ensures Strip(pre + "```json" + body + "```" + post) == "```json" + body + "```"
  {
    var fenced := "```json" + body + "```";
    assert pre + "```json" + body + "```" + post == pre + fenced + post;
    assert fenced[0] == '`' && fenced[|fenced| - 1] == '`';
    StripPadded(pre, fenced, post);
  }

  lemma DropOpeningFence(body: string)
    requires forall i :: 0 <= i < |body| ==> body[i] != '`'
    ensures Replace("```json" + body + "```", "```json", "") == body + "```"
  {
    assert "```json" + body + "```" == "```json" + (body + "```");
    ReplaceAtHead("```json", body + "```", "");
    ReplaceSkip(body, "```", "```json", "");
    assert Replace("```", "```json", "") == "```";
  }

  lemma DropClosingFence(body: string)
    requires forall i :: 0 <= i < |body| ==> body[i] != '`'
    ensures Replace(body + "```", "```", "") == body
  {
    ReplaceSkip(body, "```", "```", "");
    assert "```" == "```" + "";
    ReplaceAtHead("```", "", "");
    assert body + "" == body;
  }

  // ---------------------------------------------------------------------------
  // Numeric coercion
  // ---------------------------------------------------------------------------

  /** The token a numeric answer is parsed from: `value.replace(',', '').split()[0].strip()`,
      `None` where indexing the empty token list raises `IndexError`. */
  function NumberToken(value: string): (r: Option<string>)
    ensures r.None? <==> forall i :: 0 <= i < |value| ==> value[i] == ',' || IsSpace(value[i])
    ensures r.Some? ==> r.value != [] && forall i :: 0 <= i < |r.value| ==> r.value[i] != ',' && !IsSpace(r.value[i])
  {
    ReplaceCharIsWithout(value, ',');
    WithoutAllSpace(value, ',');
    var w := FirstWord(Replace(value, ",", ""));
    match w
    case None => None
    case Some(t) =>
      assert t != [] && !IsSpace(t[0]) && !IsSpace(t[|t| - 1]);
      StripNoop(t);
      ghost var a := LeadingSpaces(Replace(value, ",", ""));
      forall i | 0 <= i < |t| ensures t[i] != ',' {
        assert t[i] == Without(value, ',')[a + i];
      }
      Some(Strip(t))
  }

  /** `float(...)` of that token; `None` where either step raises. */
  function CoerceNumber(h: Host, value: string): Option<real> {
    match NumberToken(value)
    case None => None
    case Some(t) => h.parseFloat(t)
  }

  /** The token is the first whitespace-delimited word with its commas removed:
      `"1,250 units"` is read as `"1250"`. */
  lemma NumberTokenFirstWord(pre: string, word: string, rest: string)
    requires AllSpace(pre)
    requires forall i :: 0 <= i < |word| ==> !IsSpace(word[i])
    requires Without(word, ',') != []
    requires rest == [] || IsSpace(rest[0])
    ensures NumberToken(pre + word + rest) == Some(Without(word, ','))
  {
    var t := Without(word, ',');
    var r := CommaFreeLayout(pre, word, rest);
    WithoutKeepsWords(word, ',');
    FirstWordAfterSpaces(pre, t, r);
    StripNoop(t);
  }

  /** Where the commas go when they are removed from `pre + word + rest`. */
  lemma CommaFreeLayout(pre: string, word: string, rest: string) returns (r: string)
    requires AllSpace(pre)
    requires rest == [] || IsSpace(rest[0])
    ensures Replace(pre + word + rest, ",", "") == pre + Without(word, ',') + r
    ensures r == [] || IsSpace(r[0])
  {
    assert !IsSpace(',');
    WithoutAbsent(pre, ',');
    WithoutAppend(pre + word, rest, ',');
    WithoutAppend(pre, word, ',');
    r := Without(rest, ',');
    if rest != [] {
      assert rest == [rest[0]] + rest[1..];
      WithoutAppend([rest[0]], rest[1..], ',');
    }
    ReplaceCharIsWithout(pre + word + rest, ',');
  }

  /** Removing a character from a text without whitespace leaves one without whitespace. */
  lemma {:induction false} WithoutKeepsWords(s: string, c: char)
    requires forall i :: 0 <= i < |s| ==> !IsSpace(s[i])
    ensures forall i :: 0 <= i < |Without(s, c)| ==> !IsSpace(Without(s, c)[i])
    decreases |s|
  {
    if s != [] {
      WithoutKeepsWords(s[1..], c);
      var head := if s[0] == c then [] else [s[0]];
      assert Without(s, c) == head + Without(s[1..], c);
    }
  }

  // ---------------------------------------------------------------------------
  // The extraction loop
  // ---------------------------------------------------------------------------

  /** The network calls of the handlers, as functions of their argument:
      `search` is `get_webpages_data` (`JNull` where it returns `None`) and
      `complete` is `get_llm_response(..., stream=False)` (`None` where it
      returns `None`). */
  datatype Services = Services(search: string -> Json, complete: string -> Option<string>)

  /** Everything the extraction depends on besides the required data. */
  datatype Env = Env(host: Host, services: Services, wording: WebpagesWording)

  /** The default of `result.get(key, 'N/A')`. */
  const NotAvailable: Json := JStr("N/A")

  /** The search query `f"{field} {details['description']}"`. */
  function SearchQuery(h: Host, field: string, description: Json): string {
    field + " " + h.format(description)
  }

  /** The dict decoded from the model's answer to `prompt`, or `None` where the
      `try` block raises before any entry is written: no answer (`None.strip()`),
      `json.loads` fails, or the decoded value is not a dict. */
  function Reply(env: Env, prompt: string): (r: Option<seq<(string, Json)>>)
    ensures r.Some? ==> env.services.complete(prompt).Some?
  {
    match env.services.complete(prompt)
    case None => None
    case Some(response) =>
      match env.host.loads(CleanResponse(response))
      case Some(JObj(fields)) => Some(fields)
      case _ => None
  }

  /** `details["type"] == "number"`. */
  predicate NumberField(details: Json) {
    Index(details, "type") == Some(JStr("number"))
  }

  /** The value the extraction stores for a raw answer, `None` where it skips
      the field: strings of number fields are coerced, all else is kept as it is. */
  function Coerce(h: Host, numeric: bool, raw: Json): (r: Option<Json>)
    ensures !(numeric && raw.JStr?) ==> r == Some(raw)
    ensures numeric && raw.JStr? ==> (r.None? <==> CoerceNumber(h, raw.s).None?)
    ensures numeric && raw.JStr? && r.Some? ==> r.value == JNum(CoerceNumber(h, raw.s).value)
  {
    if numeric && raw.JStr? then
      match CoerceNumber(h, raw.s)
      case None => None
      case Some(x) => Some(JNum(x))
    else Some(raw)
  }

  /** The entry recorded from a decoded answer whose value is `stored`. */
  function Entry(stored: Json, fields: seq<(string, Json)>): FoundValue {
    FoundValue(stored, Get(fields, "source", NotAvailable), Get(fields, "confidence", NotAvailable),
               Get(fields, "explanation", NotAvailable))
  }

  /** One pass of the extraction loop for `field`: `Err` where the handler
      raises (reading the description before the `try`, or building the prompt),
      `Ok(None)` where it records nothing, `Ok(Some(v))` where it records `v`. */
  function FieldOutcome(env: Env, field: string, details: Json): (r: Result<Option<FoundValue>, string>)
    ensures r.Err? <==>
              Index(details, "description").None? ||
              (Truthy(env.services.search(SearchQuery(env.host, field, Index(details, "description").value))) &&
               Index(details, "type").None?)
  {
    match Index(details, "description")
    case None => Err("KeyError reading the description")
    case Some(description) =>
      var results := env.services.search(SearchQuery(env.host, field, description));
      if !Truthy(results) then Ok(None)
      else
        match WebpagesPrompt(env.wording, env.host, field, details, results, None, None)
        case Err(e) => Err(e)
        case Ok(prompt) =>
          match Reply(env, prompt)
          case None => Ok(None)
          case Some(fields) =>
            match Lookup(fields, "value")
            case None => Ok(None)
            case Some(raw) =>
              match Coerce(env.host, NumberField(details), raw)
              case None => Ok(None)
              case Some(stored) => Ok(Some(Entry(stored, fields)))
  }

  /** The prompt of the first extraction, for details that hold a description
      and a type. */
  function ExtractionPrompt(env: Env, field: string, details: Json): string
    requires Index(details, "description").Some? && Index(details, "type").Some?
  {
    var results := env.services.search(SearchQuery(env.host, field, Index(details, "description").value));
    WebpagesPrompt(env.wording, env.host, field, details, results, None, None).value
  }

  /** An entry is recorded only when the search returned something and the
      answer decoded to a dict with a `value` key; the other keys default to
      `'N/A'`, and the value is the coerced raw value. */
  lemma FieldOutcomeRecorded(env: Env, field: string, details: Json, v: FoundValue)
    requires FieldOutcome(env, field, details) == Ok(Some(v))
    ensures Index(details, "description").Some? && Index(details, "type").Some?
    ensures Truthy(env.services.search(SearchQuery(env.host, field, Index(details, "description").value)))
    ensures Reply(env, ExtractionPrompt(env, field, details)).Some?
    ensures var fields := Reply(env, ExtractionPrompt(env, field, details)).value;
            && Lookup(fields, "value").Some?
            && Coerce(env.host, NumberField(details), Lookup(fields, "value").value) == Some(v.value)
            && v == Entry(v.value, fields)
  {
  }

  /** A decoded answer whose value is not a string is recorded unchanged,
      `null` included, for number fields as for all others. */
  lemma FieldOutcomeKeepsNonString(env: Env, field: string, details: Json, fields: seq<(string, Json)>, raw: Json)
    requires Index(details, "description").Some? && Index(details, "type").Some?
    requires Truthy(env.services.search(SearchQuery(env.host, field, Index(details, "description").value)))
    requires Reply(env, ExtractionPrompt(env, field, details)) == Some(fields)
    requires Lookup(fields, "value") == Some(raw) && !raw.JStr?
    ensures FieldOutcome(env, field, details) == Ok(Some(Entry(raw, fields)))
  {
  }

  /** A string answer for a number field is recorded as the number parsed
      from its first comma-free token, and skipped when there is none. */
  lemma FieldOutcomeNumberText(env: Env, field: string, details: Json, fields: seq<(string, Json)>, text: string)
    requires Index(details, "description").Some? && NumberField(details)
    requires Truthy(env.services.search(SearchQuery(env.host, field, Index(details, "description").value)))
    requires Reply(env, ExtractionPrompt(env, field, details)) == Some(fields)
    requires Lookup(fields, "value") == Some(JStr(text))
    ensures FieldOutcome(env, field, details).Ok?
    ensures FieldOutcome(env, field, details).value.None? <==> CoerceNumber(env.host, text).None?
    ensures FieldOutcome(env, field, details).value.Some? ==>
              FieldOutcome(env, field, details).value.value.value == JNum(CoerceNumber(env.host, text).value)
  {
  }

  /** What one pass of the loop does for a `(field, details)` pair. */
  type Pass = (string, Json) -> Result<Option<FoundValue>, string>

  /** The extraction loop over the remaining `(field, details)` pairs, starting
      from `found`: the final `found_values` and whether the handler raised. */
  function ExtractFrom(pass: Pass, items: seq<(string, Json)>, found: map<string, FoundValue>)
    : (map<string, FoundValue>, bool)
    decreases |items|
  {
    if items == [] then (found, false)
    else
      match pass(items[0].0, items[0].1)
      case Err(_) => (found, true)
      case Ok(None) => ExtractFrom(pass, items[1..], found)
      case Ok(Some(v)) => ExtractFrom(pass, items[1..], found[items[0].0 := v])
  }

  /** The pass of the first extraction. */
  function ExtractionPass(env: Env): Pass {
    (field, details) => FieldOutcome(env, field, details)
  }

  /** The whole extraction: `found_values` starts empty, and `.items()` on
      required data that is not a dict raises at once. */
  function Extract(env: Env, required: Json): (map<string, FoundValue>, bool) {
    if required.JObj? then ExtractFrom(ExtractionPass(env), required.fields, map[]) else (map[], true)
  }

  /** Every recorded key is one of the fields whose pass recorded something. */
  lemma {:induction false} ExtractFromKeys(pass: Pass, items: seq<(string, Json)>, found: map<string, FoundValue>,
                                           k: string)
    requires k in ExtractFrom(pass, items, found).0
    ensures k in found || exists i :: 0 <= i < |items| && items[i].0 == k &&
                                       pass(items[i].0, items[i].1).Ok? && pass(items[i].0, items[i].1).value.Some?
    decreases |items|
  {
    if items != [] {
      var o := pass(items[0].0, items[0].1);
      if o.Ok? {
        var next := if o.value.Some? then found[items[0].0 := o.value.value] else found;
        assert ExtractFrom(pass, items, found) == ExtractFrom(pass, items[1..], next);
        ExtractFromKeys(pass, items[1..], next, k);
        if k !in next {
          var i :| 0 <= i < |items[1..]| && items[1..][i].0 == k &&
                   pass(items[1..][i].0, items[1..][i].1).Ok? && pass(items[1..][i].0, items[1..][i].1).value.Some?;
          assert items[i + 1] == items[1..][i];
        }
      }
    }
  }

  /** The loop raises exactly when some field's pass raises. */
  lemma {:induction false} ExtractFromRaises(pass: Pass, items: seq<(string, Json)>, found: map<string, FoundValue>)
    ensures ExtractFrom(pass, items, found).1 <==> exists i :: 0 <= i < |items| && pass(items[i].0, items[i].1).Err?
    decreases |items|
  {
    if items != [] {
      var o := pass(items[0].0, items[0].1);
      if o.Ok? {
        var next := if o.value.Some? then found[items[0].0 := o.value.value] else found;
        ExtractFromRaises(pass, items[1..], next);
        if exists i :: 0 <= i < |items[1..]| && pass(items[1..][i].0, items[1..][i].1).Err? {
          var i :| 0 <= i < |items[1..]| && pass(items[1..][i].0, items[1..][i].1).Err?;
          assert items[i + 1] == items[1..][i];
        }
        if exists i :: 0 <= i < |items| && pass(items[i].0, items[i].1).Err? {
          var i :| 0 <= i < |items| && pass(items[i].0, items[i].1).Err?;
          assert items[1..][i - 1] == items[i];
        }
      }
    }
  }

  /** Without a raise, the entry of a field that recorded `v`, and that no later
      field of the same name overwrites, is `v`. */
  lemma {:induction false} ExtractFromEntry(pass: Pass, items: seq<(string, Json)>, found: map<string, FoundValue>,
                                            i: nat, v: FoundValue)
    requires i < |items| && pass(items[i].0, items[i].1) == Ok(Some(v))
    requires forall j :: i < j < |items| ==> items[j].0 != items[i].0
    requires !ExtractFrom(pass, items, found).1
    ensures items[i].0 in ExtractFrom(pass, items, found).0
    ensures ExtractFrom(pass, items, found).0[items[i].0] == v
    decreases |items|
  {
    var o := pass(items[0].0, items[0].1);
    var next := if o.Ok? && o.value.Some? then found[items[0].0 := o.value.value] else found;
    assert o.Ok?;
    assert ExtractFrom(pass, items, found) == ExtractFrom(pass, items[1..], next);
    if i == 0 {
      ExtractFromKeeps(pass, items[1..], next, items[0].0);
    } else {
      assert items[1..][i - 1] == items[i];
      ExtractFromEntry(pass, items[1..], next, i - 1, v);
    }
  }

  /** A key that no remaining field names keeps its entry. */
  lemma {:induction false} ExtractFromKeeps(pass: Pass, items: seq<(string, Json)>, found: map<string, FoundValue>,
                                            k: string)
    requires k in found && forall j :: 0 <= j < |items| ==> items[j].0 != k
    ensures k in ExtractFrom(pass, items, found).0 && ExtractFrom(pass, items, found).0[k] == found[k]
    decreases |items|
  {
    if items != [] {
      var o := pass(items[0].0, items[0].1);
      if o.Ok? {
        var next := if o.value.Some? then found[items[0].0 := o.value.value] else found;
        assert next[k] == found[k];
        ExtractFromKeeps(pass, items[1..], next, k);
      }
    }
  }

  /** The extraction loop of the data-collection stage, run on `required_data`. */
  method ExtractFoundValues(env: Env, required: Json) returns (found: map<string, FoundValue>, raised: bool)
    ensures (found, raised) == Extract(env, required)
  {
    found := map[];
    if !required.JObj? {
      return found, true;
    }
    var pass := ExtractionPass(env);
    var items := required.fields;
    var i := 0;
    while i < |items|
      invariant 0 <= i <= |items|
      invariant ExtractFrom(pass, items[i..], found) == ExtractFrom(pass, items, map[])
    {
      var (field, details) := items[i];
      assert items[i..][0] == items[i] && items[i..][1..] == items[i + 1..];
      var outcome := FieldOutcome(env, field, details);
      assert outcome == pass(field, details);
      match outcome {
        case Err(_) =>
          return found, true;
        case Ok(None) =>
        case Ok(Some(v)) =>
          found := found[field := v];
      }
      i := i + 1;
    }
    raised := false;
  }

  // ---------------------------------------------------------------------------
  // Refinement of one field
  // ---------------------------------------------------------------------------

  /** The new entry for `field` after a refinement request with `comment`:
      `Err` where the handler raises (the field or its description is missing,
      or the search has results and the prompt cannot be built for want of a
      type), `Ok(None)` where the entry is left as it is, `Ok(Some(v))` where
      it is overwritten with `v`. The value is taken with `.get`, so it may be
      `null`, and is never coerced. */
  function RefineOutcome(env: Env, field: string, required: Json, comment: string, previous: Option<FoundValue>)
    : (r: Result<Option<FoundValue>, string>)
    ensures r.Err? <==>
              || Index(required, field).None?
              || Index(Index(required, field).value, "description").None?
              || (Truthy(env.services.search(SearchQuery(env.host, field,
                                                         Index(Index(required, field).value, "description").value)))
                  && Index(Index(required, field).value, "type").None?)
  {
    match Index(required, field)
    case None => Err("KeyError reading the required data")
    case Some(details) =>
      match Index(details, "description")
      case None => Err("KeyError reading the description")
      case Some(description) =>
        var results := env.services.search(SearchQuery(env.host, field, description));
        if !Truthy(results) then Ok(None)
        else
          match WebpagesPrompt(env.wording, env.host, field, details, results, Some(comment), previous)
          case Err(e) => Err(e)
          case Ok(prompt) =>
            match Reply(env, prompt)
            case None => Ok(None)
            case Some(fields) => Ok(Some(Entry(Get(fields, "value", JNull), fields)))
  }

  /** The refinement prompt, for a field whose details hold a description and a type. */
  function RefinementRequest(env: Env, field: string, details: Json, comment: string,
                             previous: Option<FoundValue>): string
    requires Index(details, "description").Some? && Index(details, "type").Some?
  {
    var results := env.services.search(SearchQuery(env.host, field, Index(details, "description").value));
    WebpagesPrompt(env.wording, env.host, field, details, results, Some(comment), previous).value
  }

  /** A decoded answer overwrites the entry with its value as given, even a
      string for a number field, and `null` when the answer has no value. */
  lemma RefineOverwrites(env: Env, field: string, required: Json, comment: string, previous: Option<FoundValue>,
                         fields: seq<(string, Json)>)
    requires Index(required, field).Some?
    requires var details := Index(required, field).value;
             && Index(details, "description").Some? && Index(details, "type").Some?
             && Truthy(env.services.search(SearchQuery(env.host, field, Index(details, "description").value)))
             && Reply(env, RefinementRequest(env, field, details, comment, previous)) == Some(fields)
    ensures RefineOutcome(env, field, required, comment, previous).Ok?
    ensures var v := RefineOutcome(env, field, required, comment, previous).value;
            && v.Some?
            && (Lookup(fields, "value").None? ==> v.value.value == JNull)
            && (Lookup(fields, "value").Some? ==> v.value.value == Lookup(fields, "value").value)
  {
  }

  /** Without search results, or without a decodable answer, the entry is left as it is. */
  lemma RefineKeeps(env: Env, field: string, required: Json, comment: string, previous: Option<FoundValue>)
    requires Index(required, field).Some?
    requires var details := Index(required, field).value;
             && Index(details, "description").Some? && Index(details, "type").Some?
             && (!Truthy(env.services.search(SearchQuery(env.host, field, Index(details, "description").value))) ||
                 Reply(env, RefinementRequest(env, field, details, comment, previous)).None?)
    ensures RefineOutcome(env, field, required, comment, previous) == Ok(None)
  {
  }
}
