/**
 * `ConsultingSession` of `src/models/consulting_session.py`: the record of one
 * consultation, with the defaults of its dataclass fields, the quirk of
 * `__post_init__` that always empties the regenerated sections, and the file
 * name it is saved under. The file system is a map from paths to the records
 * saved there; JSON encoding and decoding of those records are not modelled.
 */
module Session {
  import opened Wrappers
  import opened JsonModel
  import opened MarkdownSpec

  /** The directory sessions are saved in, and the file of session `id`. */
  function SessionPath(id: string): (path: string)
    ensures |path| == |"data/sessions/session_"| + |id| + |".json"|
  {
    "data/sessions/session_" + id + ".json"
  }

  /** An id whose file lies in `data/sessions` itself. The only directory the
      program makes is `data/sessions`; the file of an id holding `'/'` lies in
      a sub-directory `session_…` that nothing creates, so it can be neither
      written nor found. For the other ids the path is already in the form
      the file system resolves, so equal paths are equal files. */
  predicate PlainId(id: string) {
    '/' !in id
  }

  /** Different sessions that can be saved are saved to different files. */
  lemma SessionPathInjective(a: string, b: string)
    requires PlainId(a) && PlainId(b)
    requires SessionPath(a) == SessionPath(b)
    ensures a == b
  {
    var n := |"data/sessions/session_"|;
    assert |a| == |b|;
    assert SessionPath(a)[n..n + |a|] == a;
    assert SessionPath(b)[n..n + |b|] == b;
  }

  /** A value of `collected_data`: a JSON value (the number and text inputs
      give a float and a `str`, an input that fails `None`), or the
      `datetime.date` a date input gives, held by its ISO text. */
  datatype FormValue = Plain(value: Json) | Date(iso: string)

  /** Python's `bool(x)` for a collected value: a date is always true. */
  predicate FormTruthy(v: FormValue) {
    match v
    case Plain(j) => Truthy(j)
    case Date(_) => true
  }

  /** Collected data that `json` can write: it holds no date. */
  predicate Writable(c: seq<(string, FormValue)>) {
    forall i :: 0 <= i < |c| ==> c[i].1.Plain?
  }

  /** The JSON object `json.dumps` and `json.dump` write for collected data;
      `None` where they raise `TypeError` on a date. */
  function CollectedJson(c: seq<(string, FormValue)>): (r: Option<Json>)
    ensures r.Some? <==> Writable(c)
    ensures r.Some? ==> r.value.JObj? && |r.value.fields| == |c|
    ensures r.Some? ==> forall i :: 0 <= i < |c| ==> r.value.fields[i] == (c[i].0, c[i].1.value)
  {
    if c == [] then Some(JObj([]))
    else
      match c[0].1
      case Date(_) => None
      case Plain(j) =>
        match CollectedJson(c[1..])
        case None => None
        case Some(rest) => Some(JObj([(c[0].0, j)] + rest.fields))
  }

  /** Collected data as `json.load` reads it back: every value plain. */
  function FromFile(c: seq<(string, Json)>): (r: seq<(string, FormValue)>)
    ensures |r| == |c| && Writable(r)
    ensures forall i :: 0 <= i < |c| ==> r[i] == (c[i].0, Plain(c[i].1))
  {
    seq(|c|, i requires 0 <= i < |c| => (c[i].0, Plain(c[i].1)))
  }

  /** What `asdict(self)` writes to the session file. */
  datatype Snapshot = Snapshot(
    stage: string,
    currentProblem: Option<string>,
    similarCases: Json,
    frameworkSections: Option<seq<Section>>,
    requiredData: Json,
    collectedData: Option<seq<(string, Json)>>,
    regeneratedSections: map<string, string>,
    sessionId: string)

  /** Python's `not self.session_id`. */
  predicate MissingId(id: Option<string>) {
    id.None? || id.value == ""
  }

  class ConsultingSession {
    var stage: string
    /** `None` stands for Python's `None`, as does `JNull` in the JSON-valued fields. */
    var currentProblem: Option<string>
    var similarCases: Json
    var frameworkSections: Option<seq<Section>>
    var requiredData: Json
    var collectedData: Option<seq<(string, FormValue)>>
    var regeneratedSections: map<string, string>
    var sessionId: string
    /** Set by the problem-definition stage; not a dataclass field, so never saved. */
    var agreedFramework: bool

    /** `ConsultingSession(stage, ..., regenerated_sections, session_id)`:
        `__post_init__` discards the regenerated sections passed in and draws a
        fresh id (`freshId`, the value of `uuid.uuid4()`) when none is given. */
    constructor (stage: string, currentProblem: Option<string>, similarCases: Json,
                 frameworkSections: Option<seq<Section>>, requiredData: Json,
                 collectedData: Option<seq<(string, FormValue)>>, regeneratedSections: map<string, string>,
                 sessionId: Option<string>, freshId: string)
      ensures this.stage == stage && this.currentProblem == currentProblem
      ensures this.similarCases == similarCases && this.frameworkSections == frameworkSections
      ensures this.requiredData == requiredData && this.collectedData == collectedData
      ensures this.regeneratedSections == map[]
      ensures this.sessionId == if MissingId(sessionId) then freshId else sessionId.value
      ensures !this.agreedFramework
    {
      this.stage := stage;
      this.currentProblem := currentProblem;
      this.similarCases := similarCases;
      this.frameworkSections := frameworkSections;
      this.requiredData := requiredData;
      this.collectedData := collectedData;
      this.regeneratedSections := map[];
      this.sessionId := if MissingId(sessionId) then freshId else sessionId.value;
      this.agreedFramework := false;
    }

    /** `ConsultingSession()`: every field at its default. */
    constructor Fresh(freshId: string)
      ensures IsFresh(freshId)
    {
      stage := "welcome";
      currentProblem := None;
      similarCases := JNull;
      frameworkSections := None;
      requiredData := JNull;
      collectedData := None;
      regeneratedSections := map[];
      sessionId := freshId;
      agreedFramework := false;
    }

    /** The session holds the dataclass defaults and the id `id`. */
    predicate IsFresh(id: string)
      reads this
    {
      && stage == "welcome" && currentProblem.None? && similarCases == JNull
      && frameworkSections.None? && requiredData == JNull && collectedData.None?
      && regeneratedSections == map[] && sessionId == id && !agreedFramework
    }

    /** The `_session_file` property. */
    function SessionFile(): string
      reads this
    {
      SessionPath(sessionId)
    }

    /** The record `save` writes; `None` where `json.dump` raises on a
        collected date. */
    function Save(): (r: Option<Snapshot>)
      reads this
      ensures r.Some? <==> collectedData.None? || Writable(collectedData.value)
    {
      var collected := match collectedData
        case None => Some(None)
        case Some(c) => match CollectedJson(c) case None => None case Some(j) => Some(Some(j.fields));
      match collected
      case None => None
      case Some(data) =>
        Some(Snapshot(stage, currentProblem, similarCases, frameworkSections, requiredData, data,
                      regeneratedSections, sessionId))
    }

  /** `get_regenerated_section(key)`: `None` for a key never set. */
    function GetRegeneratedSection(key: string): (r: Option<string>)
      reads this
      ensures r.None? <==> key !in regeneratedSections
      ensures r.Some? ==> r.value == regeneratedSections[key]
    {
      if key in regeneratedSections then Some(regeneratedSections[key]) else None
    }

    /** `set_regenerated_section(key, content)`: an update in place, then
        `save()` to `files`, which raises where `SaveRaises` says. */
    method SetRegeneratedSection(key: string, content: string, files: Files) returns (after: Files, raised: bool)
      modifies this
      ensures regeneratedSections == old(regeneratedSections)[key := content]
      ensures stage == old(stage) && currentProblem == old(currentProblem)
      ensures similarCases == old(similarCases) && frameworkSections == old(frameworkSections)
      ensures requiredData == old(requiredData) && collectedData == old(collectedData)
      ensures sessionId == old(sessionId) && agreedFramework == old(agreedFramework)
      ensures GetRegeneratedSection(key) == Some(content)
      ensures forall k :: k != key ==> GetRegeneratedSection(k) == old(GetRegeneratedSection(k))
      ensures after == SaveTo(this, files) && raised == SaveRaises(this)
      ensures !raised ==> after[SessionFile()].regeneratedSections[key] == content
    {
      regeneratedSections := regeneratedSections[key := content];
      after := SaveTo(this, files);
      raised := SaveRaises(this);
    }
  }

  /** The session files on disk that decode into a session, by path; files that
      cannot be read or decoded are absent. */
  type Files = map<string, Snapshot>

  /** `save()` raises: `open` fails for an id with `'/'`, and `json.dump`
      fails on a collected date. */
  predicate SaveRaises(s: ConsultingSession)
    reads s
  {
    !PlainId(s.sessionId) || s.Save().None?
  }

  /** The file system after `save()`. Where `open` fails nothing is written;
      where `json.dump` fails on a date, the truncated file holds part of the
      record and no longer decodes. */
  function SaveTo(s: ConsultingSession, files: Files): (after: Files)
    reads s
    ensures !PlainId(s.sessionId) ==> after == files
    ensures PlainId(s.sessionId) && s.Save().None? ==> s.SessionFile() !in after
    ensures !SaveRaises(s) ==> s.SessionFile() in after && Some(after[s.SessionFile()]) == s.Save()
    ensures forall p :: p in files && p != s.SessionFile() ==> p in after && after[p] == files[p]
    ensures forall p :: p in after && p != s.SessionFile() ==> p in files
  {
    if !PlainId(s.sessionId) then files
    else match s.Save()
      case None => files - {s.SessionFile()}
      case Some(record) => files[s.SessionFile() := record]
  }

  /** Saving one session leaves the file of every other session id as it was. */
  lemma SaveKeepsOtherSessions(s: ConsultingSession, files: Files, id: string)
    requires PlainId(id) && id != s.sessionId && SessionPath(id) in files
    ensures SessionPath(id) in SaveTo(s, files) && SaveTo(s, files)[SessionPath(id)] == files[SessionPath(id)]
  {
    if PlainId(s.sessionId) && SessionPath(id) == s.SessionFile() {
      SessionPathInjective(id, s.sessionId);
    }
  }

  /** `ConsultingSession.load(session_id)`: reads the file `save` writes for that
      id, `None` where there is no such file or it does not decode. */
  method Load(sessionId: string, files: Files, freshId: string) returns (s: ConsultingSession?)
    ensures s == null <==> !PlainId(sessionId) || SessionPath(sessionId) !in files
    ensures s != null ==> fresh(s)
    ensures s != null ==>
              var d := files[SessionPath(sessionId)];
              && s.stage == d.stage && s.currentProblem == d.currentProblem
              && s.similarCases == d.similarCases && s.frameworkSections == d.frameworkSections
              && s.requiredData == d.requiredData
              && s.collectedData == (match d.collectedData case None => None case Some(c) => Some(FromFile(c)))
              && s.regeneratedSections == map[] && !s.agreedFramework
              && s.sessionId == (if d.sessionId == "" then freshId else d.sessionId)
  {
    var path := SessionPath(sessionId);
    if !PlainId(sessionId) || path !in files {
      s := null;
    } else {
      var d := files[path];
      var collected := match d.collectedData case None => None case Some(c) => Some(FromFile(c));
      s := new ConsultingSession(d.stage, d.currentProblem, d.similarCases, d.frameworkSections, d.requiredData,
                                 collected, d.regeneratedSections, Some(d.sessionId), freshId);
    }
  }

  /** Saving a session and loading it back by its id restores every saved
      field; the regenerated sections come back empty whatever was saved.
      Nothing comes back where `save()` raised. */
  method SaveAndLoad(s: ConsultingSession, files: Files, freshId: string) returns (back: ConsultingSession?)
    requires s.sessionId != ""
    ensures back == null <==> SaveRaises(s)
    ensures back != null ==>
              && back.stage == s.stage && back.currentProblem == s.currentProblem
              && back.similarCases == s.similarCases && back.frameworkSections == s.frameworkSections
              && back.requiredData == s.requiredData && back.collectedData == s.collectedData
              && back.regeneratedSections == map[] && back.sessionId == s.sessionId
  {
    var written := SaveTo(s, files);
    back := Load(s.sessionId, written, freshId);
    if back != null {
      match s.collectedData {
        case None =>
        case Some(c) =>
          var fields := CollectedJson(c).value.fields;
          assert FromFile(fields) == c;
      }
    }
  }
}
