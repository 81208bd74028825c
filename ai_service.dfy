/** Language-model metadata extraction (cinegram/services/ai_service.py): the empty-input
    guard, the code-fence cleanup of the reply and the placeholder-title filter. The HTTP call
    to the model and `json.loads` are oracles. */
module AiService {
  import opened Common
  import opened PyStrings

  /** The JSON values a decoded `title` or `year` can hold; an absent key reads as `JNull`
      (`dict.get`). Floats, lists and objects are `JOther`, with their `str()` and truthiness. */
  datatype JsonValue = JNull | JBool(b: bool) | JInt(i: int) | JStr(s: string) | JOther(shown: string, truthy: bool)

  /** What `json.loads` makes of the cleaned reply: an error, a non-object value
      (on which `.get` raises), or an object with its two entries. */
  datatype JsonDoc = Malformed | NotAnObject | Object(title: JsonValue, year: JsonValue)

  /** The model endpoint's reply: a failure the generic handler catches (connection, 45-second
      timeout, non-2xx status, a JSON body that is not an object, a non-string `response`), a
      2xx body that is not JSON at all (`response.json()` raises `JSONDecodeError`), or the
      `response` entry. */
  datatype HttpReply = RequestFailed | NotJson | Answered(response: Option<string>)

  /** The outcome of one call: a returned value, or an exception that leaves the function;
      with the prompt sent to the model, if any. */
  datatype Extraction =
    | Returned(candidate: Option<Candidate>, prompted: Option<string>)
    | Escaped(prompted: Option<string>)

  const Placeholders: seq<string> := ["unknown", "desconocido", "video", "none"]
  const Fence: string := "```"

  predicate JsonTruthy(v: JsonValue) {
    match v
    case JNull => false
    case JBool(b) => b
    case JInt(i) => i != 0
    case JStr(s) => s != []
    case JOther(_, t) => t
  }

  /** Python `str(v)` */
  function PyStr(v: JsonValue): string {
    match v
    case JNull => "None"
    case JBool(b) => if b then "True" else "False"
    case JInt(i) => IntToString(i)
    case JStr(s) => s
    case JOther(shown, _) => shown
  }

  /** The title filter: truthy and not a placeholder, compared in lower case. */
  predicate Accepts(title: JsonValue) {
    JsonTruthy(title) && Lower(PyStr(title)) !in Placeholders
  }

  /** The fixed instruction sent ahead of the text. */
  const Instructions: string :=
    "Analyze the following text which contains a messy movie filename or spammy description. "
    + "Extract ONLY the REAL MOVIE TITLE and YEAR (if present). "
    + "STRICTLY REMOVE terms like: 'Online', 'Pelicula', 'Completa', 'Latino', 'Castellano', 'HD', '1080p', 'HomeCine', 'Cuevana', 'Estreno'. "
    + "If the text is 'Perdidos en el Artico Online Pelicula', the title is just 'Perdidos en el Artico'. "
    + "Correct common typos. "
    + "Return ONLY a JSON object with keys 'title' (string) and 'year' (string or null). "
    + "Do not output markdown code blocks, just the raw JSON string.\n\n"

  /** The prompt sent to the model for `text`. */
  function Prompt(text: string): string {
    Instructions + "Text: " + text
  }

  /** `result.get('response', '{}').strip()`, or `None` when the request failed. */
  function Answer(reply: HttpReply): Option<string> {
    match reply
    case RequestFailed => None
    case NotJson => None
    case Answered(None) => Some("{}")
    case Answered(Some(s)) => Some(Strip(s))
  }

  function LeadingTicks(s: string): (n: nat)
    ensures n <= |s|
  {
    if s != [] && s[0] == '`' then 1 + LeadingTicks(s[1..]) else 0
  }

  lemma TicksFence(x: string)
    ensures StartsWith(x, Fence) <==> LeadingTicks(x) >= 3
  {
    if |x| >= 3 {
      assert x[..3] == [x[0], x[1], x[2]];
      assert LeadingTicks(x) >= 3 <==> x[0] == '`' && LeadingTicks(x[1..]) >= 2;
      assert LeadingTicks(x[1..]) >= 2 <==> x[1] == '`' && LeadingTicks(x[2..]) >= 1 by {
        assert x[1..][1..] == x[2..];
      }
    }
  }

  predicate NoFence(s: string) {
    forall i :: 0 <= i <= |s| ==> !OccursAt(s, Fence, i)
  }

  /** Removing every "```" leaves none, and keeps a short leading run of backticks. */
  lemma {:induction false} RemoveFencesLeavesNone(s: string)
    ensures NoFence(ReplaceAll(s, Fence, ""))
    ensures LeadingTicks(s) < 3 ==> LeadingTicks(ReplaceAll(s, Fence, "")) == LeadingTicks(s)
    decreases |s|
  {
    TicksFence(s);
    if StartsWith(s, Fence) {
      RemoveFencesLeavesNone(s[3..]);
      assert ReplaceAll(s, Fence, "") == ReplaceAll(s[3..], Fence, "");
    } else if s != [] {
      var rest := ReplaceAll(s[1..], Fence, "");
      var r := [s[0]] + rest;
      assert ReplaceAll(s, Fence, "") == r;
      RemoveFencesLeavesNone(s[1..]);
      assert r[1..] == rest;
      assert LeadingTicks(r) == LeadingTicks(s);
      TicksFence(r);
      forall i | 0 <= i <= |r| ensures !OccursAt(r, Fence, i) {
        if i > 0 { OccursShift(r, Fence, i - 1); }
      }
    }
  }

  /** The reply cleanup: when "```" occurs, every "```json" and then every "```" is removed. */
  function StripFences(answer: string): (r: string)
    ensures !Contains(r, Fence)
    ensures !Contains(answer, Fence) ==> r == answer
  {
    if Contains(answer, Fence) then
      var r := ReplaceAll(ReplaceAll(answer, "```json", ""), Fence, "");
      RemoveFencesLeavesNone(ReplaceAll(answer, "```json", ""));
      ContainsIff(r, Fence);
      r
    else answer
  }

  /** "```" occurs at `i` exactly when the three characters there are backticks. */
  lemma FenceAt(s: string, i: int)
    requires 0 <= i && i + 3 <= |s|
    ensures OccursAt(s, Fence, i) <==> s[i] == '`' && s[i + 1] == '`' && s[i + 2] == '`'
  {
    assert s[i..i + 3] == [s[i], s[i + 1], s[i + 2]];
  }

  /** In a fence-free body framed by line breaks, the only "```" that can follow starts after it. */
  lemma FramedBodyFenceFree(x: string)
    requires !Contains(x, Fence)
    ensures var u := "\n" + x + "\n"; forall i :: 0 <= i < |u| ==> !OccursAt(u + Fence, Fence, i)
  {
    var u := "\n" + x + "\n";
    var b := u + Fence;
    assert |b| == |x| + 5 && b[0] == '\n' && b[|x| + 1] == '\n';
    assert forall j :: 1 <= j <= |x| ==> b[j] == x[j - 1];
    ContainsIff(x, Fence);
    forall i | 0 <= i < |u| ensures !OccursAt(b, Fence, i) {
      if i + 3 <= |b| {
        FenceAt(b, i);
        if 1 <= i && i + 3 <= |x| + 1 {
          FenceAt(x, i - 1);
        }
      }
    }
  }

  /** After the opening tag, a fence-free body cannot hold a "```json". */
  lemma JsonTagAbsent(x: string)
    requires !Contains(x, Fence)
    ensures !Contains("\n" + x + "\n```", "```json")
  {
    var b := "\n" + x + "\n" + Fence;
    FramedBodyFenceFree(x);
    forall i | 0 <= i ensures !OccursAt(b, "```json", i) {
      if OccursAt(b, "```json", i) {
        assert b[i..i + 3] == b[i..i + 7][..3];
        assert OccursAt(b, Fence, i);
      }
    }
    ContainsIff(b, "```json");
    assert b == "\n" + x + "\n```";
  }

  /** Removing "```json" from the fenced reply drops only the opening tag. */
  lemma JsonTagRemoved(x: string)
    requires !Contains(x, Fence)
    ensures ReplaceAll("```json\n" + x + "\n```", "```json", "") == "\n" + x + "\n```"
  {
    var b := "\n" + x + "\n```";
    JsonTagAbsent(x);
    ReplaceAbsent(b, "```json", "");
    var a := "```json\n" + x + "\n```";
    assert a[..7] == "```json" && a[7..] == b;
    assert StartsWith(a, "```json");
  }

  /** Removing "```" from the rest drops only the closing fence. */
  lemma ClosingFenceRemoved(x: string)
    requires !Contains(x, Fence)
    ensures ReplaceAll("\n" + x + "\n```", Fence, "") == "\n" + x + "\n"
  {
    var u := "\n" + x + "\n";
    FramedBodyFenceFree(x);
    ReplaceAfterPrefix(u, Fence, Fence, "");
    assert ReplaceAll(Fence, Fence, "") == [] by {
      assert StartsWith(Fence, Fence) && Fence[3..] == [];
    }
    assert u + Fence == "\n" + x + "\n```";
  }

  /** The reply shape the cleanup exists for: a body without "```" wrapped in a "```json" fence
      keeps the body and the two line breaks around it. */
  lemma StripFencesFenced(x: string)
    requires !Contains(x, Fence)
    ensures StripFences("```json\n" + x + "\n```") == "\n" + x + "\n"
  {
    var a := "```json\n" + x + "\n```";
    assert a[..3] == Fence;
    assert Contains(a, Fence);
    JsonTagRemoved(x);
    ClosingFenceRemoved(x);
  }

  /** From the model's answer to the result: `json.loads` of the cleaned answer, then the
      title filter; a decoding failure or a non-object yields `None`. */
  function Interpret(answer: string, decode: string -> JsonDoc): (r: Option<Candidate>)
    ensures r.Some? <==> decode(StripFences(answer)).Object? && Accepts(decode(StripFences(answer)).title)
    ensures r.Some? ==> Lower(r.value.title) !in Placeholders
    ensures r.Some? ==> var doc := decode(StripFences(answer));
      r.value.title == PyStr(doc.title) && (r.value.year.Some? <==> JsonTruthy(doc.year))
      && (r.value.year.Some? ==> r.value.year.value == PyStr(doc.year))
  {
    match decode(StripFences(answer))
    case Object(title, year) =>
      if Accepts(title) then Some(Candidate(PyStr(title), if JsonTruthy(year) then Some(PyStr(year)) else None))
      else None
    case _ => None
  }

  /** `AiService.extract_metadata(text)` as written: no request for an empty text; otherwise
      one prompt, and a candidate only from an answered request whose cleaned answer passes
      `Interpret`. A 2xx body that is not JSON reaches the `JSONDecodeError` handler before
      `answer` is assigned, so the handler's own read of `answer` raises `UnboundLocalError`,
      which no handler of this `try` catches. */
  function ExtractMetadata(text: Option<string>, ask: string -> HttpReply, decode: string -> JsonDoc): (r: Extraction)
    ensures !Truthy(text) ==> r == Returned(None, None)
    ensures Truthy(text) ==> r.prompted == Some(Prompt(text.value))
    ensures r.Escaped? <==> Truthy(text) && ask(Prompt(text.value)) == NotJson
    ensures r.Returned? && r.candidate.Some? ==> Truthy(text) && Answer(ask(Prompt(text.value))).Some?
    ensures Truthy(text) && Answer(ask(Prompt(text.value))).Some? ==>
      r == Returned(Interpret(Answer(ask(Prompt(text.value))).value, decode), Some(Prompt(text.value)))
  {
    if !Truthy(text) then Returned(None, None)
    else
      var prompt := Prompt(text.value);
      var reply := ask(prompt);
      if reply == NotJson then Escaped(Some(prompt))
      else
        var found :=
          match Answer(reply)
          case None => None
          case Some(answer) => Interpret(answer, decode);
        Returned(found, Some(prompt))
  }

  /** `extract_metadata` as its handlers intend it: every failure, an undecodable body
      included, is logged and gives `None`; nothing escapes. */
  function ExtractMetadataIntended(text: Option<string>, ask: string -> HttpReply, decode: string -> JsonDoc): (r: Extraction)
    ensures r.Returned?
    ensures !Truthy(text) ==> r == Returned(None, None)
    ensures Truthy(text) ==> r.prompted == Some(Prompt(text.value))
    ensures r.candidate.Some? ==> Truthy(text) && Answer(ask(Prompt(text.value))).Some?
    ensures Truthy(text) && Answer(ask(Prompt(text.value))).Some? ==>
      r.candidate == Interpret(Answer(ask(Prompt(text.value))).value, decode)
  {
    if !Truthy(text) then Returned(None, None)
    else
      var prompt := Prompt(text.value);
      var found :=
        match Answer(ask(prompt))
        case None => None
        case Some(answer) => Interpret(answer, decode);
      Returned(found, Some(prompt))
  }

  /** The two agree on every reply but an undecodable body, where the code as written raises
      and the intended function returns `None`. */
  lemma UnboundAnswerOnlyOnNotJson(text: Option<string>, ask: string -> HttpReply, decode: string -> JsonDoc)
    ensures var written := ExtractMetadata(text, ask, decode);
      var intended := ExtractMetadataIntended(text, ask, decode);
      (written == intended <==> !(Truthy(text) && ask(Prompt(text.value)) == NotJson))
      && (written.Escaped? ==> intended == Returned(None, written.prompted))
  {
  }

  /** A concrete run: any text, and a model endpoint that answers 200 with an HTML page. */
  lemma UnboundAnswerExample(decode: string -> JsonDoc)
    ensures ExtractMetadata(Some("Matrix.1999.mkv"), _ => NotJson, decode) == Escaped(Some(Prompt("Matrix.1999.mkv")))
    ensures ExtractMetadataIntended(Some("Matrix.1999.mkv"), _ => NotJson, decode) == Returned(None, Some(Prompt("Matrix.1999.mkv")))
  {
  }
}
