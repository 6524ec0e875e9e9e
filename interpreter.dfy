/**
 * `WindowsAIAssistant.get_ai_response`: turning the outcome of one call to
 * the generation endpoint into a command proposal.
 *
 * The network call itself is not modelled: its outcome is an input
 * (`HttpOutcome`), and `json.loads` is the parameter `parse`, from text
 * to how decoding it ends (`Decoded`).
 */
module Interpreter {
  import opened Wrappers
  import opened Text
  import opened Json

  /** Reading `response.json()["response"].strip()` from a 200 reply. */
  datatype ResponseField =
    | Present(text: string)      // the `response` field is a string
    | Unreadable(message: string) // decoding the body, the lookup or `strip` raised; `str(e)`

  /** How the POST to `/api/generate` ended. */
  datatype HttpOutcome =
    | CannotConnect                                // requests.exceptions.ConnectionError
    | Raised(message: string)                      // any other exception; `str(e)`
    | Replied(status: int, response: ResponseField) // the server answered with this status

  /** How `json.loads` on a text ends. */
  datatype Decoded =
    | Value(value: JsonValue)   // the decoded value
    | DecodeError               // json.JSONDecodeError, which the parse handlers catch
    | Raises(message: string)   // any other exception (RecursionError, ValueError); `str(e)`

  /** The four failures a proposal can report. */
  datatype Failure =
    | Unreachable
    | Crashed(message: string)
    | BadStatus(status: int)
    | Unparsable(content: string)

  // Written in two pieces: the verifier reads characters of shorter literals more easily.
  const ConnectionMessage := "Error: Cannot connect to Ollama server." + " Make sure Ollama is running."
  const StatusPrefix := "Error: Ollama server returned status "
  const ParsePrefix := "Error parsing AI response: "
  const CrashPrefix := "Error getting AI response: "

  /** The `explanation` text of the proposal that reports `f`. */
  function Explanation(f: Failure): string {
    match f
    case Unreachable => ConnectionMessage
    case Crashed(m) => CrashPrefix + m
    case BadStatus(code) => StatusPrefix + IntToString(code)
    case Unparsable(content) => ParsePrefix + content
  }

  lemma AfterPrefix(p: string, a: string, b: string)
    requires p + a == p + b
    ensures a == b
  {
    assert a == (p + a)[|p|..];
    assert b == (p + b)[|p|..];
  }

  /** The first eight characters of each kind of explanation. */
  function Head(f: Failure): string {
    match f
    case Unreachable => "Error: C"
    case Crashed(_) => "Error ge"
    case BadStatus(_) => "Error: O"
    case Unparsable(_) => "Error pa"
  }

  lemma ExplanationHead(f: Failure)
    ensures |Explanation(f)| >= 8 && Explanation(f)[..8] == Head(f)
  {
    match f
    case Unreachable =>
      var first := "Error: Cannot connect to Ollama server.";
      assert ConnectionMessage[..8] == first[..8];
    case Crashed(m) => assert (CrashPrefix + m)[..8] == CrashPrefix[..8];
    case BadStatus(code) =>
      assert (StatusPrefix + IntToString(code))[..8] == StatusPrefix[..8];
    case Unparsable(content) => assert (ParsePrefix + content)[..8] == ParsePrefix[..8];
  }

  /**
   * The failures are distinguishable from their explanation alone: the text
   * determines the kind of failure and the message, status code or content
   * it carries.
   */
  lemma ExplanationInjective(f: Failure, g: Failure)
    requires Explanation(f) == Explanation(g)
    ensures f == g
  {
    ExplanationHead(f);
    ExplanationHead(g);
    assert Head(f) == Head(g);
    match f
    case Unreachable =>
    case Crashed(m) =>
      AfterPrefix(CrashPrefix, m, g.message);
    case BadStatus(code) =>
      AfterPrefix(StatusPrefix, IntToString(code), IntToString(g.status));
      IntToStringInjective(code, g.status);
    case Unparsable(content) =>
      AfterPrefix(ParsePrefix, content, g.content);
  }

  /** `r` is a failure proposal: no command, not safe, and this explanation. */
  predicate ReportsFailure(r: JsonValue, explanation: string) {
    && r.JObject?
    && Field(r.fields, "command") == JNull
    && Field(r.fields, "safe") == JBool(false)
    && Field(r.fields, "explanation") == JString(explanation)
  }

  /** The dict `{"command": None, "explanation": ..., "safe": False}`. */
  function ErrorProposal(f: Failure): (r: JsonValue)
    ensures ReportsFailure(r, Explanation(f))
    ensures !Truthy(Field(r.fields, "command"))
  {
    JObject(map["command" := JNull, "explanation" := JString(Explanation(f)), "safe" := JBool(false)])
  }

  /** The first index of `c` in `s`. */
  function FirstIndexOf(s: string, c: char): (r: Option<nat>)
    ensures r.Some? ==> r.value < |s| && s[r.value] == c
    ensures forall k :: 0 <= k < |s| && s[k] == c ==> r.Some? && r.value <= k
  {
    if s == [] then None
    else if s[0] == c then Some(0)
    else match FirstIndexOf(s[1..], c)
      case None => None
      case Some(k) => Some(k + 1)
  }

  /** The last index of `c` in `s`. */
  function LastIndexOf(s: string, c: char): (r: Option<nat>)
    ensures r.Some? ==> r.value < |s| && s[r.value] == c
    ensures forall k :: 0 <= k < |s| && s[k] == c ==> r.Some? && k <= r.value
  {
    if s == [] then None
    else if s[|s| - 1] == c then Some(|s| - 1)
    else LastIndexOf(s[..|s| - 1], c)
  }

  /** The half-open range `s[start..end]`. */
  datatype Span = Span(start: nat, end: nat)

  /**
   * `s[start..end]` matches the pattern `\{.*\}` under `re.DOTALL`: it opens
   * with `{`, closes with a later `}`, and `.` matches anything in between.
   */
  ghost predicate IsBraceMatch(s: string, start: int, end: int) {
    0 <= start && start + 2 <= end <= |s| && s[start] == '{' && s[end - 1] == '}'
  }

  /**
   * The span `re.search(r'\{.*\}', s, re.DOTALL)` finds: from the first `{`
   * to the last `}`, when that `}` comes after it.
   */
  function FindBraceSpan(s: string): Option<Span> {
    match FirstIndexOf(s, '{')
    case None => None
    case Some(i) =>
      match LastIndexOf(s, '}')
      case None => None
      case Some(k) => if i < k then Some(Span(i, k + 1)) else None
  }

  /**
   * The span is the regular-expression match: a match exists exactly when a
   * span is found, and the span is the match with the leftmost start and,
   * greedily, the furthest end from there. Its start is the first `{` of
   * `s` and its end is just past the last `}`.
   */
  lemma BraceSpanIsLeftmostLongestMatch(s: string)
    ensures FindBraceSpan(s).None? <==> forall p, e :: !IsBraceMatch(s, p, e)
    ensures FindBraceSpan(s).Some? ==> var sp := FindBraceSpan(s).value;
      && IsBraceMatch(s, sp.start, sp.end)
      && (forall p, e :: IsBraceMatch(s, p, e) ==> sp.start <= p && (p == sp.start ==> e <= sp.end))
      && (forall k :: 0 <= k < sp.start ==> s[k] != '{')
      && (forall k :: sp.end <= k < |s| ==> s[k] != '}')
  {
    var first, last := FirstIndexOf(s, '{'), LastIndexOf(s, '}');
    if first.Some? && last.Some? {
      var i, k := first.value, last.value;
      if i < k {
        assert IsBraceMatch(s, i, k + 1);
      } else {
        assert forall p, e :: IsBraceMatch(s, p, e) ==> i <= p;
        assert forall p, e :: IsBraceMatch(s, p, e) ==> e <= k as int + 1;
      }
    }
  }

  /**
   * No span is found exactly when no `}` follows the first `{`, which
   * includes the text having no `{` at all.
   */
  lemma NoSpanIffNoCloseAfterFirstOpen(s: string)
    ensures FindBraceSpan(s).None? <==>
      (FirstIndexOf(s, '{').None? || forall k :: FirstIndexOf(s, '{').value < k < |s| ==> s[k] != '}')
  {
    BraceSpanIsLeftmostLongestMatch(s);
    if FirstIndexOf(s, '{').Some? {
      var i := FirstIndexOf(s, '{').value;
      if exists k :: i < k < |s| && s[k] == '}' {
        var k :| i < k < |s| && s[k] == '}';
        assert IsBraceMatch(s, i, k + 1);
      }
    }
  }

  /** `json_match.group()`: the text of the span, when there is one. */
  function BraceSpan(s: string): Option<string> {
    match FindBraceSpan(s)
    case None => None
    case Some(sp) => Some(s[sp.start..sp.end])
  }

  /** The extracted text opens with `{`, closes with `}`, and is a contiguous piece of `s`. */
  lemma BraceSpanShape(s: string)
    ensures BraceSpan(s).Some? <==> FindBraceSpan(s).Some?
    ensures BraceSpan(s).Some? ==> var t, sp := BraceSpan(s).value, FindBraceSpan(s).value;
      && |t| >= 2 && t[0] == '{' && t[|t| - 1] == '}'
      && sp.end <= |s| && t == s[sp.start..sp.end]
  {
    BraceSpanIsLeftmostLongestMatch(s);
  }

  /**
   * The parsing policy on the stripped reply text: the whole text first;
   * only when that fails to decode, the brace span; and when both fail to
   * decode, the parse failure proposal. Whatever `parse` yields is returned
   * as it is, without checking its shape. Any other exception from the
   * decoder escapes both parse handlers and is reported by the outer one.
   */
  function InterpretContent(content: string, parse: string -> Decoded): JsonValue {
    match parse(content)
    case Value(v) => v
    case Raises(m) => ErrorProposal(Crashed(m))
    case DecodeError =>
      match BraceSpan(content)
      case Some(span) =>
        (match parse(span)
         case Value(v) => v
         case Raises(m) => ErrorProposal(Crashed(m))
         case DecodeError => ErrorProposal(Unparsable(content)))
      case None => ErrorProposal(Unparsable(content))
  }

  /**
   * What the policy yields: the whole text's value when it decodes;
   * otherwise, when it fails to decode, the brace span's value when there is
   * a span and it decodes; the parse failure proposal, embedding the text
   * verbatim, when neither decodes; and the exception's text whenever the
   * decoder raises anything else.
   */
  lemma InterpretContentPolicy(content: string, parse: string -> Decoded)
    ensures parse(content).Value? ==> InterpretContent(content, parse) == parse(content).value
    ensures parse(content).Raises? ==>
      ReportsFailure(InterpretContent(content, parse), CrashPrefix + parse(content).message)
    ensures parse(content).DecodeError? && BraceSpan(content).Some? && parse(BraceSpan(content).value).Value? ==>
      InterpretContent(content, parse) == parse(BraceSpan(content).value).value
    ensures parse(content).DecodeError? && BraceSpan(content).Some? && parse(BraceSpan(content).value).Raises? ==>
      ReportsFailure(InterpretContent(content, parse), CrashPrefix + parse(BraceSpan(content).value).message)
    ensures parse(content).DecodeError? && (BraceSpan(content).None? || parse(BraceSpan(content).value).DecodeError?) ==>
      ReportsFailure(InterpretContent(content, parse), ParsePrefix + content)
  {
  }

  /**
   * `parse` is consulted at most at the whole text and at its brace span,
   * and at the span only when the whole text fails to decode: two decoders
   * that agree there give the same proposal.
   */
  lemma ParseAttempts(content: string, p1: string -> Decoded, p2: string -> Decoded)
    requires p1(content) == p2(content)
    requires p1(content).DecodeError? && BraceSpan(content).Some? ==>
      p1(BraceSpan(content).value) == p2(BraceSpan(content).value)
    ensures InterpretContent(content, p1) == InterpretContent(content, p2)
  {
  }

  /** `get_ai_response`: the proposal for one outcome of the endpoint call. */
  function GetAiResponse(outcome: HttpOutcome, parse: string -> Decoded): JsonValue {
    match outcome
    case CannotConnect => ErrorProposal(Unreachable)
    case Raised(m) => ErrorProposal(Crashed(m))
    case Replied(status, response) =>
      if status == 200 then
        match response
        case Present(text) => InterpretContent(Trim(text), parse)
        case Unreadable(m) => ErrorProposal(Crashed(m))
      else ErrorProposal(BadStatus(status))
  }

  /**
   * The proposal for each outcome: the fixed message when the server cannot
   * be reached, the exception's text for any other exception (including one
   * raised while reading a 200 reply), the status code for a non-200 reply,
   * and the parsing policy on the stripped `response` text otherwise.
   */
  lemma GetAiResponseReports(outcome: HttpOutcome, parse: string -> Decoded)
    ensures outcome.CannotConnect? ==> ReportsFailure(GetAiResponse(outcome, parse), ConnectionMessage)
    ensures outcome.Raised? ==> ReportsFailure(GetAiResponse(outcome, parse), CrashPrefix + outcome.message)
    ensures outcome.Replied? && outcome.status != 200 ==>
      ReportsFailure(GetAiResponse(outcome, parse), StatusPrefix + IntToString(outcome.status))
    ensures outcome.Replied? && outcome.status == 200 && outcome.response.Unreadable? ==>
      ReportsFailure(GetAiResponse(outcome, parse), CrashPrefix + outcome.response.message)
    ensures outcome.Replied? && outcome.status == 200 && outcome.response.Present? ==>
      GetAiResponse(outcome, parse) == InterpretContent(Trim(outcome.response.text), parse)
  {
  }

  /** Every failed call yields a proposal with no command that is not safe. */
  lemma FailuresProposeNothing(outcome: HttpOutcome, parse: string -> Decoded)
    requires !outcome.Replied? || outcome.status != 200 || outcome.response.Unreadable?
    ensures exists f :: ReportsFailure(GetAiResponse(outcome, parse), Explanation(f))
  {
    match outcome
    case CannotConnect => assert Explanation(Unreachable) == ConnectionMessage;
    case Raised(m) => assert Explanation(Crashed(m)) == CrashPrefix + m;
    case Replied(status, response) =>
      if status != 200 {
        assert Explanation(BadStatus(status)) == StatusPrefix + IntToString(status);
      } else {
        assert Explanation(Crashed(response.message)) == CrashPrefix + response.message;
      }
  }
}
