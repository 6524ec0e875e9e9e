/**
 * `WindowsAIAssistant.run_interactive`: the read loop.
 *
 * Everything the loop reads from standard input is one sequence of events,
 * request lines and confirmation answers interleaved as they are typed. The
 * endpoint is `ask` (the outcome of asking about a stripped request), the
 * JSON decoder is `parse`, and `run` says how a process launch ends. The
 * loop's observable behaviour is the list of effects it produces: the
 * requests it sends, the proposals it offers for confirmation and the
 * commands it executes.
 *
 * The session specification is stated for any source of proposals
 * `respond`; the assistant's own is `Respond(ask, parse)`, which is
 * `get_ai_response`.
 */
module Console {
  import opened Wrappers
  import opened Text
  import opened Json
  import opened Interpreter
  import opened Executor

  /** One read from standard input. */
  datatype Event =
    | Line(text: string) // `input()` returned this line
    | EndOfInput         // `input()` raised EOFError
    | Interrupt          // the user pressed Ctrl-C while the loop waited for input

  /** What the loop does that the outside world can observe. */
  datatype Effect =
    | Asked(request: string)                    // get_ai_response(request)
    | Offered(command: JsonValue, warned: bool) // shown, with the safety warning or not, and confirmation asked
    | Ran(launch: Launch, result: ExecResult)   // execute_command(command)

  /** Why the loop stopped. */
  datatype Ending =
    | Quit        // the user typed quit
    | Interrupted // KeyboardInterrupt
    | Exhausted   // the modelled input has no more events

  datatype Session = Session(effects: seq<Effect>, ending: Ending)

  /** One pass through the loop body: the effects it had, and where the next pass reads. */
  datatype Step =
    | Continue(effects: seq<Effect>, next: nat)
    | Stop(effects: seq<Effect>, ending: Ending)

  predicate IsControlWord(key: string) {
    key == "models" || key == "help"
  }

  /** The confirmation test: lower-cased, not stripped, and exactly `y`. */
  predicate Confirms(answer: string) {
    Lower(answer) == "y"
  }

  /** Under ASCII lower-casing, the answers that confirm are exactly `y` and `Y`. */
  lemma ConfirmsExactly(answer: string)
    ensures Confirms(answer) <==> answer == "y" || answer == "Y"
  {
    if Confirms(answer) {
      assert |answer| == 1;
      assert Lower(answer) == [LowerChar(answer[0])];
      assert answer == [answer[0]];
    }
  }

  /** The warning is shown when `ai_response.get("safe", False)` is falsy. */
  function Warned(fields: map<string, JsonValue>): bool {
    !Truthy(FieldOr(fields, "safe", JBool(false)))
  }

  /**
   * The loop body on the event at `i`, with the exceptions its `try` catches
   * turned into `continue`: EOFError from `input()`, AttributeError when the
   * proposal is not a dict, KeyError when a proposal with a command has no
   * `explanation`.
   */
  function Turn(events: seq<Event>, i: nat, respond: string -> JsonValue, run: Launch -> ProcessOutcome): (t: Step)
    requires i < |events|
    ensures t.Continue? ==> i < t.next <= |events|
  {
    match events[i]
    case Interrupt => Stop([], Interrupted)
    case EndOfInput => Continue([], i + 1)
    case Line(raw) =>
      var request := Trim(raw);
      if Lower(request) == "quit" then Stop([], Quit)
      else if IsControlWord(Lower(request)) || request == [] then Continue([], i + 1)
      else Consider(events, i + 1, request, respond(request), run)
  }

  /** After asking about `request`: what the loop does with the proposal, reading on at `i`. */
  function Consider(events: seq<Event>, i: nat, request: string, proposal: JsonValue,
                    run: Launch -> ProcessOutcome): (t: Step)
    requires i <= |events|
    ensures t.Continue? ==> i <= t.next <= |events| && (t.next == i || t.next == i + 1)
  {
    var asked := [Asked(request)];
    if !proposal.JObject? then Continue(asked, i)
    else
      var command := Field(proposal.fields, "command");
      if !Truthy(command) || "explanation" !in proposal.fields then Continue(asked, i)
      else Confirm(events, i, asked + [Offered(command, Warned(proposal.fields))], command, run)
  }

  /** Reading the confirmation at `i` for `command`, after the effects `offered`. */
  function Confirm(events: seq<Event>, i: nat, offered: seq<Effect>, command: JsonValue,
                   run: Launch -> ProcessOutcome): (t: Step)
    requires i <= |events|
    ensures t.Continue? ==> i <= t.next <= |events| && (t.next == i || t.next == i + 1)
  {
    if i == |events| then Continue(offered, i)
    else match events[i]
      case Interrupt => Stop(offered, Interrupted)
      case EndOfInput => Continue(offered, i + 1)
      case Line(answer) =>
        if Confirms(answer) then
          Continue(offered + [Ran(Invocation(command, true), ExecuteCommand(command, true, run))], i + 1)
        else Continue(offered, i + 1)
  }

  /** The whole session from the event at `i` on. */
  function SessionFrom(events: seq<Event>, i: nat, respond: string -> JsonValue, run: Launch -> ProcessOutcome): Session
    requires i <= |events|
    decreases |events| - i
  {
    if i == |events| then Session([], Exhausted)
    else match Turn(events, i, respond, run)
      case Stop(effects, ending) => Session(effects, ending)
      case Continue(effects, next) =>
        Prepend(effects, SessionFrom(events, next, respond, run))
  }

  function Prepend(effects: seq<Effect>, s: Session): Session {
    Session(effects + s.effects, s.ending)
  }

  /** A turn that continues extends the session so far by its effects. */
  lemma Advance(events: seq<Event>, at: nat, next: nat, before: seq<Effect>, added: seq<Effect>,
                respond: string -> JsonValue, run: Launch -> ProcessOutcome)
    requires at < |events|
    requires Turn(events, at, respond, run) == Continue(added, next)
    requires SessionFrom(events, 0, respond, run) == Prepend(before, SessionFrom(events, at, respond, run))
    ensures SessionFrom(events, 0, respond, run) == Prepend(before + added, SessionFrom(events, next, respond, run))
  {
    var rest := SessionFrom(events, next, respond, run);
    assert before + (added + rest.effects) == (before + added) + rest.effects;
  }

  /** A turn that stops ends the session. */
  lemma Finish(events: seq<Event>, at: nat, before: seq<Effect>, added: seq<Effect>, ending: Ending,
               respond: string -> JsonValue, run: Launch -> ProcessOutcome)
    requires at < |events|
    requires Turn(events, at, respond, run) == Stop(added, ending)
    requires SessionFrom(events, 0, respond, run) == Prepend(before, SessionFrom(events, at, respond, run))
    ensures SessionFrom(events, 0, respond, run) == Session(before + added, ending)
  {
  }

  /** The proposals `get_ai_response` makes, given the endpoint and the JSON decoder. */
  function Respond(ask: string -> HttpOutcome, parse: string -> Decoded): string -> JsonValue {
    request => GetAiResponse(ask(request), parse)
  }

  /**
   * `run_interactive`: the loop runs until the user quits, interrupts, or
   * the input ends, and does exactly what the session specification says.
   */
  method RunInteractive(events: seq<Event>, ask: string -> HttpOutcome,
                        parse: string -> Decoded, run: Launch -> ProcessOutcome)
    returns (effects: seq<Effect>, ending: Ending)
    ensures Session(effects, ending) == SessionFrom(events, 0, Respond(ask, parse), run)
  {
    ghost var respond := Respond(ask, parse);
    effects := [];
    var i := 0;
    while i < |events|
      invariant i <= |events|
      invariant SessionFrom(events, 0, respond, run) == Prepend(effects, SessionFrom(events, i, respond, run))
      decreases |events| - i
    {
      ghost var before, at := effects, i;
      var event := events[i];
      i := i + 1;
      if event.Interrupt? {
        ending := Interrupted;
        Finish(events, at, before, [], ending, respond, run);
        return;
      }
      if event.EndOfInput? {
        Advance(events, at, i, before, [], respond, run);
        assert effects == before + [];
        continue;
      }
      var userInput := Trim(event.text);
      if Lower(userInput) == "quit" {
        ending := Quit;
        Finish(events, at, before, [], ending, respond, run);
        return;
      }
      if Lower(userInput) == "models" || Lower(userInput) == "help" || userInput == [] {
        Advance(events, at, i, before, [], respond, run);
        assert effects == before + [];
        continue;
      }
      var aiResponse := GetAiResponse(ask(userInput), parse);
      assert aiResponse == respond(userInput);
      assert Turn(events, at, respond, run) == Consider(events, i, userInput, aiResponse, run);
      ghost var added := [Asked(userInput)];
      effects := effects + [Asked(userInput)];
      if !aiResponse.JObject? {
        Advance(events, at, i, before, added, respond, run);
        assert effects == before + added;
        continue;
      }
      var command := Field(aiResponse.fields, "command");
      if !Truthy(command) {
        Advance(events, at, i, before, added, respond, run);
        assert effects == before + added;
        continue;
      }
      if "explanation" !in aiResponse.fields {
        Advance(events, at, i, before, added, respond, run);
        assert effects == before + added;
        continue;
      }
      effects := effects + [Offered(command, Warned(aiResponse.fields))];
      added := added + [Offered(command, Warned(aiResponse.fields))];
      assert effects == before + added;
      assert Turn(events, at, respond, run) == Confirm(events, i, added, command, run);
      if i == |events| {
        Advance(events, at, i, before, added, respond, run);
        assert effects == before + added;
        continue;
      }
      var confirm := events[i];
      i := i + 1;
      if confirm.Interrupt? {
        ending := Interrupted;
        Finish(events, at, before, added, ending, respond, run);
        return;
      }
      if confirm.Line? && Confirms(confirm.text) {
        var result := ExecuteCommand(command, true, run);
        effects := effects + [Ran(Invocation(command, true), result)];
        added := added + [Ran(Invocation(command, true), result)];
      }
      Advance(events, at, i, before, added, respond, run);
      assert effects == before + added;
    }
    ending := Exhausted;
  }

  // Properties of one pass through the loop.

  /** `quit`, in any case and with any surrounding whitespace, ends the session at once. */
  lemma QuitEndsSession(events: seq<Event>, i: nat, respond: string -> JsonValue, run: Launch -> ProcessOutcome)
    requires i < |events| && events[i].Line? && Lower(Trim(events[i].text)) == "quit"
    ensures SessionFrom(events, i, respond, run) == Session([], Quit)
  {
  }

  /** `models`, `help` and a blank line move on to the next line without asking the endpoint. */
  lemma SkippedInputsNeverAsk(events: seq<Event>, i: nat, respond: string -> JsonValue, run: Launch -> ProcessOutcome)
    requires i < |events| && events[i].Line?
    requires var key := Lower(Trim(events[i].text)); key == "models" || key == "help" || key == []
    ensures Turn(events, i, respond, run) == Continue([], i + 1)
  {
    var request := Trim(events[i].text);
    if request != [] {
      assert |Lower(request)| == |request| > 0;
    }
  }

  predicate HasRun(effects: seq<Effect>) {
    exists k :: 0 <= k < |effects| && effects[k].Ran?
  }

  /**
   * Every condition under which a pass executes a command: the event is a
   * line that is not a keyword and not blank; the proposal for its stripped
   * text is a dict whose `command` is truthy and which has an `explanation`;
   * and the next event is a line that lower-cases, without stripping, to
   * exactly `y`. The `safe` flag is not among them.
   */
  predicate ExecutionConditions(events: seq<Event>, i: nat, respond: string -> JsonValue)
    requires i < |events|
  {
    && events[i].Line?
    && var request := Trim(events[i].text);
    && Lower(request) != "quit" && !IsControlWord(Lower(request)) && request != []
    && var proposal := respond(request);
    && proposal.JObject?
    && Truthy(Field(proposal.fields, "command"))
    && "explanation" in proposal.fields
    && i + 1 < |events| && events[i + 1].Line? && Confirms(events[i + 1].text)
  }

  /**
   * A pass executes a command exactly when the execution conditions hold,
   * and then it executes the proposal's command, once, in PowerShell.
   */
  lemma TurnExecutesExactlyWhen(events: seq<Event>, i: nat, respond: string -> JsonValue, run: Launch -> ProcessOutcome)
    requires i < |events|
    ensures HasRun(Turn(events, i, respond, run).effects) <==> ExecutionConditions(events, i, respond)
    ensures ExecutionConditions(events, i, respond) ==>
      var command := Field(respond(Trim(events[i].text)).fields, "command");
      Turn(events, i, respond, run) ==
        Continue([Asked(Trim(events[i].text)),
                  Offered(command, Warned(respond(Trim(events[i].text)).fields)),
                  Ran(Launch(PowerShell, command, 30), ExecuteCommand(command, true, run))], i + 2)
  {
    var t := Turn(events, i, respond, run);
    if !events[i].Line? {
      assert t.effects == [];
    } else {
      var request := Trim(events[i].text);
      if Lower(request) == "quit" || IsControlWord(Lower(request)) || request == [] {
        assert t.effects == [];
      } else {
        var proposal := respond(request);
        assert t == Consider(events, i + 1, request, proposal, run);
        if !proposal.JObject? || !Truthy(Field(proposal.fields, "command")) || "explanation" !in proposal.fields {
          assert t.effects == [Asked(request)];
        } else {
          var command := Field(proposal.fields, "command");
          var offered := [Asked(request), Offered(command, Warned(proposal.fields))];
          assert t == Confirm(events, i + 1, offered, command, run);
          if i + 1 < |events| && events[i + 1].Line? && Confirms(events[i + 1].text) {
            assert t.effects[2].Ran?;
          } else {
            assert t.effects == offered;
          }
        }
      }
    }
  }

  /** The effects of one pass: nothing, a request, a request and an offer, or those and a run. */
  lemma TurnShape(events: seq<Event>, i: nat, respond: string -> JsonValue, run: Launch -> ProcessOutcome)
    requires i < |events|
    ensures var e := Turn(events, i, respond, run).effects;
      && |e| <= 3
      && (|e| >= 1 ==> e[0].Asked?)
      && (|e| >= 2 ==> e[1].Offered?)
      && (|e| == 3 ==> e[2].Ran? && ExecutionConditions(events, i, respond)
                       && e[2].launch == Invocation(e[1].command, true) && Truthy(e[1].command))
  {
    var t := Turn(events, i, respond, run);
    if events[i].Line? {
      var request := Trim(events[i].text);
      if !(Lower(request) == "quit" || IsControlWord(Lower(request)) || request == []) {
        var proposal := respond(request);
        assert t == Consider(events, i + 1, request, proposal, run);
        if proposal.JObject? && Truthy(Field(proposal.fields, "command")) && "explanation" in proposal.fields {
          var command := Field(proposal.fields, "command");
          var offered := [Asked(request), Offered(command, Warned(proposal.fields))];
          assert t == Confirm(events, i + 1, offered, command, run);
        }
      }
    }
  }

  /**
   * Whether the proposal is marked safe changes only the warning shown
   * with it: the requests, the command offered, what is executed and where
   * the loop goes on are the same.
   */
  lemma SafeFlagOnlyWarns(events: seq<Event>, i: nat, request: string, fields: map<string, JsonValue>,
                          safe: JsonValue, run: Launch -> ProcessOutcome)
    requires i <= |events|
    ensures var t1, t2 := Consider(events, i, request, JObject(fields), run),
                          Consider(events, i, request, JObject(fields["safe" := safe]), run);
      && t1.Continue? == t2.Continue?
      && (t1.Continue? ==> t1.next == t2.next)
      && (t1.Stop? ==> t1.ending == t2.ending)
      && |t1.effects| == |t2.effects|
      && forall k :: 0 <= k < |t1.effects| ==>
           if t1.effects[k].Offered? then t2.effects[k].Offered? && t1.effects[k].command == t2.effects[k].command
           else t1.effects[k] == t2.effects[k]
  {
    var f2 := fields["safe" := safe];
    assert Field(f2, "command") == Field(fields, "command");
    assert ("explanation" in f2) == ("explanation" in fields);
  }

  // Properties of whole sessions.

  /**
   * Every execution in a session comes straight after the offer of the same
   * command, which is truthy, and runs in PowerShell.
   */
  predicate RunsFollowOffers(effects: seq<Effect>) {
    forall k :: 0 <= k < |effects| && effects[k].Ran? ==>
      && 0 < k && effects[k - 1].Offered?
      && effects[k].launch == Invocation(effects[k - 1].command, true)
      && effects[k].launch.shell == PowerShell
      && Truthy(effects[k].launch.command)
  }

  lemma RunsFollowOffersAppend(a: seq<Effect>, b: seq<Effect>)
    requires RunsFollowOffers(a) && RunsFollowOffers(b)
    requires b != [] ==> !b[0].Ran?
    ensures RunsFollowOffers(a + b)
  {
    var ab := a + b;
    forall k | 0 <= k < |ab| && ab[k].Ran?
      ensures 0 < k && ab[k - 1].Offered? && ab[k].launch == Invocation(ab[k - 1].command, true)
    {
      if k >= |a| {
        assert ab[k] == b[k - |a|];
        assert ab[k - 1] == b[k - |a| - 1];
      }
    }
  }

  lemma TurnRunsFollowOffers(events: seq<Event>, i: nat, respond: string -> JsonValue, run: Launch -> ProcessOutcome)
    requires i < |events|
    ensures RunsFollowOffers(Turn(events, i, respond, run).effects)
  {
    TurnShape(events, i, respond, run);
    var e := Turn(events, i, respond, run).effects;
    if |e| == 3 {
      assert e[2].launch.shell == PowerShell;
    }
  }

  lemma {:induction false} SessionRunsFollowOffers(events: seq<Event>, i: nat, respond: string -> JsonValue, run: Launch -> ProcessOutcome)
    requires i <= |events|
    ensures RunsFollowOffers(SessionFrom(events, i, respond, run).effects)
    decreases |events| - i
  {
    if i < |events| {
      TurnRunsFollowOffers(events, i, respond, run);
      var t := Turn(events, i, respond, run);
      if t.Continue? {
        var rest := SessionFrom(events, t.next, respond, run);
        SessionRunsFollowOffers(events, t.next, respond, run);
        RunsFollowOffersAppend(t.effects, rest.effects);
        assert SessionFrom(events, i, respond, run).effects == t.effects + rest.effects;
      }
    }
  }

  /**
   * Nothing is executed in a session in which the user never answers with
   * a line that lower-cases to `y`: every execution needs a confirmation.
   */
  lemma {:induction false} NoConfirmationNeverRuns(events: seq<Event>, i: nat, respond: string -> JsonValue,
                                                   run: Launch -> ProcessOutcome)
    requires i <= |events|
    requires forall j :: i <= j < |events| && events[j].Line? ==> !Confirms(events[j].text)
    ensures !HasRun(SessionFrom(events, i, respond, run).effects)
    decreases |events| - i
  {
    if i < |events| {
      var t := Turn(events, i, respond, run);
      TurnExecutesExactlyWhen(events, i, respond, run);
      assert !HasRun(t.effects);
      if t.Continue? {
        NoConfirmationNeverRuns(events, t.next, respond, run);
      }
    }
  }

  /** A proposal that `run_interactive` will not execute: not a dict, or a falsy `command`. */
  predicate ProposesNothing(proposal: JsonValue) {
    !proposal.JObject? || !Truthy(Field(proposal.fields, "command"))
  }

  /** When no proposal has a command, no command is ever executed, whatever the user types. */
  lemma {:induction false} NoCommandNeverRuns(events: seq<Event>, i: nat, respond: string -> JsonValue,
                                              run: Launch -> ProcessOutcome)
    requires i <= |events|
    requires forall request :: ProposesNothing(respond(request))
    ensures !HasRun(SessionFrom(events, i, respond, run).effects)
    decreases |events| - i
  {
    if i < |events| {
      var t := Turn(events, i, respond, run);
      TurnExecutesExactlyWhen(events, i, respond, run);
      if events[i].Line? {
        assert ProposesNothing(respond(Trim(events[i].text)));
      }
      assert !HasRun(t.effects);
      if t.Continue? {
        NoCommandNeverRuns(events, t.next, respond, run);
      }
    }
  }

  /** The outcomes for which `get_ai_response` reports a failure. */
  predicate IsFailedCall(outcome: HttpOutcome) {
    !outcome.Replied? || outcome.status != 200 || outcome.response.Unreadable?
  }

  /**
   * When every call to the endpoint fails (the server is down, answers with
   * an error status, or sends a body that cannot be read), no command is
   * ever executed, whatever the user types.
   */
  lemma FailedCallsNeverRun(events: seq<Event>, ask: string -> HttpOutcome,
                            parse: string -> Decoded, run: Launch -> ProcessOutcome)
    requires forall request :: IsFailedCall(ask(request))
    ensures !HasRun(SessionFrom(events, 0, Respond(ask, parse), run).effects)
  {
    var respond := Respond(ask, parse);
    forall request
      ensures ProposesNothing(respond(request))
    {
      FailuresProposeNothing(ask(request), parse);
    }
    NoCommandNeverRuns(events, 0, respond, run);
  }

  /** A pass that stops, or continues before the end, reads only `events` and so ignores what follows. */
  lemma TurnIgnoresLaterInput(events: seq<Event>, more: seq<Event>, i: nat, respond: string -> JsonValue, run: Launch -> ProcessOutcome)
    requires i < |events|
    requires var t := Turn(events, i, respond, run); t.Stop? || !(|t.effects| == 2 && t.next == i + 1)
    ensures Turn(events + more, i, respond, run) == Turn(events, i, respond, run)
  {
    assert (events + more)[i] == events[i];
    if i + 1 < |events| {
      assert (events + more)[i + 1] == events[i + 1];
    }
  }

  /**
   * Once the user quits or interrupts, nothing typed afterwards has any
   * effect: the session over a longer input is the same session.
   */
  lemma {:induction false} StoppedSessionIgnoresLaterInput(events: seq<Event>, more: seq<Event>, i: nat,
      respond: string -> JsonValue, run: Launch -> ProcessOutcome)
    requires i <= |events|
    requires SessionFrom(events, i, respond, run).ending != Exhausted
    ensures SessionFrom(events + more, i, respond, run) == SessionFrom(events, i, respond, run)
    decreases |events| - i
  {
    var t := Turn(events, i, respond, run);
    if t.Continue? {
      TurnIgnoresLaterInput(events, more, i, respond, run);
      StoppedSessionIgnoresLaterInput(events, more, t.next, respond, run);
    } else {
      TurnIgnoresLaterInput(events, more, i, respond, run);
    }
  }
}
