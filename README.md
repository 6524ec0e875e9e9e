# Windows AI command assistant — a Dafny model of its core

`ai_terminal.py` is an interactive terminal assistant. It reads a request in
natural language, sends it with a fixed system prompt to a local Ollama
server, and reads the reply as a JSON proposal
`{"command": …, "explanation": …, "safe": …}`. It shows the proposal, with a
warning when the proposal is not marked safe, and runs the command in
PowerShell only when the user answers `y`.

This project models three parts of `WindowsAIAssistant` and proves what they
promise:

- `get_ai_response` (module `Interpreter`), which turns the outcome of the
  HTTP call into a proposal. It parses the stripped reply text. When that
  fails to decode, it parses the `\{.*\}` span, which runs from the first
  `{` to the last `}`. When both fail to decode, when the decoder raises
  anything else, or when the call itself failed, it builds a failure
  proposal. There are four failure proposals. The connection failure has a
  fixed explanation. The other three put the reply text, the status code or
  the exception's message after their own fixed prefix.
- `execute_command` (module `Executor`), which turns how the process ended
  into the result dict.
- `run_interactive` (module `Console`), the read loop:
  - it classifies the stripped input as `quit`, `models`, `help`, blank, or
    a request;
  - it gates execution on the proposal's `command`, on the presence of
    `explanation`, and on an answer of exactly `y` after lower-casing;
  - it catches the exceptions the loop survives: EOFError, AttributeError
    on a non-dict proposal, and KeyError on a missing `explanation`.

  `RunInteractive` is the loop as a method with a `while` loop. It is proved
  equal to the session specification `SessionFrom`, and the lemmas about
  sessions are proved about `SessionFrom`.

Supporting modules:

- `Text` holds Python's `str.strip` with the full `isspace` set, ASCII
  lower-casing, and the decimal rendering behind `str(status_code)`.
- `Json` holds the decoded JSON values, Python truthiness, and `dict.get`.
- `Wrappers` holds `Option`.

The outside world is passed in as functions:

- `ask: string -> HttpOutcome` is the HTTP call for a stripped request. It
  stands for building the payload and calling `requests.post`.
- `parse: string -> Decoded` is `json.loads`. It yields a value, or
  `DecodeError` for `JSONDecodeError`, or `Raises(message)` for any other
  exception, such as `RecursionError` on deeply nested input.
- `run: Launch -> ProcessOutcome` is `subprocess.run`.
- Standard input is a finite sequence of `Event`s. Request lines and
  confirmation answers come in the order they are typed.

## Model

| member | source | states |
|---|---|---|
| Text.TrimStrips | ai_terminal.py:58 | `strip()` removes a whitespace-only prefix and suffix (Python's whitespace set), and what is left is a contiguous piece with no whitespace at either end |
| Text.DecimalRoundTrip | ai_terminal.py:81 | the decimal text of a status code reads back as the same number |
| Text.IntToStringInjective | ai_terminal.py:81 | distinct status codes give distinct texts |
| Interpreter.ErrorProposal | ai_terminal.py:73-96 | a failure proposal has `command` None, `safe` False and the failure's explanation, so its command is falsy |
| Interpreter.ExplanationInjective | ai_terminal.py:73-96 | the four explanation texts identify the failure: equal explanations come from the same failure with the same message, status or content |
| Interpreter.FirstIndexOf | ai_terminal.py:66 | the index found holds the character and no earlier index does; none is found only when the character is absent |
| Interpreter.LastIndexOf | ai_terminal.py:66 | the index found holds the character and no later index does; none is found only when the character is absent |
| Interpreter.BraceSpanIsLeftmostLongestMatch | ai_terminal.py:66 | a `\{.*\}` match with DOTALL exists exactly when a span is found; the span is a match, starts leftmost, ends furthest (greedy), starts at the first `{` and ends after the last `}` |
| Interpreter.NoSpanIffNoCloseAfterFirstOpen | ai_terminal.py:66-67 | the search fails exactly when there is no `{`, or no `}` comes after the first `{` |
| Interpreter.BraceSpanShape | ai_terminal.py:66-69 | `json_match.group()` opens with `{`, closes with `}`, has at least two characters and is the slice of the text at the span |
| Interpreter.InterpretContentPolicy | ai_terminal.py:61-96 | the value of the whole text when it decodes; after a decode error, the brace span's value when there is a span and it decodes; the parse-failure proposal with the raw text in its explanation when neither decodes; the exception's text when the decoder raises anything other than a decode error, at either attempt |
| Interpreter.ParseAttempts | ai_terminal.py:61-71 | the decoder is consulted only on the whole text and, after a decode error there, on the span: two decoders that agree at those texts give the same proposal |
| Interpreter.GetAiResponseReports | ai_terminal.py:57-96 | the proposal for each outcome: the connection message, the exception text (including one raised while reading a 200 reply), the status text for a non-200 reply, and the parsing policy on the stripped `response` text otherwise |
| Interpreter.FailuresProposeNothing | ai_terminal.py:78-96 | every failed call gives a failure proposal |
| Executor.ExecuteCommand | ai_terminal.py:98-135 | PowerShell exactly when `use_powershell`, the command passed unchanged, a 30-second timeout; success exactly when the process completed, carrying stdout, stderr and the exit code; the timeout message on a timeout; `str(e)` for any other exception |
| Executor.ResultReportsOutcome | ai_terminal.py:119-135 | reading the result back gives the process outcome, except for a launch failure whose message equals the timeout text |
| Executor.NonzeroExitSucceeds | ai_terminal.py:119-124 | a process that exits with a nonzero code is still a success |
| Console.Turn | ai_terminal.py:173-254 | a pass that continues resumes strictly later in the input, and never beyond its end |
| Console.Consider | ai_terminal.py:213-234 | after the request, the loop reads at most one further event, the confirmation |
| Console.Confirm | ai_terminal.py:228-234 | reading the confirmation consumes at most one event |
| Console.Advance | ai_terminal.py:173-254 | a pass that continues extends the session so far by its effects |
| Console.Finish | ai_terminal.py:173-254 | a pass that stops ends the session with its effects |
| Console.RunInteractive | ai_terminal.py:166-254 | the loop produces exactly the effects and the ending the session specification gives for the input |
| Console.QuitEndsSession | ai_terminal.py:175-179 | `quit`, in any case and with any surrounding whitespace, ends the session with no effect |
| Console.SkippedInputsNeverAsk | ai_terminal.py:181-208 | `models`, `help` (in any case) and a blank line move to the next line without asking the endpoint |
| Console.TurnExecutesExactlyWhen | ai_terminal.py:207-234 | a pass executes a command if and only if it reads a request that is not a keyword and not blank, the proposal is a dict with a truthy `command` and an `explanation`, and the next event is a line that lower-cases to `y`; it then asks, offers and runs that command in PowerShell with a 30-second timeout, and reads on two events later |
| Console.TurnShape | ai_terminal.py:213-234 | a pass asks at most once, offers after asking and runs only after offering, the command offered, which is truthy |
| Console.SafeFlagOnlyWarns | ai_terminal.py:224-225 | changing `safe` changes only the warning: the same requests, commands offered and executed, and where the loop continues |
| Console.RunsFollowOffersAppend | ai_terminal.py:173-254 | joining two effect lists in which every run follows its offer keeps that property |
| Console.TurnRunsFollowOffers | ai_terminal.py:215-234 | within one pass every execution directly follows the offer of the same command, in PowerShell |
| Console.SessionRunsFollowOffers | ai_terminal.py:173-254 | in a whole session, every execution directly follows the offer of the same truthy command and runs in PowerShell: nothing runs that was not shown first |
| Console.NoConfirmationNeverRuns | ai_terminal.py:228-234 | a session in which no line lower-cases to `y` executes nothing, whatever the proposals are |
| Console.ConfirmsExactly | ai_terminal.py:228-230 | the answers that confirm are exactly `y` and `Y`: no stripping, and nothing longer |
| Console.NoCommandNeverRuns | ai_terminal.py:215-217 | when no proposal carries a truthy command, no session executes anything, whatever the user types |
| Console.FailedCallsNeverRun | ai_terminal.py:78-217 | when every call to the endpoint fails, no session executes anything |
| Console.TurnIgnoresLaterInput | ai_terminal.py:173-254 | events appended to the input do not change a pass, unless the pass offered a command and found the input ended before the confirmation |
| Console.StoppedSessionIgnoresLaterInput | ai_terminal.py:177-252 | after a quit or an interrupt, input typed later has no effect on the session |

## Left out

- The payload, including the model name, the system prompt and the sampling options (ai_terminal.py:13-35, 40-49). `ask` stands for building it and posting it. The HTTP transport, the 30-second request timeout and the reply decoding are left out in the same way.
- `json.loads` itself, which is the `parse` parameter; which texts raise which exception is left to it. JSON values with NaN or infinite numbers are not distinguished from other numbers.
- `subprocess.run` itself, which is the `run` parameter. Nothing about the command text is checked: a non-string command is handed to `run` unchanged.
- `check_ollama_connection` (ai_terminal.py:137-164): it is not called from the loop, and it only prints and returns a flag.
- The `models` listing (ai_terminal.py:181-195): only its effect on the loop is modelled, which is to continue without asking for a proposal. The request it sends and its printing are left out.
- All printing: the banner, the proposal display, the outputs and errors shown after execution, and the separators. Effects record what is observable apart from the terminal text.
- `Offered`: the effect is recorded only when the proposal has an `explanation`. When it has none, the source prints the suggested command before the KeyError, but the model, like the loop, records no offer and continues.
- `main` and the constructor (ai_terminal.py:8-12, 256-267): choosing a model name from the command line.
- `Text.Lower` lower-cases ASCII letters only. Python's `str.lower` also maps other letters, which matters only for inputs compared with `quit`, `models`, `help` or `y`.
- KeyboardInterrupt while a request or a command is running is not modelled. Only an interrupt at a prompt is.
- Printing is assumed never to raise. In the source, a `print` of the proposal or the confirmation prompt (ai_terminal.py:216-228) can raise, for example UnicodeEncodeError when stdout cannot encode the emoji. The handler at ai_terminal.py:253-254 then catches it before any answer is read, so the next line is taken as a new request, and the handler's own `print` can raise again and end the loop. The model reads the next line as the answer. No other exception caught at ai_terminal.py:253-254 is modelled, because `ask`, `parse` and `run` are total functions.
- `ask`, `parse` and `run` are deterministic, so the same request sent twice gets the same reply. A real server and process need not behave that way.
- End of input. Real standard input keeps raising EOFError at end of file, so the loop never stops. The model's event list is finite, and its end is the `Exhausted` ending.
