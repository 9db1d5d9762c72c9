/** `generateSummary`: the user prompt sent to the chat-completions endpoint, and how the
    settled HTTP exchange becomes either the README text or one error message. */
module Generation {
  import opened Outcomes
  import opened Text
  import opened Decimal

  const NoDescription: string := "No specific project description provided."
  const NoStructure: string := "No folder structure provided."
  // Written as two literals: the verifier checks a short literal's characters cheaply,
  // and `ProjectHeaderOneLine` joins the two halves.
  const ProjectHeader: string := "Project information " + "to include in the README: "
  const RepoHeader: string := "GitHub repository link: "
  const StructureHeader: string := "Folder structure: "

  /** The user message: three labelled fields on their own lines, with a placeholder
      for an empty overview or an empty folder structure. */
  function UserPrompt(overview: string, repoLink: string, folderStructure: string): string {
    ProjectHeader + Or(Some(overview), NoDescription) + "\n"
    + RepoHeader + repoLink + "\n"
    + StructureHeader + Or(Some(folderStructure), NoStructure)
  }

  /** Read line by line, the prompt gives back its fields: the overview (or its
      placeholder) on the first line, the link on the second, and the folder structure
      (or its placeholder) in the rest, as long as the overview and link are one line. */
  lemma {:induction false} PromptFields(overview: string, repoLink: string, folderStructure: string)
    requires '\n' !in overview && '\n' !in repoLink
    ensures var lines := Split(UserPrompt(overview, repoLink, folderStructure), '\n');
      && |lines| >= 3
      && lines[0] == ProjectHeader + (if overview == "" then NoDescription else overview)
      && lines[1] == RepoHeader + repoLink
      && Join(lines[2..], '\n') == StructureHeader + (if folderStructure == "" then NoStructure else folderStructure)
  {
    var o := Or(Some(overview), NoDescription);
    var f := Or(Some(folderStructure), NoStructure);
    var a := ProjectHeader + o;
    var b := RepoHeader + repoLink;
    var c := StructureHeader + f;
    HeadersAreOneLine();
    NotInConcat('\n', ProjectHeader, o);
    NotInConcat('\n', RepoHeader, repoLink);
    assert UserPrompt(overview, repoLink, folderStructure) == a + "\n" + (b + "\n" + c);
    SplitAtSeparator(a, b + "\n" + c, '\n');
    SplitAtSeparator(b, c, '\n');
    var lines := Split(UserPrompt(overview, repoLink, folderStructure), '\n');
    assert lines == [a, b] + Split(c, '\n');
    assert lines[2..] == Split(c, '\n');
    JoinSplit(c, '\n');
  }

  /** The fixed texts around the first two fields hold no line break. */
  lemma HeadersAreOneLine()
    ensures '\n' !in ProjectHeader && '\n' !in RepoHeader && '\n' !in NoDescription
  {
    ProjectHeaderOneLine();
    RepoHeaderOneLine();
    NoDescriptionOneLine();
  }

  // One lemma per constant: each literal's characters are then checked on their own,
  // which the verifier does far more cheaply than all three at once.

  lemma ProjectHeaderOneLine()
    ensures '\n' !in ProjectHeader
  {
    NotInConcat('\n', "Project information ", "to include in the README: ");
  }

  lemma RepoHeaderOneLine()
    ensures '\n' !in RepoHeader
  {
  }

  lemma NoDescriptionOneLine()
    ensures '\n' !in NoDescription
  {
  }

  /** A chat message of the first choice; its `content` may be missing. */
  datatype Message = Message(content: Option<string>)

  /** One entry of `choices`; its `message` may be missing. */
  datatype Choice = Choice(message: Option<Message>)

  /** The body of a successful response; `choices` may be missing. */
  datatype Payload = Payload(choices: Option<seq<Choice>>)

  /** How the POST request settled. */
  datatype Exchange =
    | Answered(data: Option<Payload>)
      // the server answered with a success status
    | Rejected(status: nat, errorMessage: Option<string>)
      // the server answered with an error status; `errorMessage` is `data.error.message`
    | Unanswered(code: Option<string>, message: string)
      // no response (DNS failure, refused connection, timeout); `code` is `error.code`

  /** The three kinds of error the catch block rethrows. */
  datatype Failure =
    | ApiError(status: nat, message: string)
    | NetworkError
    | GenerationFailed(message: string)

  const InvalidResponse: string := "Invalid response from Groq API"
  const NetworkErrorText: string := "Network error: Unable to connect to Groq API"
  const UnknownApiError: string := "Unknown API error"
  const ApiErrorOpen: string := "API Error ("
  const ApiErrorClose: string := "): "
  const GenerationFailedPrefix: string := "Generation failed: "

  /** The message of the `TypeError` a property read on `undefined` raises in Node. */
  function ReadOfUndefined(property: string): string {
    "Cannot read properties of undefined (reading '" + property + "')"
  }

  /** The message of the error the catch block throws. */
  function Describe(f: Failure): string {
    match f
    case ApiError(status, message) => ApiErrorOpen + NatToString(status) + ApiErrorClose + message
    case NetworkError => NetworkErrorText
    case GenerationFailed(message) => GenerationFailedPrefix + message
  }

  /** The error the catch block builds from an error that reached it: one with a
      response, then one coded `ENOTFOUND`, then any other. */
  function Classify(x: Exchange): (r: Result<string, Failure>)
    ensures x.Rejected? ==> r == Err(ApiError(x.status, if Truthy(x.errorMessage) then x.errorMessage.value else UnknownApiError))
  {
    match x
    case Answered(data) =>
      if data.None? || data.value.choices.None? || data.value.choices.value == [] then
        Err(GenerationFailed(InvalidResponse))
      else
        var choice := data.value.choices.value[0];
        if choice.message.None? then Err(GenerationFailed(ReadOfUndefined("content")))
        else if choice.message.value.content.None? then Err(GenerationFailed(ReadOfUndefined("trim")))
        else Ok(Trim(choice.message.value.content.value))
    case Rejected(status, errorMessage) => Err(ApiError(status, Or(errorMessage, UnknownApiError)))
    case Unanswered(code, message) =>
      if code == Some("ENOTFOUND") then Err(NetworkError) else Err(GenerationFailed(message))
  }

  /** `generateSummary` settles with the README text or with the message of its error. */
  function GenerateSummary(x: Exchange): Result<string, string> {
    match Classify(x)
    case Ok(text) => Ok(text)
    case Err(f) => Err(Describe(f))
  }

  /** Success exactly when the server answered with a first choice whose message has
      content, and then the text is that content trimmed. */
  lemma SummarySucceeds(x: Exchange)
    ensures GenerateSummary(x).Ok? <==>
      && x.Answered? && x.data.Some? && x.data.value.choices.Some? && |x.data.value.choices.value| > 0
      && x.data.value.choices.value[0].message.Some?
      && x.data.value.choices.value[0].message.value.content.Some?
    ensures GenerateSummary(x).Ok? ==>
      GenerateSummary(x).value == Trim(x.data.value.choices.value[0].message.value.content.value)
  {
  }

  /** An error status yields exactly `API Error (<status>): <message>`, with a missing or
      empty message replaced by `Unknown API error`. */
  lemma SummaryOfErrorStatus(status: nat, errorMessage: Option<string>)
    ensures GenerateSummary(Rejected(status, errorMessage)) == Err(
      "API Error (" + NatToString(status) + "): "
      + (if Truthy(errorMessage) then errorMessage.value else "Unknown API error"))
  {
  }

  /** A failed DNS lookup yields the network message; any other unanswered request
      yields `Generation failed: ` and the error's own message. */
  lemma SummaryWithoutResponse(code: Option<string>, message: string)
    ensures code == Some("ENOTFOUND") ==>
      GenerateSummary(Unanswered(code, message)) == Err("Network error: Unable to connect to Groq API")
    ensures code != Some("ENOTFOUND") ==>
      GenerateSummary(Unanswered(code, message)) == Err("Generation failed: " + message)
  {
  }

  /** An answer without a first choice is reported through the generic branch, not as
      an API error. */
  lemma SummaryOfEmptyAnswer(data: Option<Payload>)
    requires data.None? || data.value.choices.None? || data.value.choices.value == []
    ensures GenerateSummary(Answered(data)) == Err(GenerationFailedPrefix + InvalidResponse)
  {
  }

  // ---------------------------------------------------------------------------
  // Reading an error message back.

  predicate StartsWith(s: string, p: string) {
    |p| <= |s| && s[..|p|] == p
  }

  /** The number of decimal digits at the start of `s`. */
  function DigitRun(s: string): (n: nat)
    ensures n <= |s| && AllDigits(s[..n])
  {
    if s != [] && IsDigit(s[0]) then
      var n := 1 + DigitRun(s[1..]);
      assert forall k :: 1 <= k < n ==> s[..n][k] == s[1..][..n - 1][k - 1];
      n
    else 0
  }

  lemma {:induction false} DigitRunOf(d: string, t: string)
    requires AllDigits(d) && (t == [] || !IsDigit(t[0]))
    ensures DigitRun(d + t) == |d|
  {
    if d != [] {
      assert (d + t)[1..] == d[1..] + t;
      DigitRunOf(d[1..], t);
    } else {
      assert d + t == t;
    }
  }

  /** Recovers the error kind and its fields from an error message. */
  function ParseFailure(text: string): Option<Failure> {
    if text == NetworkErrorText then Some(NetworkError)
    else if StartsWith(text, GenerationFailedPrefix) then Some(GenerationFailed(text[|GenerationFailedPrefix|..]))
    else if StartsWith(text, ApiErrorOpen) then
      var rest := text[|ApiErrorOpen|..];
      var n := DigitRun(rest);
      if n > 0 && StartsWith(rest[n..], ApiErrorClose) then
        Some(ApiError(ParseDigits(rest[..n]), rest[n + |ApiErrorClose|..]))
      else None
    else None
  }

  /** Every error message reads back as the error it describes, so different errors
      never share a message. */
  lemma ParseDescribe(f: Failure)
    ensures ParseFailure(Describe(f)) == Some(f)
  {
    var text := Describe(f);
    match f
    case NetworkError =>
    case GenerationFailed(message) =>
      assert text[0] == 'G' && NetworkErrorText[0] == 'N';
      assert text[..|GenerationFailedPrefix|] == GenerationFailedPrefix;
      assert text[|GenerationFailedPrefix|..] == message;
    case ApiError(status, message) =>
      assert text[0] == 'A' && NetworkErrorText[0] == 'N' && GenerationFailedPrefix[0] == 'G';
      var digits := NatToString(status);
      var tail := ApiErrorClose + message;
      assert text == ApiErrorOpen + (digits + tail);
      assert text[..|ApiErrorOpen|] == ApiErrorOpen;
      var rest := text[|ApiErrorOpen|..];
      assert rest == digits + tail;
      assert tail[0] == ')';
      DigitRunOf(digits, tail);
      assert rest[..|digits|] == digits;
      assert rest[|digits|..] == tail;
      assert tail[..|ApiErrorClose|] == ApiErrorClose;
      assert rest[|digits| + |ApiErrorClose|..] == message;
      ParseNatToString(status);
  }

  lemma DescribeInjective(f: Failure, g: Failure)
    requires Describe(f) == Describe(g)
    ensures f == g
  {
    ParseDescribe(f);
    ParseDescribe(g);
  }
}
