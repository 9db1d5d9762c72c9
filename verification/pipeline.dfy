/** `generateReadme`: the command that chains configuration, the input steps, the folder
    drawing, the request and the save, reporting any thrown error with one message. */
module Pipeline {
  import opened Outcomes
  import opened Text
  import opened Listing
  import opened Config
  import opened ProjectInput
  import opened FolderStructure
  import opened Generation
  import opened Persistence

  const FailurePrefix: string := "Failed to generate README: "

  /** How one run of the command ends. */
  datatype Run =
    | NotConfigured
      // the key is missing; the configuration dialog is shown instead
    | Stopped
      // an input step was dismissed
    | Failed(message: string)
      // an error was caught and shown
    | Saved(files: Files, readmePath: string)

  /** What the command sends: the model, the key for the `Authorization` header and the
      user prompt (the system prompt is fixed text). */
  datatype Request = Request(model: string, apiKey: string, userPrompt: string)

  /** The user's answers to the input steps and to the overwrite dialog. */
  datatype Answers = Answers(overview: Option<string>, repoLink: Option<string>, extraIgnores: Option<string>,
                             decision: Decision)

  /** The request built from the configuration and the collected information, with the
      folder drawing made from the snapshot `root` of the workspace folder. */
  function RequestFor(config: Config, info: ProjectInfo, root: Node): Request {
    var structure := Generate(info.workspaceFolder, root, info.extraIgnores);
    Request(config.model, config.groqApiKey, UserPrompt(info.projectOverview, info.repoLink, structure))
  }

  /** The endpoint's reply to the request for `info`, as `generateSummary` settles. */
  function Reply(config: Config, info: ProjectInfo, root: Node, server: Request -> Exchange): Result<string, string> {
    GenerateSummary(server(RequestFor(config, info, root)))
  }

  /** The save step after the reply, with any error shown behind the prefix. */
  function Finish(reply: Result<string, string>, files: Files, decision: Decision, timestamp: string): Run {
    match reply
    case Err(message) => Failed(FailurePrefix + message)
    case Ok(text) =>
      match SaveReadme(files, text, decision, timestamp)
      case Err(message) => Failed(FailurePrefix + message)
      case Ok((after, path)) => Saved(after, path)
  }

  /** One run of the command. `server` is how the endpoint answers a request, `files` the
      workspace before the save and `timestamp` the clock reading used for a backup. */
  function GenerateReadme(settings: Settings, env: Env, workspace: Option<string>, answers: Answers, root: Node,
                          server: Request -> Exchange, files: Files, timestamp: string): Run
    requires LinkAnswer(answers.repoLink)
  {
    var config := GetConfig(settings, env);
    if !Configured(config) then NotConfigured
    else
      match CollectProjectInfo(workspace, answers.overview, answers.repoLink, answers.extraIgnores)
      case Err(message) => Failed(FailurePrefix + message)
      case Ok(None) => Stopped
      case Ok(Some(info)) => Finish(Reply(config, info, root, server), files, answers.decision, timestamp)
  }

  /** Without a key nothing else happens: no input step, no request, no write. */
  lemma UnconfiguredDoesNothing(settings: Settings, env: Env, workspace: Option<string>, answers: Answers,
                                root: Node, server: Request -> Exchange, files: Files, timestamp: string)
    requires LinkAnswer(answers.repoLink)
    requires AllSpace(FirstTruthy(KeyCandidates(settings, env), ""))
    ensures GenerateReadme(settings, env, workspace, answers, root, server, files, timestamp) == NotConfigured
  {
    ConfiguredIff(settings, env);
  }

  /** After the reply, the README is written only when the reply is the text, and then it
      holds exactly that text; an error reply or a refused overwrite is shown behind the
      prefix instead. */
  lemma FinishSpec(reply: Result<string, string>, files: Files, decision: Decision, timestamp: string)
    ensures var run := Finish(reply, files, decision, timestamp);
      && (run.Saved? <==> reply.Ok? && !(ReadmeName in files && decision in {Cancel, Dismissed}))
      && (run.Saved? ==> run.readmePath == ReadmeName && run.files[ReadmeName] == reply.value)
      && (reply.Err? ==> run == Failed(FailurePrefix + reply.error))
      && (reply.Ok? && ReadmeName in files && decision in {Cancel, Dismissed} ==>
            run == Failed(FailurePrefix + Cancelled))
  {
  }

  /** The README is written only after every step succeeded, and then it holds the trimmed
      reply to the request, which carries the configured key and model. */
  lemma SavedOnlyAfterReply(settings: Settings, env: Env, workspace: Option<string>, answers: Answers,
                            root: Node, server: Request -> Exchange, files: Files, timestamp: string)
    requires LinkAnswer(answers.repoLink)
    ensures var run := GenerateReadme(settings, env, workspace, answers, root, server, files, timestamp);
      run.Saved? ==>
        var config := GetConfig(settings, env);
        var info := CollectProjectInfo(workspace, answers.overview, answers.repoLink, answers.extraIgnores);
        && Configured(config)
        && info.Ok? && info.value.Some?
        && RequestFor(config, info.value.value, root).apiKey == config.groqApiKey
        && RequestFor(config, info.value.value, root).model == config.model
        && Reply(config, info.value.value, root, server).Ok?
        && run == Finish(Reply(config, info.value.value, root, server), files, answers.decision, timestamp)
  {
  }
}
