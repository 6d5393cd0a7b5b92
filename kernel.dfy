/** The kernel session (lib/kernel.ts): routes shell and control messages,
    brackets each routed shell request with `busy`/`idle` status broadcasts,
    owns the current cell and the language host, and records every outbound
    message in an append-only log. Promises settle at once, so each handler
    is a sequential method that returns how its promise settled. */
module JupyterKernel {
  import opened Wrappers
  import opened JsString
  import opened TypeScriptHost

  // ---------------------------------------------------------------------
  // Messages
  // ---------------------------------------------------------------------

  datatype Header = Header(msgId: string, msgType: string)

  /** The request fields the handlers read (`code`, `cursor_pos`, `restart`). */
  datatype RequestContent = RequestContent(code: string, cursorPos: int, restart: bool)

  datatype Message = Message(header: Header, content: RequestContent)

  datatype Channel = Shell | IOPub

  datatype ExecutionState = Busy | Idle

  /** The content of every kind of outbound message the kernel sends. */
  datatype Content =
    | StatusContent(executionState: ExecutionState)
    | ExecuteInputContent(executionCount: nat, code: string)
    | StreamContent(name: string, text: string)
    | ExecuteOkContent(status: string, executionCount: nat, payload: seq<string>, userExpressions: map<string, string>)
    | ExecuteErrorContent(ename: string, evalue: string, traceback: seq<string>, status: string, executionCount: nat)
    | ExecuteResultContent(executionCount: nat, data: map<string, string>, metadata: map<string, string>)
    | ErrorContent(ename: string, evalue: string, traceback: seq<string>, executionCount: nat)
    | CompleteReplyContent(matches: seq<string>, cursorStart: int, cursorEnd: int, status: string)
    | InspectReplyContent(found: bool, foundData: Option<map<string, string>>, metadata: map<string, string>, status: string)
    | HistoryReplyContent(history: seq<string>)
    | KernelInfoReplyContent(implementation: string, implementationVersion: string, languageName: string,
                             languageVersion: string, fileExtension: string, protocolVersion: string)

  /** One entry of the outbound log: the channel, the `msg_type`, the
      request it answers (its header becomes the parent header) and the
      content. */
  datatype Outbound = Outbound(channel: Channel, msgType: string, parent: Header, content: Content)

  /** `request.respond(socket, msgType, content)`. */
  function Respond(request: Message, channel: Channel, msgType: string, content: Content): Outbound
  {
    Outbound(channel, msgType, request.header, content)
  }

  /** How a handler's promise settled. */
  datatype Settlement = Resolved | Rejected(reason: JsError)

  /** The foreign inputs of a request: the language service, the version
      read from package.json (or the exception reading it raised) and the
      TypeScript package's version. */
  datatype Environment = Environment(service: LanguageService, packageVersion: Result<string, JsError>, typescriptVersion: string)

  // ---------------------------------------------------------------------
  // Routing
  // ---------------------------------------------------------------------

  datatype ShellHandler =
    | KernelInfoHandler | ExecuteHandler | CompleteHandler | HistoryHandler | InspectHandler | ShutdownHandler

  const RoutedShellTypes: set<string> :=
    {"kernel_info_request", "execute_request", "complete_request", "history_request", "inspect_request", "shutdown_request"}

  /** The `switch` of `onShellMessage`: six message types have a handler,
      each its own, and every other type has none. */
  function ShellRoute(msgType: string): (h: Option<ShellHandler>)
    ensures h.Some? <==> msgType in RoutedShellTypes
    ensures h == Some(ExecuteHandler) <==> msgType == "execute_request"
    ensures h == Some(ShutdownHandler) <==> msgType == "shutdown_request"
  {
    match msgType
    case "kernel_info_request" => Some(KernelInfoHandler)
    case "execute_request" => Some(ExecuteHandler)
    case "complete_request" => Some(CompleteHandler)
    case "history_request" => Some(HistoryHandler)
    case "inspect_request" => Some(InspectHandler)
    case "shutdown_request" => Some(ShutdownHandler)
    case _ => None
  }

  /** Exactly six shell message types are routed, to six different handlers. */
  lemma ShellRouteInjective(a: string, b: string)
    requires ShellRoute(a).Some? && ShellRoute(a) == ShellRoute(b)
    ensures a == b
    ensures |RoutedShellTypes| == 6
  {
  }

  // ---------------------------------------------------------------------
  // The messages each handler sends
  // ---------------------------------------------------------------------

  /** A message that answers `request` and is not a status broadcast. */
  predicate IsReplyTo(m: Outbound, request: Message)
  {
    m.parent == request.header && !m.content.StatusContent?
  }

  /** `after` is `before` followed by replies to `request` only. */
  predicate AppendsReplies(before: seq<Outbound>, after: seq<Outbound>, request: Message)
  {
    |before| <= |after| && after[..|before|] == before &&
    forall i :: |before| <= i < |after| ==> IsReplyTo(after[i], request)
  }

  /** `after` is `before` followed by `busy`, replies to `request` only,
      and `idle`. */
  predicate Bracketed(before: seq<Outbound>, after: seq<Outbound>, request: Message)
  {
    |before| + 2 <= |after| && after[..|before|] == before &&
    after[|before|] == StatusMessage(request, Busy) &&
    after[|after| - 1] == StatusMessage(request, Idle) &&
    forall i :: |before| < i < |after| - 1 ==> IsReplyTo(after[i], request)
  }

  /** Replies to a request, put between its `busy` and `idle`, form a
      bracket. */
  lemma BracketReplies(before: seq<Outbound>, replies: seq<Outbound>, request: Message)
    requires forall i :: 0 <= i < |replies| ==> IsReplyTo(replies[i], request)
    ensures Bracketed(before, before + [StatusMessage(request, Busy)] + replies + [StatusMessage(request, Idle)], request)
  {
    var after := before + [StatusMessage(request, Busy)] + replies + [StatusMessage(request, Idle)];
    assert after[..|before|] == before;
    forall i | |before| < i < |after| - 1
      ensures IsReplyTo(after[i], request)
    {
      assert after[i] == replies[i - |before| - 1];
    }
  }

  /** Appending replies to a request appends only replies. */
  lemma AppendReplies(before: seq<Outbound>, replies: seq<Outbound>, request: Message)
    requires forall i :: 0 <= i < |replies| ==> IsReplyTo(replies[i], request)
    ensures AppendsReplies(before, before + replies, request)
  {
    var after := before + replies;
    assert after[..|before|] == before;
    forall i | |before| <= i < |after|
      ensures IsReplyTo(after[i], request)
    {
      assert after[i] == replies[i - |before|];
    }
  }

  function StatusMessage(request: Message, state: ExecutionState): (m: Outbound)
    ensures m.channel == IOPub && m.msgType == "status" && m.parent == request.header
    ensures m.content.StatusContent? && m.content.executionState == state
  {
    Respond(request, IOPub, "status", StatusContent(state))
  }

  const CompilationNotice := "typescript compilation finished, running webpack..."

  /** `contents[entry]` inside the `<script>` element; JavaScript renders
      the missing key as `undefined`. */
  function ResultHtml(result: CompileResult): (html: string)
    ensures result.entry in result.contents ==> html == "<script>" + result.contents[result.entry] + "</script>"
    ensures result.entry !in result.contents ==> html == "<script>undefined</script>"
  {
    "<script>" + (if result.entry in result.contents then result.contents[result.entry] else "undefined") + "</script>"
  }

  /** A file name with the `.js` extension. */
  predicate IsJsName(name: string)
  {
    |name| >= 3 && name[|name| - 3..] == ".js"
  }

  /** The compiler names its output files `*.js` while the entry of cell
      `n` is `cell/<n>.tsx`, so the lookup by entry always comes back empty
      and the result carries the text `undefined`. */
  lemma {:induction false} ResultHtmlOfJsOutput(n: nat, outputs: seq<OutputFile>)
    requires forall i :: 0 <= i < |outputs| ==> IsJsName(outputs[i].name)
    ensures CellFileName(n) !in OutputMap(outputs)
    ensures ResultHtml(CompileResult(CellFileName(n), OutputMap(outputs))) == "<script>undefined</script>"
  {
    OutputMapSpec(outputs);
    var entry := CellFileName(n);
    assert entry[|entry| - 1] == 'x';
    forall i | 0 <= i < |outputs|
      ensures outputs[i].name != entry
    {
      var name := outputs[i].name;
      assert name[|name| - 1] == name[|name| - 3..][2] == 's';
    }
  }

  /** The execution count a message carries, if it carries one. */
  function ExecutionCountOf(c: Content): Option<nat>
  {
    match c
    case ExecuteInputContent(n, _) => Some(n)
    case ExecuteOkContent(_, n, _, _) => Some(n)
    case ExecuteErrorContent(_, _, _, _, n) => Some(n)
    case ExecuteResultContent(n, _, _) => Some(n)
    case ErrorContent(_, _, _, n) => Some(n)
    case _ => None
  }

  /** The `execute_input` echo of execution `count`. */
  function ExecuteInput(request: Message, count: nat, code: string): (m: Outbound)
    ensures IsReplyTo(m, request) && m.channel == IOPub && m.msgType == "execute_input"
    ensures m.content == ExecuteInputContent(count, code)
  {
    Respond(request, IOPub, "execute_input", ExecuteInputContent(count, code))
  }

  /** What `handleExecuteRequest` sends once the compile outcome of
      execution `count` is known. */
  function CompileOutcomeMessages(request: Message, count: nat, outcome: Result<CompileResult, JsError>): (msgs: seq<Outbound>)
    ensures forall i :: 0 <= i < |msgs| ==> IsReplyTo(msgs[i], request)
    ensures forall i :: 0 <= i < |msgs| && !msgs[i].content.StreamContent? ==> ExecutionCountOf(msgs[i].content) == Some(count)
    ensures outcome.Ok? ==>
              |msgs| == 3 &&
              msgs[0] == Respond(request, IOPub, "stream", StreamContent("stdout", CompilationNotice)) &&
              msgs[1] == Respond(request, Shell, "execute_reply", ExecuteOkContent("ok", count, [], map[])) &&
              msgs[2].channel == IOPub && msgs[2].msgType == "execute_result" && msgs[2].content.ExecuteResultContent? &&
              msgs[2].content.data == map["text/html" := ResultHtml(outcome.value)]
    ensures outcome.Err? ==>
              |msgs| == 2 &&
              msgs[0].channel == Shell && msgs[0].msgType == "execute_reply" && msgs[0].content.ExecuteErrorContent? &&
              msgs[0].content.status == "error" &&
              msgs[1].channel == IOPub && msgs[1].msgType == "error" && msgs[1].content.ErrorContent? &&
              msgs[0].content.ename == msgs[1].content.ename == "Compilation Error" &&
              msgs[0].content.evalue == msgs[1].content.evalue == "" &&
              msgs[0].content.traceback == msgs[1].content.traceback &&
              Join(msgs[0].content.traceback, "\n") == ErrorToString(outcome.error) &&
              (forall i :: 0 <= i < |msgs[0].content.traceback| ==> '\n' !in msgs[0].content.traceback[i]) &&
              (forall i :: 0 <= i < |msgs| ==> msgs[i].msgType != "stream" && msgs[i].msgType != "execute_result")
  {
    match outcome
    case Ok(result) =>
      [Respond(request, IOPub, "stream", StreamContent("stdout", CompilationNotice)),
       Respond(request, Shell, "execute_reply", ExecuteOkContent("ok", count, [], map[])),
       Respond(request, IOPub, "execute_result", ExecuteResultContent(count, map["text/html" := ResultHtml(result)], map[]))]
    case Err(e) =>
      var traceback := Split(ErrorToString(e), '\n');
      JoinSplit(ErrorToString(e), '\n');
      [Respond(request, Shell, "execute_reply", ExecuteErrorContent("Compilation Error", "", traceback, "error", count)),
       Respond(request, IOPub, "error", ErrorContent("Compilation Error", "", traceback, count))]
  }

  /** The `complete_reply`: the completion, or, when it rejected, no
      matches and an empty span at the cursor. */
  function CompleteReply(request: Message, cursorPos: int, outcome: Result<CompletionResult, JsError>): (m: Outbound)
    ensures IsReplyTo(m, request) && m.channel == Shell && m.msgType == "complete_reply"
    ensures m.content.CompleteReplyContent? && m.content.status == "ok"
    ensures outcome.Ok? ==>
              m.content.matches == outcome.value.textMatches &&
              m.content.cursorStart == outcome.value.cursorStart && m.content.cursorEnd == outcome.value.cursorEnd
    ensures outcome.Err? ==> m.content.matches == [] && m.content.cursorStart == m.content.cursorEnd == cursorPos
  {
    var result := match outcome
                  case Ok(r) => r
                  case Err(_) => CompletionResult([], cursorPos, cursorPos);
    Respond(request, Shell, "complete_reply",
            CompleteReplyContent(result.textMatches, result.cursorStart, result.cursorEnd, "ok"))
  }

  /** The `inspect_reply` for the details `inspect` found. */
  function InspectReply(request: Message, details: string): (m: Outbound)
    ensures IsReplyTo(m, request) && m.channel == Shell && m.msgType == "inspect_reply"
    ensures m.content.InspectReplyContent? && m.content.status == "ok"
    ensures m.content.found <==> details != ""
    ensures m.content.foundData.Some? <==> m.content.found
    ensures m.content.found ==>
              m.content.foundData.value == map["text/plain" := details, "text/html" := "<pre>" + details + "</pre>"]
  {
    var found := details != "";
    Respond(request, Shell, "inspect_reply",
            InspectReplyContent(found,
                                if found then Some(map["text/plain" := details, "text/html" := "<pre>" + details + "</pre>"]) else None,
                                map[], "ok"))
  }

  function HistoryReply(request: Message): (m: Outbound)
    ensures IsReplyTo(m, request) && m.channel == Shell && m.msgType == "history_reply"
    ensures m.content == HistoryReplyContent([])
  {
    Respond(request, Shell, "history_reply", HistoryReplyContent([]))
  }

  function KernelInfoReply(request: Message, packageVersion: string, typescriptVersion: string, protocolVersion: string): (m: Outbound)
    ensures IsReplyTo(m, request) && m.channel == Shell && m.msgType == "kernel_info_reply"
    ensures m.content.KernelInfoReplyContent?
    ensures m.content.implementation == "jp-ts" && m.content.implementationVersion == packageVersion
    ensures m.content.languageName == "typescript" && m.content.languageVersion == typescriptVersion
    ensures m.content.fileExtension == ".tsx" && m.content.protocolVersion == protocolVersion
  {
    Respond(request, Shell, "kernel_info_reply",
            KernelInfoReplyContent("jp-ts", packageVersion, "typescript", typescriptVersion, ".tsx", protocolVersion))
  }

  // ---------------------------------------------------------------------
  // The registry a session holds
  // ---------------------------------------------------------------------

  /** `cell/0.tsx`, ..., `cell/<n-1>.tsx`. */
  function CellNames(n: nat): (names: seq<string>)
    ensures |names| == n
    ensures forall i :: 0 <= i < n ==> names[i] == CellFileName(i)
  {
    seq(n, i requires 0 <= i => CellFileName(i))
  }

  /** The next cell's name is new, and appending it extends the list. */
  lemma CellNamesExtend(n: nat)
    ensures CellFileName(n) !in CellNames(n)
    ensures CellNames(n + 1) == CellNames(n) + [CellFileName(n)]
  {
    if CellFileName(n) in CellNames(n) {
      var i :| 0 <= i < n && CellNames(n)[i] == CellFileName(n);
      CellFileNameInjective(i, n);
    }
    assert CellNames(n + 1) == CellNames(n) + [CellFileName(n)];
  }

  /** Sending two runs one after the other sends their concatenation. */
  lemma AppendAssociative(a: seq<Outbound>, b: seq<Outbound>, c: seq<Outbound>)
    ensures (a + b) + c == a + (b + c)
  {
  }

  /** Everything `handleExecuteRequest` sends for execution `count`: the
      echo, then the messages of the compile outcome. */
  function ExecuteReplies(request: Message, count: nat, code: string, outcome: Result<CompileResult, JsError>): seq<Outbound>
  {
    [ExecuteInput(request, count, code)] + CompileOutcomeMessages(request, count, outcome)
  }

  /** Every message of an execution answers its request. */
  lemma ExecuteRepliesAnswer(request: Message, count: nat, code: string, outcome: Result<CompileResult, JsError>)
    ensures forall i :: 0 <= i < |ExecuteReplies(request, count, code, outcome)| ==>
              IsReplyTo(ExecuteReplies(request, count, code, outcome)[i], request)
  {
    var tail := CompileOutcomeMessages(request, count, outcome);
    assert ExecuteReplies(request, count, code, outcome) == [ExecuteInput(request, count, code)] + tail;
  }

  /** So an execution appends only replies to its request. */
  lemma ExecuteAppendsReplies(before: seq<Outbound>, request: Message, count: nat, code: string, outcome: Result<CompileResult, JsError>)
    ensures AppendsReplies(before, before + ExecuteReplies(request, count, code, outcome), request)
  {
    ExecuteRepliesAnswer(request, count, code, outcome);
    AppendReplies(before, ExecuteReplies(request, count, code, outcome), request);
  }

  // ---------------------------------------------------------------------
  // What each handler does, as a function of the request
  // ---------------------------------------------------------------------

  /** The messages a handler sends between `busy` and `idle` when the
      current cell is cell `k` and is registered: kernel info replies when
      package.json was read; execute echoes the code as execution `k + 1`
      and then sends the outcome of compiling cell `k`; complete always
      replies; history replies; inspect replies when `inspect` resolved;
      shutdown sends nothing. */
  function HandlerReplies(request: Message, handler: ShellHandler, env: Environment, k: nat, protocolVersion: string): seq<Outbound>
  {
    var code, cursor, svc := request.content.code, request.content.cursorPos, env.service;
    match handler
    case KernelInfoHandler =>
      if env.packageVersion.Ok? then [KernelInfoReply(request, env.packageVersion.value, env.typescriptVersion, protocolVersion)]
      else []
    case ExecuteHandler =>
      ExecuteReplies(request, k + 1, code, Compile(true, CellFileName(k), code, k, svc))
    case CompleteHandler =>
      [CompleteReply(request, cursor, Complete(true, CellFileName(k), code, k, cursor, svc))]
    case HistoryHandler => [HistoryReply(request)]
    case InspectHandler =>
      (match Inspect(CellFileName(k), code, cursor, svc)
       case Ok(r) => [InspectReply(request, r.details)]
       case Err(_) => [])
    case ShutdownHandler => []
  }

  /** How that handler's promise settles. */
  function HandlerSettlement(request: Message, handler: ShellHandler, env: Environment, k: nat): Settlement
  {
    var code, cursor, svc := request.content.code, request.content.cursorPos, env.service;
    match handler
    case KernelInfoHandler =>
      if env.packageVersion.Ok? then Resolved else Rejected(env.packageVersion.error)
    case ExecuteHandler =>
      var outcome := Compile(true, CellFileName(k), code, k, svc);
      if outcome.Ok? then Resolved else Rejected(outcome.error)
    case InspectHandler =>
      var r := Inspect(CellFileName(k), code, cursor, svc);
      if r.Ok? then Resolved else Rejected(r.error)
    case _ => Resolved
  }

  /** The `msg_type`s of a run of messages. */
  function MsgTypes(msgs: seq<Outbound>): (types: seq<string>)
    ensures |types| == |msgs|
    ensures forall i :: 0 <= i < |msgs| ==> types[i] == msgs[i].msgType
  {
    seq(|msgs|, i requires 0 <= i < |msgs| => msgs[i].msgType)
  }

  /** Every message a handler sends answers its request. */
  lemma HandlerRepliesAnswer(request: Message, handler: ShellHandler, env: Environment, k: nat, protocolVersion: string)
    ensures forall i :: 0 <= i < |HandlerReplies(request, handler, env, k, protocolVersion)| ==>
              IsReplyTo(HandlerReplies(request, handler, env, k, protocolVersion)[i], request)
  {
    var code, svc := request.content.code, env.service;
    if handler == ExecuteHandler {
      ExecuteRepliesAnswer(request, k + 1, code, Compile(true, CellFileName(k), code, k, svc));
    }
  }

  /** Whatever the handler, `busy`, its replies and `idle` form a bracket
      around the request. */
  lemma HandlerBracket(before: seq<Outbound>, request: Message, handler: ShellHandler, env: Environment, k: nat, protocolVersion: string)
    ensures Bracketed(before, before + [StatusMessage(request, Busy)] + HandlerReplies(request, handler, env, k, protocolVersion)
                        + [StatusMessage(request, Idle)], request)
  {
    HandlerRepliesAnswer(request, handler, env, k, protocolVersion);
    BracketReplies(before, HandlerReplies(request, handler, env, k, protocolVersion), request);
  }

  /** The trace of an execution: `execute_input`, then `stream`,
      `execute_reply` and `execute_result` when the emit was not skipped,
      otherwise `execute_reply` and `error`; every message but the stream
      carries the new execution count. It resolves exactly when the emit was
      not skipped. */
  lemma ExecuteTrace(request: Message, env: Environment, k: nat, protocolVersion: string)
    ensures var msgs := HandlerReplies(request, ExecuteHandler, env, k, protocolVersion);
            var skipped := env.service.emitOutput(CellFileName(k), request.content.code).emitSkipped;
            (!skipped ==> MsgTypes(msgs) == ["execute_input", "stream", "execute_reply", "execute_result"]) &&
            (skipped ==> MsgTypes(msgs) == ["execute_input", "execute_reply", "error"]) &&
            (forall i :: 0 <= i < |msgs| && msgs[i].msgType != "stream" ==> ExecutionCountOf(msgs[i].content) == Some(k + 1)) &&
            (HandlerSettlement(request, ExecuteHandler, env, k) == Resolved <==> !skipped)
  {
    var code, svc := request.content.code, env.service;
    var outcome := Compile(true, CellFileName(k), code, k, svc);
    CompileOutcome(true, CellFileName(k), code, k, svc);
    var tail := CompileOutcomeMessages(request, k + 1, outcome);
    var msgs := HandlerReplies(request, ExecuteHandler, env, k, protocolVersion);
    assert msgs == [ExecuteInput(request, k + 1, code)] + tail;
    forall i | 1 <= i < |msgs| ensures msgs[i] == tail[i - 1] { }
    if outcome.Ok? {
      assert MsgTypes(msgs) == ["execute_input", "stream", "execute_reply", "execute_result"];
    } else {
      assert MsgTypes(msgs) == ["execute_input", "execute_reply", "error"];
    }
  }

  /** Kernel info and inspect reply exactly when their promise resolves. */
  lemma RepliesIffResolved(request: Message, handler: ShellHandler, env: Environment, k: nat, protocolVersion: string)
    requires handler == KernelInfoHandler || handler == InspectHandler
    ensures |HandlerReplies(request, handler, env, k, protocolVersion)| > 0 <==> HandlerSettlement(request, handler, env, k) == Resolved
  {
  }

  // ---------------------------------------------------------------------
  // The kernel
  // ---------------------------------------------------------------------

  /** A kernel state as a value: the host and the current cell (as
      references) with the contents of their fields, and the number of armed
      close timers. */
  datatype Snapshot = Snapshot(host: LanguageServiceHost, cell: CellScript, scripts: map<string, CellScript>,
                               fileOrder: seq<string>, disposals: nat, cellVersion: nat, cellContents: string,
                               pendingCloses: nat)

  /** The kernel's sockets, abstracted: every message sent on the shell
      and IOPub sockets, in order, and whether the sockets have been closed
      (listeners removed, sockets closed). */
  class Sockets {
    var sent: seq<Outbound>
    var closed: bool

    constructor ()
      ensures sent == [] && !closed
    {
      sent := [];
      closed := false;
    }
  }

  class Kernel {
    const workingDir: string
    const protocolVersion: string := "5.0"
    var languageHost: LanguageServiceHost
    var curScript: CellScript
    const sockets: Sockets
    /** The number of armed timers that will each run `close`. */
    var pendingCloses: nat

    /** The registry holds exactly `cell/0.tsx` ... `cell/k.tsx`, in that
        order, where `k` is the current cell's counter, and the current cell
        is the one filed under its name. */
    ghost predicate Valid()
      reads this`languageHost, this`curScript, languageHost
    {
      languageHost.Valid() &&
      languageHost.fileOrder == CellNames(curScript.cellCounter + 1) &&
      curScript.tmpFileName in languageHost.scripts &&
      languageHost.scripts[curScript.tmpFileName] == curScript
    }

    /** The kernel's state as a value: the host and the current cell, and
        the contents of their fields. */
    ghost function Snap(): Snapshot
      reads this, languageHost, curScript
    {
      Snapshot(languageHost, curScript, languageHost.scripts, languageHost.fileOrder, languageHost.disposals,
               curScript.version, curScript.contents, pendingCloses)
    }

    /** The state `handleExecuteRequest` leaves: the running cell holds the
        code, and a new empty next cell is registered under a new name and is
        current; the host and the timers stay. */
    ghost predicate ExecuteEffect(code: string, before: Snapshot)
      reads this, languageHost, curScript, before.cell
    {
      pendingCloses == before.pendingCloses && languageHost == before.host &&
      before.cell.contents == code && before.cell.version == before.cellVersion + 1 &&
      curScript.cellCounter == before.cell.cellCounter + 1 && curScript.version == 0 && curScript.contents == "" &&
      curScript.tmpFileName !in before.scripts &&
      languageHost.scripts == before.scripts[curScript.tmpFileName := curScript] &&
      languageHost.disposals == before.disposals
    }

    /** The state a handler leaves, given the state it started from: kernel
        info and history change nothing; complete and inspect give the current
        cell the code; execute gives the running cell the code and registers
        a new next cell, which becomes current; a restart disposes the old
        host, which keeps its registry, and installs a new one holding only a
        new cell 0; any other shutdown arms one more close timer. */
    ghost predicate HandlerEffect(request: Message, handler: ShellHandler, before: Snapshot)
      reads this, languageHost, curScript, before.host, before.cell
    {
      var code := request.content.code;
      match handler
      case KernelInfoHandler => Snap() == before
      case HistoryHandler => Snap() == before
      case CompleteHandler => Snap() == before.(cellVersion := before.cellVersion + 1, cellContents := code)
      case InspectHandler => Snap() == before.(cellVersion := before.cellVersion + 1, cellContents := code)
      case ExecuteHandler => ExecuteEffect(code, before)
      case ShutdownHandler =>
        if request.content.restart then
          pendingCloses == before.pendingCloses &&
          before.host.disposals == before.disposals + 1 && before.host.scripts == before.scripts &&
          languageHost.disposals == 0 && languageHost.scripts == map[CellFileName(0) := curScript] &&
          curScript.cellCounter == 0 && curScript.version == 0 && curScript.contents == ""
        else
          Snap() == before.(pendingCloses := before.pendingCloses + 1)
    }

    /** The handlers that create a cell or a host. */
    predicate Allocates(request: Message, handler: ShellHandler)
    {
      handler == ExecuteHandler || (handler == ShutdownHandler && request.content.restart)
    }

    /** The constructor's `resetLanguageHost` (socket binding aside): a fresh
        host holding only cell 0. */
    constructor (workingDir: string)
      ensures Valid()
      ensures this.workingDir == workingDir
      ensures fresh(languageHost) && fresh(curScript)
      ensures languageHost.workingDir == workingDir && languageHost.disposals == 0
      ensures curScript.cellCounter == 0 && curScript.version == 0 && curScript.contents == ""
      ensures languageHost.scripts == map[CellFileName(0) := curScript]
      ensures fresh(sockets) && sockets.sent == [] && !sockets.closed && pendingCloses == 0
    {
      this.workingDir := workingDir;
      var host := new LanguageServiceHost(workingDir);
      var first := new CellScript(0);
      var added := host.AddScript(first);
      languageHost := host;
      curScript := added;
      sockets := new Sockets();
      pendingCloses := 0;
    }

    /** `resetLanguageHost`: dispose the old host, then install a new one
        whose registry holds only a fresh cell 0, which becomes current. */
    method ResetLanguageHost()
      requires Valid()
      modifies this`languageHost, this`curScript, languageHost
      ensures Valid()
      ensures old(languageHost).disposals == old(languageHost.disposals) + 1
      ensures old(languageHost).scripts == old(languageHost.scripts)
      ensures fresh(languageHost) && fresh(curScript)
      ensures languageHost.workingDir == workingDir && languageHost.disposals == 0
      ensures languageHost.scripts == map[CellFileName(0) := curScript]
      ensures curScript.cellCounter == 0 && curScript.version == 0 && curScript.contents == ""
    {
      languageHost.Dispose();
      var host := new LanguageServiceHost(workingDir);
      var first := new CellScript(0);
      var added := host.AddScript(first);
      languageHost := host;
      curScript := added;
    }

    /** `reset`: `resetLanguageHost`, resolving at once. */
    method Reset() returns (s: Settlement)
      requires Valid()
      modifies this`languageHost, this`curScript, languageHost
      ensures Valid() && s == Resolved
      ensures old(languageHost).disposals == old(languageHost.disposals) + 1
      ensures old(languageHost).scripts == old(languageHost.scripts)
      ensures fresh(languageHost) && fresh(curScript)
      ensures languageHost.workingDir == workingDir && languageHost.disposals == 0
      ensures languageHost.scripts == map[CellFileName(0) := curScript]
      ensures curScript.cellCounter == 0 && curScript.version == 0 && curScript.contents == ""
    {
      ResetLanguageHost();
      s := Resolved;
    }

    /** `close`: closes every socket and disposes the host once. */
    method Close()
      requires Valid()
      modifies sockets, languageHost
      ensures Valid()
      ensures sockets.closed && sockets.sent == old(sockets.sent)
      ensures languageHost.disposals == old(languageHost.disposals) + 1
      ensures languageHost.scripts == old(languageHost.scripts) && languageHost.fileOrder == old(languageHost.fileOrder)
    {
      sockets.closed := true;
      languageHost.Dispose();
    }

    /** One armed timer fires and runs `close`; each timer runs it once, so
        two pending timers close and dispose twice. */
    method Tick()
      requires Valid()
      modifies sockets, this`pendingCloses, languageHost
      ensures Valid()
      ensures old(pendingCloses) > 0 ==>
                pendingCloses == old(pendingCloses) - 1 &&
                sockets.closed && languageHost.disposals == old(languageHost.disposals) + 1 &&
                languageHost.scripts == old(languageHost.scripts)
      ensures old(pendingCloses) == 0 ==> pendingCloses == 0 && unchanged(sockets) && unchanged(languageHost)
      ensures sockets.sent == old(sockets.sent)
    {
      if pendingCloses > 0 {
        pendingCloses := pendingCloses - 1;
        Close();
      }
    }

    /** `handleShutdownRequest`: with `restart`, reset the host; otherwise
        arm one more timer that runs `close` on a later tick. Neither sends a reply. */
    method HandleShutdownRequest(request: Message) returns (s: Settlement)
      requires Valid()
      modifies this`languageHost, this`curScript, this`pendingCloses, languageHost
      ensures AppendsReplies(old(sockets.sent), sockets.sent, request)
      ensures Valid() && s == Resolved
      ensures request.content.restart ==>
                old(languageHost).disposals == old(languageHost.disposals) + 1 &&
                old(languageHost).scripts == old(languageHost.scripts) &&
                fresh(languageHost) && fresh(curScript) && languageHost.disposals == 0 &&
                languageHost.scripts == map[CellFileName(0) := curScript] &&
                curScript.cellCounter == 0 && curScript.version == 0 && curScript.contents == "" &&
                pendingCloses == old(pendingCloses)
      ensures !request.content.restart ==>
                pendingCloses == old(pendingCloses) + 1 && languageHost == old(languageHost) && curScript == old(curScript) &&
                unchanged(languageHost) && unchanged(curScript)
    {
      if request.content.restart {
        s := Reset();
      } else {
        pendingCloses := pendingCloses + 1;
        s := Resolved;
      }
    }

    /** `handleInspectRequest`: update the current cell, inspect it, and
        reply only when `inspect` resolved. */
    method HandleInspectRequest(request: Message, svc: LanguageService) returns (s: Settlement)
      requires Valid()
      modifies sockets`sent, curScript
      ensures AppendsReplies(old(sockets.sent), sockets.sent, request)
      ensures Valid()
      ensures curScript.contents == request.content.code && curScript.version == old(curScript.version) + 1
      ensures var r := Inspect(curScript.tmpFileName, request.content.code, request.content.cursorPos, svc);
              (r.Ok? ==> s == Resolved && sockets.sent == old(sockets.sent) + [InspectReply(request, r.value.details)]) &&
              (r.Err? ==> s == Rejected(r.error) && sockets.sent == old(sockets.sent))
    {
      curScript.Update(request.content.code);
      var r := Inspect(curScript.tmpFileName, curScript.contents, request.content.cursorPos, svc);
      if r.Ok? {
        sockets.sent := sockets.sent + [InspectReply(request, r.value.details)];
        s := Resolved;
      } else {
        s := Rejected(r.error);
      }
    }

    /** `handleHistoryRequest`: reply with an empty history. */
    method HandleHistoryRequest(request: Message) returns (s: Settlement)
      modifies sockets`sent
      ensures AppendsReplies(old(sockets.sent), sockets.sent, request)
      ensures s == Resolved && sockets.sent == old(sockets.sent) + [HistoryReply(request)]
    {
      sockets.sent := sockets.sent + [HistoryReply(request)];
      s := Resolved;
    }

    /** `handleCompleteRequest`: update the current cell, complete in it, and
        always reply, with the empty completion when `codeComplete` rejected. */
    method HandleCompleteRequest(request: Message, svc: LanguageService) returns (s: Settlement)
      requires Valid()
      modifies sockets`sent, curScript
      ensures AppendsReplies(old(sockets.sent), sockets.sent, request)
      ensures Valid() && s == Resolved
      ensures curScript.contents == request.content.code && curScript.version == old(curScript.version) + 1
      ensures sockets.sent == old(sockets.sent) + [CompleteReply(request, request.content.cursorPos,
                Complete(curScript.tmpFileName in languageHost.scripts, curScript.tmpFileName, request.content.code,
                         curScript.cellCounter, request.content.cursorPos, svc))]
    {
      curScript.Update(request.content.code);
      var r := languageHost.CodeComplete(curScript, request.content.cursorPos, svc);
      sockets.sent := sockets.sent + [CompleteReply(request, request.content.cursorPos, r)];
      s := Resolved;
    }

    /** The synchronous prologue of `handleExecuteRequest`: the current
        cell takes the code, and the next cell is registered under a new name
        and becomes current. Returns the cell to run. */
    method ExecutePrologue(code: string) returns (executing: CellScript)
      requires Valid()
      modifies this`curScript, languageHost, curScript
      ensures Valid()
      ensures executing == old(curScript)
      ensures executing.contents == code && executing.version == old(curScript.version) + 1
      ensures executing.tmpFileName in languageHost.scripts && languageHost.scripts[executing.tmpFileName] == executing
      ensures fresh(curScript) && curScript.cellCounter == old(curScript.cellCounter) + 1
      ensures curScript.version == 0 && curScript.contents == ""
      ensures curScript.tmpFileName !in old(languageHost.scripts)
      ensures languageHost.scripts == old(languageHost.scripts)[curScript.tmpFileName := curScript]
      ensures languageHost.disposals == old(languageHost.disposals)
    {
      executing := curScript;
      curScript.Update(code);
      var next := new CellScript(curScript.cellCounter + 1);
      CellNamesExtend(curScript.cellCounter + 1);
      assert next.tmpFileName !in languageHost.scripts;
      curScript := languageHost.AddScript(next);
    }

    /** `handleExecuteRequest`: the prologue, then the `execute_input` echo
        (before compilation starts), then the compile outcome's messages. */
    method HandleExecuteRequest(request: Message, svc: LanguageService) returns (s: Settlement)
      requires Valid()
      modifies sockets`sent, this`curScript, languageHost, curScript
      ensures AppendsReplies(old(sockets.sent), sockets.sent, request)
      ensures Valid()
      ensures ExecuteEffect(request.content.code, old(Snap())) && fresh(curScript)
      ensures var k := old(curScript.cellCounter);
              var outcome := Compile(true, CellFileName(k), request.content.code, k, svc);
              sockets.sent == old(sockets.sent) + ExecuteReplies(request, k + 1, request.content.code, outcome) &&
              s == (if outcome.Ok? then Resolved else Rejected(outcome.error))
    {
      ghost var k, code, start := curScript.cellCounter, request.content.code, Snap();
      var executingScript := ExecutePrologue(request.content.code);
      assert executingScript.cellCounter == k && executingScript.tmpFileName == CellFileName(k);
      assert ExecuteEffect(code, start);
      ghost var before := sockets.sent;
      assert before == old(sockets.sent) && curScript.cellCounter == k + 1;
      s := ExecuteEpilogue(request, executingScript, curScript.cellCounter, svc);
      ghost var outcome := Compile(true, CellFileName(k), code, k, svc);
      assert outcome == Compile(true, executingScript.tmpFileName, code, executingScript.cellCounter, svc);
      assert sockets.sent == before + ExecuteReplies(request, k + 1, code, outcome);
      ExecuteAppendsReplies(before, request, k + 1, code, outcome);
    }

    /** The asynchronous part of `handleExecuteRequest`, once the prologue
        has filed the running cell, holding the code: echo the code of
        execution `count`, compile the running cell, and send the outcome. */
    method ExecuteEpilogue(request: Message, executing: CellScript, count: nat, svc: LanguageService) returns (s: Settlement)
      requires executing.tmpFileName in languageHost.scripts
      requires languageHost.scripts[executing.tmpFileName].contents == request.content.code
      modifies sockets`sent
      ensures var outcome := Compile(true, executing.tmpFileName, request.content.code, executing.cellCounter, svc);
              sockets.sent == old(sockets.sent) + ExecuteReplies(request, count, request.content.code, outcome) &&
              s == (if outcome.Ok? then Resolved else Rejected(outcome.error))
    {
      var echo := ExecuteInput(request, count, request.content.code);
      sockets.sent := sockets.sent + [echo];
      var outcome := languageHost.CompileScript(executing, svc);
      var messages := CompileOutcomeMessages(request, count, outcome);
      sockets.sent := sockets.sent + messages;
      AppendAssociative(old(sockets.sent), [echo], messages);
      s := if outcome.Ok? then Resolved else Rejected(outcome.error);
    }

    /** `handleKernelInfo`: reply with the implementation and language
        facts; a failure reading package.json rejects without a reply. */
    method HandleKernelInfo(request: Message, env: Environment) returns (s: Settlement)
      modifies sockets`sent
      ensures AppendsReplies(old(sockets.sent), sockets.sent, request)
      ensures env.packageVersion.Ok? ==>
                s == Resolved &&
                sockets.sent == old(sockets.sent) + [KernelInfoReply(request, env.packageVersion.value, env.typescriptVersion, protocolVersion)]
      ensures env.packageVersion.Err? ==> s == Rejected(env.packageVersion.error) && sockets.sent == old(sockets.sent)
    {
      match env.packageVersion
      case Ok(version) =>
        sockets.sent := sockets.sent + [KernelInfoReply(request, version, env.typescriptVersion, protocolVersion)];
        s := Resolved;
      case Err(e) =>
        s := Rejected(e);
    }

    /** `handle`: `busy`, then the handler's messages, then `idle` however
        the handler's promise settled. */
    method Handle(request: Message, handler: ShellHandler, env: Environment) returns (s: Settlement)
      requires Valid()
      modifies this, languageHost, curScript, sockets`sent
      ensures Valid()
      ensures sockets.sent == old(sockets.sent) + [StatusMessage(request, Busy)]
                + HandlerReplies(request, handler, env, old(curScript.cellCounter), protocolVersion)
                + [StatusMessage(request, Idle)]
      ensures Bracketed(old(sockets.sent), sockets.sent, request)
      ensures s == HandlerSettlement(request, handler, env, old(curScript.cellCounter))
      ensures HandlerEffect(request, handler, old(Snap()))
      ensures Allocates(request, handler) ==> fresh(curScript)
      ensures handler == ShutdownHandler && request.content.restart ==> fresh(languageHost)
    {
      ghost var before := Snap();
      sockets.sent := sockets.sent + [StatusMessage(request, Busy)];
      assert Snap() == before;
      s := Dispatch(request, handler, env);
      assert HandlerEffect(request, handler, before);
      sockets.sent := sockets.sent + [StatusMessage(request, Idle)];
      HandlerBracket(old(sockets.sent), request, handler, env, before.cell.cellCounter, protocolVersion);
    }

    /** The handler call inside `handle`, between the two status messages. */
    method Dispatch(request: Message, handler: ShellHandler, env: Environment) returns (s: Settlement)
      requires Valid()
      modifies this, languageHost, curScript, sockets`sent
      ensures Valid()
      ensures sockets.sent == old(sockets.sent) + HandlerReplies(request, handler, env, old(curScript.cellCounter), protocolVersion)
      ensures s == HandlerSettlement(request, handler, env, old(curScript.cellCounter))
      ensures HandlerEffect(request, handler, old(Snap()))
      ensures Allocates(request, handler) ==> fresh(curScript)
      ensures handler == ShutdownHandler && request.content.restart ==> fresh(languageHost)
    {
      match handler {
        case ExecuteHandler => s := DispatchExecuteRequest(request, env);
        case ShutdownHandler => s := DispatchShutdownRequest(request, env);
        case CompleteHandler => s := DispatchQueryRequest(request, handler, env);
        case InspectHandler => s := DispatchQueryRequest(request, handler, env);
        case _ => s := DispatchReadOnlyRequest(request, handler, env);
      }
    }

    /** `handleKernelInfo` and `handleHistoryRequest`, which only reply. */
    method DispatchReadOnlyRequest(request: Message, handler: ShellHandler, env: Environment) returns (s: Settlement)
      requires handler == KernelInfoHandler || handler == HistoryHandler
      modifies sockets`sent
      ensures sockets.sent == old(sockets.sent) + HandlerReplies(request, handler, env, curScript.cellCounter, protocolVersion)
      ensures s == HandlerSettlement(request, handler, env, curScript.cellCounter)
      ensures HandlerEffect(request, handler, old(Snap()))
    {
      if handler == KernelInfoHandler {
        s := HandleKernelInfo(request, env);
      } else {
        s := HandleHistoryRequest(request);
      }
    }

    /** `handleExecuteRequest` in terms of the cell it starts from. */
    method DispatchExecuteRequest(request: Message, env: Environment) returns (s: Settlement)
      requires Valid()
      modifies sockets`sent, this`curScript, languageHost, curScript
      ensures Valid()
      ensures sockets.sent == old(sockets.sent) + HandlerReplies(request, ExecuteHandler, env, old(curScript.cellCounter), protocolVersion)
      ensures s == HandlerSettlement(request, ExecuteHandler, env, old(curScript.cellCounter))
      ensures HandlerEffect(request, ExecuteHandler, old(Snap())) && fresh(curScript)
    {
      s := HandleExecuteRequest(request, env.service);
    }

    /** `handleShutdownRequest` in terms of the host it starts from. */
    method DispatchShutdownRequest(request: Message, env: Environment) returns (s: Settlement)
      requires Valid()
      modifies this`languageHost, this`curScript, this`pendingCloses, languageHost
      ensures Valid()
      ensures sockets.sent == old(sockets.sent) + HandlerReplies(request, ShutdownHandler, env, old(curScript.cellCounter), protocolVersion)
      ensures s == HandlerSettlement(request, ShutdownHandler, env, old(curScript.cellCounter))
      ensures HandlerEffect(request, ShutdownHandler, old(Snap()))
      ensures request.content.restart ==> fresh(languageHost) && fresh(curScript)
    {
      s := HandleShutdownRequest(request);
    }

    /** The two handlers that query the current cell without registering
        anything. */
    method DispatchQueryRequest(request: Message, handler: ShellHandler, env: Environment) returns (s: Settlement)
      requires Valid()
      requires handler == CompleteHandler || handler == InspectHandler
      modifies sockets`sent, curScript
      ensures Valid()
      ensures sockets.sent == old(sockets.sent) + HandlerReplies(request, handler, env, old(curScript.cellCounter), protocolVersion)
      ensures s == HandlerSettlement(request, handler, env, old(curScript.cellCounter))
      ensures HandlerEffect(request, handler, old(Snap()))
    {
      if handler == CompleteHandler {
        s := HandleCompleteRequest(request, env.service);
      } else {
        s := HandleInspectRequest(request, env.service);
      }
    }

    /** `onShellMessage`: a routed type goes through `handle` with its own
        handler; any other type is only logged. The transport stops
        delivering once the sockets are closed. */
    method OnShellMessage(request: Message, env: Environment)
      requires Valid() && !sockets.closed
      modifies this, languageHost, curScript, sockets`sent
      ensures Valid() && !sockets.closed
      ensures ShellRoute(request.header.msgType).None? ==>
                unchanged(this) && unchanged(languageHost) && unchanged(curScript) && unchanged(sockets)
      ensures ShellRoute(request.header.msgType).Some? ==>
                var handler := ShellRoute(request.header.msgType).value;
                sockets.sent == old(sockets.sent) + [StatusMessage(request, Busy)]
                  + HandlerReplies(request, handler, env, old(curScript.cellCounter), protocolVersion)
                  + [StatusMessage(request, Idle)] &&
                Bracketed(old(sockets.sent), sockets.sent, request) &&
                HandlerEffect(request, handler, old(Snap())) &&
                (Allocates(request, handler) ==> fresh(curScript)) &&
                (handler == ShutdownHandler && request.content.restart ==> fresh(languageHost))
    {
      match ShellRoute(request.header.msgType) {
        case Some(handler) =>
          var _ := Handle(request, handler, env);
        case None =>
      }
    }

    /** `onControlMessage`: `shutdown_request` closes at once, without a
        status bracket; any other type is only logged. */
    method OnControlMessage(request: Message)
      requires Valid() && !sockets.closed
      modifies sockets, languageHost
      ensures Valid()
      ensures request.header.msgType == "shutdown_request" ==>
                sockets.closed && sockets.sent == old(sockets.sent) &&
                languageHost == old(languageHost) && languageHost.disposals == old(languageHost.disposals) + 1 &&
                languageHost.scripts == old(languageHost.scripts)
      ensures request.header.msgType != "shutdown_request" ==> unchanged(sockets) && unchanged(languageHost)
    {
      if request.header.msgType == "shutdown_request" {
        Close();
      }
    }
  }
}
