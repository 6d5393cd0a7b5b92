# jp-ts kernel: a Dafny model of the session core

The jp-ts kernel is a Jupyter kernel for TypeScript. Each notebook cell is a
virtual TypeScript file named `cell/<n>.tsx`. The kernel keeps these files
in a registry that a TypeScript language service reads. It answers the
Jupyter protocol's shell requests (`kernel_info_request`, `execute_request`,
`complete_request`, `history_request`, `inspect_request`,
`shutdown_request`) and the control channel's `shutdown_request`.

The project models two source files.

- `lib/typescript-host.ts` is `typescript_host.dfy`, module `TypeScriptHost`:
  - `CellScript` is a class with a constant counter and file name, and a
    mutable version and text.
  - `LanguageServiceHost` is a class that owns the registry `scripts`. It
    provides the host callbacks (`getScriptFileNames`, `getScriptVersion`,
    `getScriptSnapshot`) and the façade operations (`addScript`,
    `compileScript`, `codeComplete`, `dispose`).
  - `inspect` is the function `Inspect`, over the cell's file name and text,
    because it never consults the registry.
  - The language service itself is foreign code. It is modelled as a
    `LanguageService` value of pure functions, passed to each operation.
    Absent answers (`undefined`) become `None`. For `compileScript` and
    `codeComplete` the service is given the text registered under the cell's
    name (`ServedText`), which is what `getScriptSnapshot` serves for it.
- `lib/kernel.ts` is `kernel.dfy`, module `JupyterKernel`:
  - `Kernel` is a class holding the language host, the current cell, the
    number of armed `setTimeout(close)` timers, and a `Sockets` object.
  - `Sockets` holds the append-only log of every message sent on the shell
    and IOPub sockets, and whether the sockets are closed.
  - Every handler's promise settles at once. Each handler is therefore a
    method that returns a `Settlement` (`Resolved` or `Rejected`) and states
    exactly which messages it appended.
  - Pure reference functions say, for each handler, what it sends
    (`HandlerReplies`) and how it settles (`HandlerSettlement`). A
    `Snapshot` value of the kernel's state and the predicate
    `HandlerEffect` say what each handler changes.

Two helper modules carry the JavaScript semantics the code relies on:

- `js_string.dfy` models `n + ""`, `split("\n")` and `join(sep)`.
- `wrappers.dfy` holds `Option` and `Result`.

The main properties proved:

- Each routed shell request is bracketed by `busy` before and `idle` after,
  however its promise settles.
- What is sent in between is exactly the chosen handler's replies, all of
  which answer that request. The settlement and the new state are also
  exactly the handler's.
- The registry always holds exactly `cell/0.tsx` … `cell/k.tsx`, in that
  order, and the current cell is filed under its own name (`Kernel.Valid`).
- The version callback yields the cell's version as a decimal numeral, and
  that numeral reads back as the version.
- The compile output map holds the last text written for each output name.
- The completion matches are exactly the entries without a replacement
  span, in their order.
- An error's `toString()` is its name alone when the message is empty, and
  otherwise the name, `": "` and the message. An error traceback joined with
  newlines gives back that text.

A consequence of the code as written is also proved. The entry of a compile
result is `cell/<n>.tsx`, but the compiler names its output `cell/<n>.js`.
The kernel looks up `contents[entry]`. So for any cell whose outputs are
all named `*.js`, its `execute_result` reads `<script>undefined</script>`
(`ResultHtmlOfJsOutput`).

Four behaviours of the code are worth stating, because a reader of the
Jupyter protocol may expect otherwise:

- A shell `shutdown_request` sends no `shutdown_reply`, although the
  Jupyter messaging protocol expects one. Only the `busy`/`idle` status
  bracket is sent.
- `codeComplete` itself rejects when the cell is not registered, or when
  there is no quick info or no completion list. The fallback to an empty completion at the cursor is in the
  kernel's `catch`.
- `inspect` does not check that the cell is registered. A missing quick
  info rejects with a `TypeError`, and then no `inspect_reply` is sent.
- A restart disposes the old host before it builds the new one.

## Model

| member | source | states |
|---|---|---|
| JsString.NatToStringDecimal | lib/typescript-host.ts:45 | `n + ""` is non-empty, all digits, has no leading zero, and reads back as `n` |
| JsString.NatToStringInjective | lib/typescript-host.ts:170 | different counters give different numerals |
| JsString.Split | lib/kernel.ts:182 | `split` always yields at least one piece |
| JsString.JoinSplit | lib/kernel.ts:182 | joining the pieces of `split(sep)` with `sep` gives back the text; no piece holds the separator |
| JsString.SplitJoin | lib/kernel.ts:182 | splitting the join of separator-free parts gives back the parts, so `split` is the only such list that joins to the text |
| JsString.JoinEmpty | lib/typescript-host.ts:144 | a join with a non-empty separator is empty iff there are no parts or a single empty part |
| TypeScriptHost.ErrorToString | lib/kernel.ts:182 | `e.toString()` starts with the error's name; it is the name alone iff the message is empty, otherwise the name is followed by `": "` and the message |
| TypeScriptHost.ErrorToStringInjective | lib/kernel.ts:182 | two errors with the same `toString()` are the same error, kind and message |
| TypeScriptHost.CellFileNameInjective | lib/typescript-host.ts:170 | two cells share a file name only if they share a counter |
| TypeScriptHost.CellScript.constructor | lib/typescript-host.ts:166-172 | a new cell has the given counter, version 0 and empty text |
| TypeScriptHost.CellScript.Update | lib/typescript-host.ts:174-177 | the text is replaced and the version goes up by exactly one, even for the same text |
| TypeScriptHost.OutputMapSpec | lib/typescript-host.ts:107-111 | the keys are exactly the output file names; each key holds the text of the last output file with that name |
| TypeScriptHost.TextMatchesMember | lib/typescript-host.ts:132-135 | a name is a match iff some completion entry without a replacement span carries it |
| TypeScriptHost.TextMatchesAppend | lib/typescript-host.ts:132-135 | the filter distributes over concatenation, so matches keep the entries' order |
| TypeScriptHost.Inspect | lib/typescript-host.ts:141-146 | rejects iff there is no quick info, with the `documentation` TypeError; otherwise the details are the documentation texts joined by a space, empty iff there is no text to show |
| TypeScriptHost.CompileUnknownCell | lib/typescript-host.ts:91-94 | an unregistered cell is rejected with a message that does not depend on the service |
| TypeScriptHost.CompileOutcome | lib/typescript-host.ts:89-115 | compilation succeeds iff the cell is registered and the emit was not skipped; then the entry is the cell's file and the keys are the output names |
| TypeScriptHost.LanguageServiceHost.constructor | lib/typescript-host.ts:76-79 | a new host has an empty, well-formed registry |
| TypeScriptHost.LanguageServiceHost.GetScriptFileNames | lib/typescript-host.ts:39-41 | lists every registered name exactly once and nothing else |
| TypeScriptHost.LanguageServiceHost.GetScriptVersion | lib/typescript-host.ts:43-50 | a registered cell's version, as a decimal numeral, shadows the disk; otherwise it is the file's mtime; a file that is neither fails |
| TypeScriptHost.LanguageServiceHost.GetScriptSnapshot | lib/typescript-host.ts:52-62 | a registered cell's text shadows the disk; otherwise it is the disk's text; absent iff the file is neither |
| TypeScriptHost.LanguageServiceHost.AddScript | lib/typescript-host.ts:84-87 | files the cell under its name, replacing only that entry; the key order grows only for a new name; returns the cell; keeps the registry well-formed |
| TypeScriptHost.LanguageServiceHost.ServedText | lib/typescript-host.ts:52-55 | for a registered name, the text `getScriptSnapshot` serves whatever the disk holds |
| TypeScriptHost.LanguageServiceHost.CompileScript | lib/typescript-host.ts:89-115 | the result equals `Compile` on the cell's registration, name and counter and on the text registered under that name, not the argument's own; a success's entry is the cell's file |
| TypeScriptHost.LanguageServiceHost.CodeComplete | lib/typescript-host.ts:117-139 | the result equals `Complete` on the text registered under the cell's name: the registry error, the `textSpan` or `entries` TypeError, or the filtered matches with the quick-info span |
| TypeScriptHost.LanguageServiceHost.Dispose | lib/typescript-host.ts:72-74 | counts one disposal and leaves the registry alone |
| JupyterKernel.ShellRoute | lib/kernel.ts:46-67 | a type has a handler iff it is one of the six routed shell types; `execute_request` and `shutdown_request` map to their own handlers |
| JupyterKernel.ShellRouteInjective | lib/kernel.ts:46-67 | exactly six types are routed, each to a different handler |
| JupyterKernel.BracketReplies | lib/kernel.ts:218-227 | `busy`, then replies to the request, then `idle`, appended to any log, is a bracketed answer to the request |
| JupyterKernel.AppendReplies | lib/kernel.ts:148-198 | appending replies to a request keeps the earlier log and adds only replies |
| JupyterKernel.StatusMessage | lib/kernel.ts:248-252 | a `status` broadcast on IOPub carrying the state, parented by the request |
| JupyterKernel.ResultHtml | lib/kernel.ts:160-177 | the entry's compiled text inside `<script>`, or `undefined` when the entry is not a key |
| JupyterKernel.ResultHtmlOfJsOutput | lib/kernel.ts:160-177 | for any cell `n` whose output files are all named `*.js`, the entry `cell/<n>.tsx` is not a key, and the result is `<script>undefined</script>` |
| JupyterKernel.ExecuteInput | lib/kernel.ts:155-158 | the `execute_input` echo on IOPub with the count and code |
| JupyterKernel.CompileOutcomeMessages | lib/kernel.ts:160-197 | on success: the stdout notice, the ok `execute_reply`, then the `execute_result` with the script HTML. On failure: an error `execute_reply` and an `error` broadcast, both "Compilation Error" with an empty evalue and the same traceback, which is `ErrorToString` of the error (the name alone for an empty message) cut at every newline: its pieces join back to that text and none holds a newline. Every message answers the request and carries the execution count |
| JupyterKernel.CompleteReply | lib/kernel.ts:131-145 | the matches and span of the completion, or no matches with an empty span at the cursor when it rejected; status "ok" |
| JupyterKernel.InspectReply | lib/kernel.ts:110-118 | `found` iff the details are non-empty; data present iff found, holding the plain text and the `<pre>` HTML |
| JupyterKernel.HistoryReply | lib/kernel.ts:123 | a `history_reply` with an empty history |
| JupyterKernel.KernelInfoReply | lib/kernel.ts:202-212 | implementation "jp-ts", the package version, language "typescript" with the TypeScript version and ".tsx", and the protocol version |
| JupyterKernel.ExecuteRepliesAnswer | lib/kernel.ts:155-197 | every message of an execution, echo and outcome, answers the request |
| JupyterKernel.HandlerRepliesAnswer | lib/kernel.ts:42-216 | every message any shell handler sends answers its request |
| JupyterKernel.ExecuteAppendsReplies | lib/kernel.ts:155-197 | an execution's messages, appended to any log, are replies to the request only |
| JupyterKernel.HandlerBracket | lib/kernel.ts:218-227 | for every handler, `busy`, its replies and `idle` appended to any log form a bracket around the request |
| JupyterKernel.MsgTypes | lib/kernel.ts:155-197 | one `msg_type` per message, in order |
| JupyterKernel.ExecuteTrace | lib/kernel.ts:148-198 | an execution sends `execute_input`, `stream`, `execute_reply`, `execute_result` when the emit was not skipped and `execute_input`, `execute_reply`, `error` when it was; all but the stream carry the new count; it resolves iff the emit was not skipped |
| JupyterKernel.RepliesIffResolved | lib/kernel.ts:105-216 | kernel info and inspect send a reply iff their promise resolves |
| JupyterKernel.CellNames | lib/kernel.ts:153 | the names of cells 0 … n-1, in order |
| JupyterKernel.CellNamesExtend | lib/kernel.ts:153 | the next cell's name is new, and registering it extends the list by that name |
| JupyterKernel.Kernel.constructor | lib/kernel.ts:28-31 | a fresh host holding only cell 0, which is current; nothing sent; sockets open |
| JupyterKernel.Kernel.ResetLanguageHost | lib/kernel.ts:279-283 | the old host is disposed once, with its registry intact; a fresh host holding only a fresh cell 0 |
| JupyterKernel.Kernel.Reset | lib/kernel.ts:274-277 | the reset above, resolving |
| JupyterKernel.Kernel.Close | lib/kernel.ts:258-272 | the sockets are closed, nothing is sent, and the host is disposed once |
| JupyterKernel.Kernel.Tick | lib/kernel.ts:97-101 | one armed timer fires: the count drops by one, the sockets close and the host is disposed once more; with no timer armed nothing changes; nothing is sent |
| JupyterKernel.Kernel.HandleShutdownRequest | lib/kernel.ts:90-103 | with restart: reset, the armed timers unchanged; without: one more close timer armed, host and cell untouched; no reply either way |
| JupyterKernel.Kernel.HandleInspectRequest | lib/kernel.ts:105-120 | the current cell takes the code (version +1); an `inspect_reply` is sent iff `Inspect` resolved; otherwise it rejects with `Inspect`'s error |
| JupyterKernel.Kernel.HandleHistoryRequest | lib/kernel.ts:122-125 | sends exactly the `history_reply` and resolves |
| JupyterKernel.Kernel.HandleCompleteRequest | lib/kernel.ts:127-146 | the current cell takes the code; exactly one `complete_reply`, built from `Complete`, is sent; it always resolves |
| JupyterKernel.Kernel.ExecutePrologue | lib/kernel.ts:150-153 | the running cell takes the code; a fresh next cell under a new name is registered and becomes current; the registry stays well-formed |
| JupyterKernel.Kernel.ExecuteEpilogue | lib/kernel.ts:155-197 | with the running cell filed under its name and holding the code, as the prologue leaves it: appends exactly `ExecuteReplies`, the echo of the request's code, then the messages of compiling that cell; settles as compilation did |
| JupyterKernel.Kernel.HandleExecuteRequest | lib/kernel.ts:148-198 | the exact message log: echo with the new count, then the outcome of compiling the running cell's code; only replies appended; resolves iff compilation succeeded, else rejects with its error; one new cell registered |
| JupyterKernel.Kernel.HandleKernelInfo | lib/kernel.ts:200-216 | sends the `kernel_info_reply` and resolves when package.json was read; otherwise it rejects without a reply |
| JupyterKernel.Kernel.Dispatch | lib/kernel.ts:222 | runs the chosen handler: appends exactly `HandlerReplies`, settles as `HandlerSettlement`, changes the state as `HandlerEffect`; the registry stays well-formed |
| JupyterKernel.Kernel.DispatchReadOnlyRequest | lib/kernel.ts:122-216 | kernel info or history: appends exactly the handler's replies, settles as the handler does, changes nothing else |
| JupyterKernel.Kernel.DispatchExecuteRequest | lib/kernel.ts:148-198 | execute: appends exactly the handler's replies, settles as the handler does, makes the `HandlerEffect` change with a fresh current cell |
| JupyterKernel.Kernel.DispatchShutdownRequest | lib/kernel.ts:90-103 | shutdown: sends nothing, resolves, makes the `HandlerEffect` change; a restart installs a fresh host and cell |
| JupyterKernel.Kernel.DispatchQueryRequest | lib/kernel.ts:105-146 | complete or inspect: appends exactly the handler's replies, settles as the handler does; only the current cell's text and version change |
| JupyterKernel.Kernel.Handle | lib/kernel.ts:218-227 | the log grows by exactly `busy`, the handler's replies and `idle`, whatever the settlement; settles as `HandlerSettlement`; the state changes as `HandlerEffect` |
| JupyterKernel.Kernel.OnShellMessage | lib/kernel.ts:42-71 | a routed type gets its handler's exact log (`busy`, replies, `idle`) and state change; any other type changes nothing; the sockets stay open |
| JupyterKernel.Kernel.OnControlMessage | lib/kernel.ts:73-88 | `shutdown_request` closes at once, with no message and one disposal; any other type changes nothing |

## Left out

- Transport: ZeroMQ sockets, HMAC signing, socket binding, the heartbeat
  echo and listener removal. Sending is an append to `Sockets.sent`.
  Closing is the `closed` flag. Delivery stops once the sockets are closed.
- The extra arguments of `respond`: the metadata and protocol version passed
  by the history and kernel-info replies are not modelled.
- Asynchrony: promises settle immediately, in program order. The
  `setTimeout` of a non-restart shutdown arms one timer, counted in
  `pendingCloses`. Each timer firing is one explicit `Tick` step, which
  closes the sockets and disposes the host again. When the timers fire
  relative to later requests is left to the caller of `Tick`.
  Interleavings of several outstanding requests are not modelled.
- The language service's internals: type checking, emit, completion and
  quick info are the `LanguageService` oracle.
- The oracle sees only the queried cell's own name and text, not the rest of
  the registry. Cross-cell imports are therefore not captured.
- `getCompilationSettings`, `getCurrentDirectory`, `getDefaultLibFileName`,
  the document registry and `FormatDiagnosticsHost`. They only configure the
  foreign service. `formatDiagnostics` is part of the oracle.
- The file system: `fs.statSync`, `existsSync` and `readFileSync` are a
  `disk` map parameter.
- The exact text of the `ENOENT` error raised by `statSync`.
- The version read from package.json and `typescript.version` are inputs of
  `HandleKernelInfo` (`Environment`).
- Console logging, and both `try`/`catch` blocks that only log.
- A handler throwing synchronously inside `handle`. None of the modelled
  handlers does. Only foreign code could, and the model has none that
  throws.
- JavaScript numbers: cell counters and versions are `nat`. Cursor positions
  and spans are `int`, with no floating point or 2^53 limit.
- `mtime.getTime()`: the mtime is a `nat` of milliseconds.
- TypeScriptHost.Inspect: is given the cell's name and its own text, with no
  registry lookup. For a cell that is not registered the service would read
  the disk or find no file; that case is not modelled. The kernel only
  inspects its current cell, which is always registered (`Kernel.Valid`).
- JupyterKernel.InspectReply: when the details are empty, the code sends
  `data: ""` (the falsy string). The model sends `None` there.
- `lib/webpacker.ts` and `kernels/jp-ts/run.ts` are not part of this model.
- The tests' `updateScript` is not defined in `lib/typescript-host.ts`. The
  tests' setup is what `AddScript` does.
