/** The cell registry and the façade over the TypeScript language service
    (lib/typescript-host.ts). The language service itself is foreign code:
    it is the `LanguageService` oracle below, a record of pure functions
    that the host's operations receive as a parameter, describing what the
    service answers at the time of the call. Each query of `compileScript`
    and `codeComplete` is given the file name and the text the host's
    snapshot callback serves for it, that of the cell registered under the
    name. */
module TypeScriptHost {
  import opened Wrappers
  import opened JsString

  // ---------------------------------------------------------------------
  // What the language service answers (the shapes the host reads)
  // ---------------------------------------------------------------------

  datatype Diagnostic = Diagnostic(fileName: Option<string>, start: int, length: int, messageText: string, code: int)

  datatype OutputFile = OutputFile(name: string, text: string)

  datatype EmitOutput = EmitOutput(emitSkipped: bool, outputFiles: seq<OutputFile>)

  datatype TextSpan = TextSpan(start: int, length: int)

  datatype SymbolDisplayPart = SymbolDisplayPart(text: string, kind: string)

  datatype QuickInfo = QuickInfo(textSpan: TextSpan, documentation: seq<SymbolDisplayPart>)

  datatype CompletionEntry = CompletionEntry(name: string, replacementSpan: Option<TextSpan>)

  datatype CompletionInfo = CompletionInfo(entries: seq<CompletionEntry>)

  /** The language service, plus the package's `formatDiagnostics`. A query
      that TypeScript answers with `undefined` answers `None` here. */
  datatype LanguageService = LanguageService(
    emitOutput: (string, string) -> EmitOutput,
    compilerOptionsDiagnostics: seq<Diagnostic>,
    syntacticDiagnostics: (string, string) -> seq<Diagnostic>,
    semanticDiagnostics: (string, string) -> seq<Diagnostic>,
    quickInfoAtPosition: (string, string, int) -> Option<QuickInfo>,
    completionsAtPosition: (string, string, int) -> Option<CompletionInfo>,
    formatDiagnostics: seq<Diagnostic> -> string)

  /** A file on disk, as the host's disk fallback sees it. */
  datatype DiskFile = DiskFile(mtime: nat, text: string)

  /** The two kinds of JavaScript exception the host's promises reject with. */
  datatype JsError = Error(message: string) | TypeError(message: string)

  /** The `name` an exception of this kind carries. */
  function ErrorName(e: JsError): string
  {
    match e
    case Error(_) => "Error"
    case TypeError(_) => "TypeError"
  }

  /** `e.toString()`: the name alone when the message is empty, otherwise
      the name, a colon and a space, then the message. */
  function ErrorToString(e: JsError): (s: string)
    ensures |s| >= |ErrorName(e)| && s[..|ErrorName(e)|] == ErrorName(e)
    ensures e.message == "" <==> s == ErrorName(e)
    ensures e.message != "" ==> s[|ErrorName(e)|..] == ": " + e.message
  {
    if e.message == "" then ErrorName(e) else ErrorName(e) + ": " + e.message
  }

  /** `toString` loses nothing: the kind and the message can be read back
      from the text. */
  lemma ErrorToStringInjective(e1: JsError, e2: JsError)
    ensures ErrorToString(e1) == ErrorToString(e2) ==> e1 == e2
  {
    var s1, s2 := ErrorToString(e1), ErrorToString(e2);
    if e1.Error? != e2.Error? {
      assert s1[0] != s2[0];
    } else if e1.message != "" && e2.message != "" && s1 == s2 {
      assert e1.message == s1[|ErrorName(e1)| + 2..];
      assert e2.message == s2[|ErrorName(e2)| + 2..];
    }
  }

  /** The message of reading a property of `undefined`. */
  function UndefinedProperty(property: string): string
  {
    "Cannot read property '" + property + "' of undefined"
  }

  datatype CompileResult = CompileResult(entry: string, contents: map<string, string>)

  datatype CompletionResult = CompletionResult(textMatches: seq<string>, cursorStart: int, cursorEnd: int)

  datatype InspectResult = InspectResult(details: string)

  // ---------------------------------------------------------------------
  // Cell file names
  // ---------------------------------------------------------------------

  /** The virtual file name of cell `n`. */
  function CellFileName(n: nat): string
  {
    "cell/" + NatToString(n) + ".tsx"
  }

  /** Different cells never share a file name. */
  lemma CellFileNameInjective(a: nat, b: nat)
    requires CellFileName(a) == CellFileName(b)
    ensures a == b
  {
    var sa, sb := NatToString(a), NatToString(b);
    assert |sa| == |sb| by {
      assert |CellFileName(a)| == 5 + |sa| + 4;
      assert |CellFileName(b)| == 5 + |sb| + 4;
    }
    assert sa == CellFileName(a)[5..5 + |sa|];
    assert sb == CellFileName(b)[5..5 + |sb|];
    NatToStringInjective(a, b);
  }

  // ---------------------------------------------------------------------
  // CellScript
  // ---------------------------------------------------------------------

  /** One cell: its counter fixes its file name; `Update` rewrites its text
      and bumps its version. */
  class CellScript {
    const cellCounter: nat
    const tmpFileName: string := CellFileName(cellCounter)
    var version: nat
    var contents: string

    constructor (cellCounter: nat)
      ensures this.cellCounter == cellCounter
      ensures version == 0 && contents == ""
    {
      this.cellCounter := cellCounter;
      version := 0;
      contents := "";
    }

    /** Replaces the text; the version goes up by one even when the new text
        equals the old one. */
    method Update(contents: string)
      modifies this
      ensures this.contents == contents
      ensures version == old(version) + 1
    {
      this.contents := contents;
      version := version + 1;
    }
  }

  // ---------------------------------------------------------------------
  // The results the façade computes from the service's answers
  // ---------------------------------------------------------------------

  /** The map `compileScript`'s `forEach` builds: one key per output file
      name, a later file overwriting an earlier one of the same name. */
  function OutputMap(files: seq<OutputFile>): map<string, string>
    decreases |files|
  {
    if |files| == 0 then map[]
    else OutputMap(files[..|files| - 1])[files[|files| - 1].name := files[|files| - 1].text]
  }

  /** The keys of the output map are exactly the output file names, and each
      holds the text of the last output file of that name. */
  lemma {:induction false} OutputMapSpec(files: seq<OutputFile>)
    ensures OutputMap(files).Keys == set i | 0 <= i < |files| :: files[i].name
    ensures forall i :: 0 <= i < |files| && (forall j :: i < j < |files| ==> files[j].name != files[i].name)
              ==> OutputMap(files)[files[i].name] == files[i].text
    decreases |files|
  {
    if |files| > 0 {
      var init := files[..|files| - 1];
      OutputMapSpec(init);
      assert forall i :: 0 <= i < |init| ==> init[i] == files[i];
      var last := files[|files| - 1];
      calc {
        OutputMap(files).Keys;
        OutputMap(init).Keys + {last.name};
        (set i | 0 <= i < |init| :: init[i].name) + {last.name};
        set i | 0 <= i < |files| :: files[i].name;
      }
    }
  }

  /** The names of the completion entries that carry no replacement span,
      in their original order. */
  function TextMatches(entries: seq<CompletionEntry>): seq<string>
    decreases |entries|
  {
    if |entries| == 0 then []
    else
      var last := entries[|entries| - 1];
      TextMatches(entries[..|entries| - 1]) + (if last.replacementSpan.None? then [last.name] else [])
  }

  /** Filtering distributes over concatenation, so the matches keep the
      entries' order. */
  lemma {:induction false} TextMatchesAppend(a: seq<CompletionEntry>, b: seq<CompletionEntry>)
    ensures TextMatches(a + b) == TextMatches(a) + TextMatches(b)
    decreases |b|
  {
    if |b| > 0 {
      var b' := b[..|b| - 1];
      assert (a + b)[..|a + b| - 1] == a + b';
      TextMatchesAppend(a, b');
    } else {
      assert a + b == a;
    }
  }

  /** A name is a match exactly when some entry without a replacement span
      carries it. */
  lemma {:induction false} TextMatchesMember(entries: seq<CompletionEntry>, x: string)
    ensures x in TextMatches(entries) <==>
              exists i :: 0 <= i < |entries| && entries[i].replacementSpan.None? && entries[i].name == x
    decreases |entries|
  {
    if |entries| > 0 {
      var init := entries[..|entries| - 1];
      TextMatchesMember(init, x);
      assert forall i :: 0 <= i < |init| ==> init[i] == entries[i];
      if x in TextMatches(entries) && x !in TextMatches(init) {
        var n := |entries| - 1;
        assert entries[n].replacementSpan.None? && entries[n].name == x;
      }
    }
  }

  /** The texts of the documentation parts. */
  function DocumentationTexts(parts: seq<SymbolDisplayPart>): (texts: seq<string>)
    ensures |texts| == |parts|
    ensures forall i :: 0 <= i < |parts| ==> texts[i] == parts[i].text
  {
    seq(|parts|, i requires 0 <= i < |parts| => parts[i].text)
  }

  /** The message of running or completing a cell that is not registered. */
  function UnknownCellMessage(action: string, cellCounter: nat): string
  {
    "Attempted to " + action + " cell " + NatToString(cellCounter) + " but it did not exist in the current service"
  }

  /** `compileScript` on the service's answers: an unregistered cell is
      rejected before the service is asked anything; then the service is
      asked for its emit output; a skipped emit rejects with every
      diagnostic, and otherwise the output files are collected. */
  function Compile(registered: bool, fileName: string, text: string, cellCounter: nat, svc: LanguageService): Result<CompileResult, JsError>
  {
    if !registered then
      Err(Error(UnknownCellMessage("run", cellCounter)))
    else
      var output := svc.emitOutput(fileName, text);
      if output.emitSkipped then
        Err(Error(svc.formatDiagnostics(
          svc.compilerOptionsDiagnostics
          + svc.syntacticDiagnostics(fileName, text)
          + svc.semanticDiagnostics(fileName, text))))
      else
        Ok(CompileResult(fileName, OutputMap(output.outputFiles)))
  }

  /** `codeComplete` on the service's answers. Reading `textSpan` of a
      missing quick info, or `entries` of missing completions, throws inside
      the promise's executor and so rejects it. */
  function Complete(registered: bool, fileName: string, text: string, cellCounter: nat, cursor: int, svc: LanguageService): Result<CompletionResult, JsError>
  {
    if !registered then
      Err(Error(UnknownCellMessage("complete", cellCounter)))
    else
      match svc.quickInfoAtPosition(fileName, text, cursor)
      case None => Err(TypeError(UndefinedProperty("textSpan")))
      case Some(info) =>
        match svc.completionsAtPosition(fileName, text, cursor)
        case None => Err(TypeError(UndefinedProperty("entries")))
        case Some(completions) =>
          Ok(CompletionResult(TextMatches(completions.entries),
                              info.textSpan.start, info.textSpan.start + info.textSpan.length))
  }

  /** `inspect` on the service's answers: no registry check; missing quick
      info rejects. */
  function Inspect(fileName: string, text: string, cursor: int, svc: LanguageService): (r: Result<InspectResult, JsError>)
    ensures r.Err? <==> svc.quickInfoAtPosition(fileName, text, cursor).None?
    ensures r.Err? ==> r.error == TypeError(UndefinedProperty("documentation"))
    ensures r.Ok? ==>
              var docs := svc.quickInfoAtPosition(fileName, text, cursor).value.documentation;
              Join(DocumentationTexts(docs), " ") == r.value.details &&
              (r.value.details == "" <==> |docs| == 0 || (|docs| == 1 && docs[0].text == ""))
  {
    match svc.quickInfoAtPosition(fileName, text, cursor)
    case None => Err(TypeError(UndefinedProperty("documentation")))
    case Some(info) =>
      var details := Join(DocumentationTexts(info.documentation), " ");
      JoinEmpty(DocumentationTexts(info.documentation), " ");
      Ok(InspectResult(details))
  }

  /** An unregistered cell fails to compile with the same message whatever
      the service would have answered: the service is not consulted. */
  lemma CompileUnknownCell(fileName: string, text: string, cellCounter: nat, svc1: LanguageService, svc2: LanguageService)
    ensures Compile(false, fileName, text, cellCounter, svc1) == Compile(false, fileName, text, cellCounter, svc2)
    ensures Compile(false, fileName, text, cellCounter, svc1).Err?
  {
  }

  /** Compilation is diagnostics-first: it yields a result exactly when the
      cell is registered and the emit was not skipped, and a rejection never
      carries any output. */
  lemma CompileOutcome(registered: bool, fileName: string, text: string, cellCounter: nat, svc: LanguageService)
    ensures Compile(registered, fileName, text, cellCounter, svc).Ok? <==>
              registered && !svc.emitOutput(fileName, text).emitSkipped
    ensures Compile(registered, fileName, text, cellCounter, svc).Ok? ==>
              var output := svc.emitOutput(fileName, text).outputFiles;
              Compile(registered, fileName, text, cellCounter, svc).value.entry == fileName &&
              Compile(registered, fileName, text, cellCounter, svc).value.contents.Keys == set i | 0 <= i < |output| :: output[i].name
  {
    if registered && !svc.emitOutput(fileName, text).emitSkipped {
      OutputMapSpec(svc.emitOutput(fileName, text).outputFiles);
    }
  }

  // ---------------------------------------------------------------------
  // LanguageServiceHost
  // ---------------------------------------------------------------------

  /** The host: the registry `scripts` from file name to cell, with the
      order in which JavaScript enumerates its keys, and the number of times
      its service has been disposed. */
  class LanguageServiceHost {
    const workingDir: string
    var scripts: map<string, CellScript>
    var fileOrder: seq<string>
    var disposals: nat

    /** Each cell is filed under its own name, and `fileOrder` lists every
        key once. */
    ghost predicate Valid()
      reads this
    {
      (forall name :: name in scripts ==> scripts[name].tmpFileName == name) &&
      (forall i, j :: 0 <= i < j < |fileOrder| ==> fileOrder[i] != fileOrder[j]) &&
      (forall name :: name in scripts <==> name in fileOrder)
    }

    constructor (workingDir: string)
      ensures Valid()
      ensures this.workingDir == workingDir
      ensures scripts == map[] && fileOrder == [] && disposals == 0
    {
      this.workingDir := workingDir;
      scripts := map[];
      fileOrder := [];
      disposals := 0;
    }

    /** `getScriptFileNames`: every registered name, once each. */
    function GetScriptFileNames(): (names: seq<string>)
      reads this
      requires Valid()
      ensures forall i, j :: 0 <= i < j < |names| ==> names[i] != names[j]
      ensures forall name :: name in names <==> name in scripts
    {
      fileOrder
    }

    /** `getScriptVersion`: a registered cell's version as a decimal numeral,
        shadowing the disk; otherwise the file's modification time; and the
        `statSync` exception for a file that is neither. */
    function GetScriptVersion(fileName: string, disk: map<string, DiskFile>): (r: Result<string, JsError>)
      reads this, scripts.Values
      ensures fileName in scripts ==>
                r.Ok? && IsDigits(r.value) && DecimalValue(r.value) == scripts[fileName].version
      ensures fileName !in scripts && fileName in disk ==>
                r.Ok? && IsDigits(r.value) && DecimalValue(r.value) == disk[fileName].mtime
      ensures fileName !in scripts && fileName !in disk ==> r.Err?
    {
      if fileName in scripts then
        NatToStringDecimal(scripts[fileName].version);
        Ok(NatToString(scripts[fileName].version))
      else if fileName in disk then
        NatToStringDecimal(disk[fileName].mtime);
        Ok(NatToString(disk[fileName].mtime))
      else
        Err(Error("ENOENT: no such file or directory, stat '" + fileName + "'"))
    }

    /** `getScriptSnapshot`: a registered cell's text, shadowing the disk;
        otherwise the disk's text; `undefined` for a missing file. */
    function GetScriptSnapshot(fileName: string, disk: map<string, DiskFile>): (r: Option<string>)
      reads this, scripts.Values
      ensures r.Some? <==> fileName in scripts || fileName in disk
      ensures fileName in scripts ==> r == Some(scripts[fileName].contents)
      ensures fileName !in scripts && fileName in disk ==> r == Some(disk[fileName].text)
    {
      if fileName in scripts then Some(scripts[fileName].contents)
      else if fileName in disk then Some(disk[fileName].text)
      else None
    }

    /** `addScript`: files the cell under its name, replacing any cell of
        that name and touching no other entry, and returns it. */
    method AddScript(script: CellScript) returns (r: CellScript)
      requires Valid()
      modifies this
      ensures Valid()
      ensures r == script
      ensures scripts == old(scripts)[script.tmpFileName := script]
      ensures fileOrder == if script.tmpFileName in old(scripts) then old(fileOrder) else old(fileOrder) + [script.tmpFileName]
      ensures disposals == old(disposals)
    {
      if script.tmpFileName !in scripts {
        fileOrder := fileOrder + [script.tmpFileName];
      }
      scripts := scripts[script.tmpFileName := script];
      r := script;
    }

    /** The text the service reads for a file through `getScriptSnapshot`
        when the host asks about it: that of the cell registered under the
        name, whatever the disk holds. The host asks only about registered
        cells, so the text of any other name is never used. */
    function ServedText(fileName: string): (text: string)
      reads this, scripts.Values
      ensures fileName in scripts ==> forall disk :: GetScriptSnapshot(fileName, disk) == Some(text)
    {
      if fileName in scripts then scripts[fileName].contents else ""
    }

    /** `compileScript`: the cell is used for its name and counter only; the
        service compiles the text registered under that name. */
    method CompileScript(script: CellScript, svc: LanguageService) returns (r: Result<CompileResult, JsError>)
      ensures r == Compile(script.tmpFileName in scripts, script.tmpFileName, ServedText(script.tmpFileName), script.cellCounter, svc)
      ensures r.Ok? ==> r.value.entry == script.tmpFileName
    {
      if script.tmpFileName !in scripts {
        return Err(Error(UnknownCellMessage("run", script.cellCounter)));
      }
      var text := scripts[script.tmpFileName].contents;
      var output := svc.emitOutput(script.tmpFileName, text);
      if output.emitSkipped {
        var allDiagnostics := svc.compilerOptionsDiagnostics
                              + svc.syntacticDiagnostics(script.tmpFileName, text)
                              + svc.semanticDiagnostics(script.tmpFileName, text);
        return Err(Error(svc.formatDiagnostics(allDiagnostics)));
      }
      var contents: map<string, string> := map[];
      var outputFiles := output.outputFiles;
      for i := 0 to |outputFiles|
        invariant contents == OutputMap(outputFiles[..i])
      {
        assert outputFiles[..i + 1][..i] == outputFiles[..i];
        contents := contents[outputFiles[i].name := outputFiles[i].text];
      }
      assert outputFiles[..|outputFiles|] == outputFiles;
      r := Ok(CompileResult(script.tmpFileName, contents));
    }

    /** `codeComplete`: as for `compileScript`, the service reads the text
        registered under the cell's name. */
    method CodeComplete(script: CellScript, cursor: int, svc: LanguageService) returns (r: Result<CompletionResult, JsError>)
      ensures r == Complete(script.tmpFileName in scripts, script.tmpFileName, ServedText(script.tmpFileName), script.cellCounter, cursor, svc)
    {
      if script.tmpFileName !in scripts {
        return Err(Error(UnknownCellMessage("complete", script.cellCounter)));
      }
      var text := scripts[script.tmpFileName].contents;
      var info := svc.quickInfoAtPosition(script.tmpFileName, text, cursor);
      if info.None? {
        return Err(TypeError(UndefinedProperty("textSpan")));
      }
      var span := info.value.textSpan;
      var completions := svc.completionsAtPosition(script.tmpFileName, text, cursor);
      if completions.None? {
        return Err(TypeError(UndefinedProperty("entries")));
      }
      var entries := completions.value.entries;
      var textMatches: seq<string> := [];
      for i := 0 to |entries|
        invariant textMatches == TextMatches(entries[..i])
      {
        assert entries[..i + 1][..i] == entries[..i];
        if entries[i].replacementSpan.None? {
          textMatches := textMatches + [entries[i].name];
        }
      }
      assert entries[..|entries|] == entries;
      r := Ok(CompletionResult(textMatches, span.start, span.start + span.length));
    }

    /** `dispose`: releases the service; the registry stays as it is. */
    method Dispose()
      modifies this
      ensures disposals == old(disposals) + 1
      ensures scripts == old(scripts) && fileOrder == old(fileOrder)
    {
      disposals := disposals + 1;
    }
  }
}
