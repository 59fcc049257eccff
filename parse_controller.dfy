/**
 * The parse coordinator of the Rascal editor: `ParseController` and its
 * inner `ParseJob` (src/org/rascalmpl/eclipse/editor/ParseController.java),
 * run as plain sequential calls. The parser, the module-name extraction and
 * the project reload are outside the model: the parser's outcome is an
 * argument, and each reload is recorded with the ignore set it was given.
 */
module Editor {
  import opened Wrappers
  import opened JavaLang
  import opened ErrorTranslation

  /** A parse tree produced by the parser; its structure does not matter here. */
  type Tree(==)

  /** An `IPath`; only whether it is absolute matters here. */
  datatype Path = Path(text: JString, absolute: bool)

  /** An `ISourceProject`, by name. */
  datatype Project = Project(name: JString)

  /** What `parseModule` did: a tree and the name of the module it defines, or a failure. */
  datatype ParseOutcome = Parsed(tree: Tree, moduleName: JString) | Failed(failure: Failure)

  /** `initialize` accepts an absolute path outside any project, or a relative path inside one. */
  predicate InitializeAccepts(path: Path, project: Option<Project>)
  {
    path.absolute <==> project.None?
  }

  /** The guard of `run`: there is nothing to parse, or the unit cannot be resolved. */
  predicate Unresolvable(input: Option<Source>, path: Option<Path>, project: Option<Project>)
  {
    input.None? || path.None? || (!path.value.absolute && project.None?)
  }

  // ---------------------------------------------------------------------
  // The job as a state machine
  // ---------------------------------------------------------------------

  /** The fields of a `ParseJob` the model tracks. */
  datatype JobState = JobState(input: Option<Source>, parseTree: Option<Tree>,
                               name: Option<JString>, ignore: set<JString>)

  /** A job that has never run. */
  const FreshJob := JobState(None, None, None, {})

  /**
   * One `run`: the job's new state, the ignore set handed to the project
   * reload if one was made, and the diagnostic handed to the message handler
   * if one was.
   */
  datatype RunEffect = RunEffect(next: JobState, reload: Option<set<JString>>, message: Option<Diagnostic>)

  function RunSpec(isSpaceChar: int -> bool, s: JobState, path: Option<Path>, project: Option<Project>,
                   outcome: ParseOutcome): (e: RunEffect)
    ensures e.next.input == s.input
    ensures Unresolvable(s.input, path, project) ==>
      e.next == s.(parseTree := None) && e.reload.None? && e.message.None?
    ensures !Unresolvable(s.input, path, project) ==>
      e.reload == (if project.Some? then Some(s.ignore) else None)
    ensures e.next.parseTree.Some? <==> !Unresolvable(s.input, path, project) && outcome.Parsed?
    ensures !Unresolvable(s.input, path, project) && outcome.Parsed? ==>
      e.next.ignore == {outcome.moduleName} && e.next.name == Some(outcome.moduleName)
    ensures outcome.Failed? ==> e.next.ignore == s.ignore && e.next.name == s.name
    ensures e.message.Some? ==> !Unresolvable(s.input, path, project) && outcome.Failed?
  {
    if Unresolvable(s.input, path, project) then
      RunEffect(s.(parseTree := None), None, None)
    else
      var reload := if project.Some? then Some(s.ignore) else None;
      match outcome
      case Parsed(tree, moduleName) =>
        RunEffect(s.(parseTree := Some(tree), name := Some(moduleName), ignore := {moduleName}), reload, None)
      case Failed(failure) =>
        RunEffect(s.(parseTree := None), reload, Translate(isSpaceChar, s.input.value, failure))
  }

  /** One request to `parse(String, ...)`: the text, and what the parser will make of it. */
  datatype Request = Request(input: Option<Source>, outcome: ParseOutcome)

  /** `parse(String, ...)`: hand the input to the job, then run it. */
  function ParseSpec(isSpaceChar: int -> bool, s: JobState, path: Option<Path>, project: Option<Project>,
                     req: Request): RunEffect
  {
    RunSpec(isSpaceChar, s.(input := req.input), path, project, req.outcome)
  }

  /** The job's state after a series of parse requests, oldest first. */
  function ParseAll(isSpaceChar: int -> bool, s: JobState, path: Option<Path>, project: Option<Project>,
                    reqs: seq<Request>): JobState
    decreases |reqs|
  {
    if reqs == [] then s
    else ParseSpec(isSpaceChar, ParseAll(isSpaceChar, s, path, project, reqs[..|reqs| - 1]),
                   path, project, reqs[|reqs| - 1]).next
  }

  /** The module defined by the latest request that parsed successfully. */
  function LastParsedModule(path: Option<Path>, project: Option<Project>, reqs: seq<Request>): Option<JString>
    decreases |reqs|
  {
    if reqs == [] then None
    else
      var r := reqs[|reqs| - 1];
      if !Unresolvable(r.input, path, project) && r.outcome.Parsed? then Some(r.outcome.moduleName)
      else LastParsedModule(path, project, reqs[..|reqs| - 1])
  }

  /**
   * The ignore set only ever protects the module of the latest successful
   * parse: after any series of requests it is exactly that module, or what it
   * was before if no request parsed.
   */
  lemma {:induction false} IgnoreIsLastParsedModule(isSpaceChar: int -> bool, s: JobState, path: Option<Path>,
                                                    project: Option<Project>, reqs: seq<Request>)
    ensures ParseAll(isSpaceChar, s, path, project, reqs).ignore ==
      match LastParsedModule(path, project, reqs)
      case Some(m) => {m}
      case None => s.ignore
    decreases |reqs|
  {
    if reqs != [] {
      IgnoreIsLastParsedModule(isSpaceChar, s, path, project, reqs[..|reqs| - 1]);
    }
  }

  /** Starting from a fresh job, the ignore set never holds more than one module name. */
  lemma IgnoreHoldsAtMostOneModule(isSpaceChar: int -> bool, path: Option<Path>, project: Option<Project>,
                                   reqs: seq<Request>)
    ensures |ParseAll(isSpaceChar, FreshJob, path, project, reqs).ignore| <= 1
    ensures LastParsedModule(path, project, reqs).None? ==> ParseAll(isSpaceChar, FreshJob, path, project, reqs).ignore == {}
  {
    IgnoreIsLastParsedModule(isSpaceChar, FreshJob, path, project, reqs);
  }

  /**
   * After any non-empty series of requests the job holds a tree exactly when
   * the latest request parsed: a failure does not fall back to an earlier tree.
   */
  lemma TreeOnlyFromLatestRequest(isSpaceChar: int -> bool, s: JobState, path: Option<Path>,
                                  project: Option<Project>, reqs: seq<Request>)
    requires reqs != []
    ensures var last := reqs[|reqs| - 1];
            ParseAll(isSpaceChar, s, path, project, reqs).parseTree ==
              if !Unresolvable(last.input, path, project) && last.outcome.Parsed? then Some(last.outcome.tree) else None
  {
  }

  // ---------------------------------------------------------------------
  // The objects
  // ---------------------------------------------------------------------

  /** The editor's `IMessageHandler`: the diagnostics it has received, oldest first. */
  class MessageHandler {
    var messages: seq<Diagnostic>

    constructor ()
      ensures messages == []
    {
      messages := [];
    }

    /** `handleSimpleMessage`. */
    method HandleSimpleMessage(d: Diagnostic)
      modifies this
      ensures messages == old(messages) + [d]
    {
      messages := messages + [d];
    }
  }

  /** `ParseController.ParseJob`. */
  class ParseJob {
    var input: Option<Source>
    var parseTree: Option<Tree>
    var name: Option<JString>
    var ignore: set<JString>
    /** The files that carry editor markers, or `None` (Java's `null`). */
    var markedFiles: Option<set<Path>>
    /** The ignore sets handed to `reloadProject`, oldest first. */
    ghost var reloads: seq<set<JString>>

    function State(): JobState
      reads this
    {
      JobState(input, parseTree, name, ignore)
    }

    constructor ()
      ensures State() == FreshJob && markedFiles.None? && reloads == []
    {
      input, parseTree, name, ignore := None, None, None, {};
      markedFiles := None;
      reloads := [];
    }

    /** `initialize(String)`: the text the next run parses. */
    method Initialize(input: Option<Source>)
      modifies this`input
      ensures State() == old(State()).(input := input)
    {
      this.input := input;
    }

    /** `clearMarkers`: forget the marked files once their markers are deleted. */
    method ClearMarkers()
      modifies this`markedFiles
      ensures markedFiles.None?
    {
      if markedFiles.Some? {
        markedFiles := None;
      }
    }

    /**
     * `run`: parse the current input unless it cannot be resolved, reload the
     * project's other modules first (sparing those in the ignore set), and
     * then either keep the tree and protect its module, or report the failure.
     */
    method Run(isSpaceChar: int -> bool, path: Option<Path>, project: Option<Project>,
               handler: MessageHandler, outcome: ParseOutcome)
      modifies this, handler
      ensures var e := RunSpec(isSpaceChar, old(State()), path, project, outcome);
              State() == e.next &&
              reloads == old(reloads) + ToSeq(e.reload) &&
              handler.messages == old(handler.messages) + ToSeq(e.message)
      ensures markedFiles.None?
    {
      ClearMarkers();
      parseTree := None;
      if input.None? || path.None? || (!path.value.absolute && project.None?) {
        return;
      }
      if project.Some? {
        reloads := reloads + [ignore];
      }
      match outcome {
        case Parsed(tree, moduleName) =>
          parseTree := Some(tree);
          name := Some(moduleName);
          ignore := {};
          ignore := ignore + {moduleName};
        case Failed(failure) =>
          Report(isSpaceChar, input.value, handler, failure);
      }
    }

    /** The `catch` clauses of `run`: at most one diagnostic per failure. */
    method Report(isSpaceChar: int -> bool, input: Source, handler: MessageHandler, failure: Failure)
      modifies handler
      ensures handler.messages == old(handler.messages) + ToSeq(Translate(isSpaceChar, input, failure))
    {
      match failure {
        case ParseError(text, offset, length, at) =>
          ReportSyntaxError(isSpaceChar, input, handler, text, offset, length, at);
        case StaticError(message, loc) =>
          if loc.span.Some? {
            ReportAt(handler, message, loc);
          }
        case Throw(message, loc) =>
          ReportAt(handler, message, loc);
        case Ambiguous(message, loc) =>
          ReportAt(handler, message, loc);
        case FactTypeUse =>
        case Unclassified =>
      }
    }

    /** The `ParseError` clause of `run`. */
    method ReportSyntaxError(isSpaceChar: int -> bool, input: Source, handler: MessageHandler,
                             text: JString, offset0: int32, length: int32, at: Lines)
      modifies handler
      ensures handler.messages ==
        old(handler.messages) + ToSeq(SyntaxDiagnostic(isSpaceChar, input, text, offset0, length, at))
    {
      var offset := offset0;
      if offset > 0 && offset == |input| {
        offset := offset - 1;
      }
      assert offset == ClampOffset(offset0, |input|);
      var k := Min(Wrap(offset + LookaheadLength), |input|);
      if !(0 <= offset <= k) {
        assert Lookahead(input, offset).None?;
        return;  // `substring` throws out of `run`
      }
      var follow := input[offset .. k];
      assert Lookahead(input, offset) == Some(follow);
      var msg := BuildSyntaxMessage(isSpaceChar, text, follow);
      handler.HandleSimpleMessage(SetParseError(offset, length, Wrap(at.beginLine + 1), at.beginColumn,
                                                Wrap(at.endLine + 1), at.endColumn, msg));
    }

    /** `setParseError` with a location's fields; nothing when the location lacks them (the getter throws). */
    method ReportAt(handler: MessageHandler, message: JString, loc: Location)
      modifies handler
      ensures handler.messages == old(handler.messages) + ToSeq(FromLocation(message, loc))
    {
      if loc.span.Some? && loc.lines.Some? {
        var sp, ln := loc.span.value, loc.lines.value;
        handler.HandleSimpleMessage(SetParseError(sp.offset, sp.length, ln.beginLine, ln.beginColumn,
                                                  ln.endLine, ln.endColumn, message));
      }
    }
  }

  /** `ParseController`: one per edited source unit. */
  class ParseController {
    var handler: MessageHandler
    var project: Option<Project>
    var path: Path
    var parseTree: Option<Tree>
    var document: Option<Source>
    var job: ParseJob

    ghost predicate Valid()
      reads this
    {
      InitializeAccepts(path, project)
    }

    /** `initialize`: bind the unit; the path must be absolute exactly when there is no project. */
    constructor Initialize(filePath: Path, project: Option<Project>, handler: MessageHandler)
      requires InitializeAccepts(filePath, project)
      ensures Valid()
      ensures this.path == filePath && this.project == project && this.handler == handler
      ensures parseTree.None? && document.None?
      ensures fresh(job) && job.State() == FreshJob && job.reloads == []
    {
      this.path := filePath;
      this.handler := handler;
      this.project := project;
      this.parseTree := None;
      this.document := None;
      this.job := new ParseJob();
    }

    /**
     * `parse(String, ...)`: run the job on `input` and return (and keep) the
     * tree it produced; `None` after any failure, even if an earlier parse
     * produced a tree.
     */
    method Parse(isSpaceChar: int -> bool, input: Option<Source>, outcome: ParseOutcome) returns (tree: Option<Tree>)
      requires Valid()
      modifies this, job, handler
      ensures Valid()
      ensures job == old(job) && handler == old(handler) && path == old(path) && project == old(project)
      ensures document == old(document)
      ensures var e := ParseSpec(isSpaceChar, old(job.State()), Some(path), project, Request(input, outcome));
              job.State() == e.next &&
              job.reloads == old(job.reloads) + ToSeq(e.reload) &&
              handler.messages == old(handler.messages) + ToSeq(e.message)
      ensures tree == parseTree == job.parseTree
      ensures job.markedFiles.None?
      ensures tree == (if input.Some? && outcome.Parsed? then Some(outcome.tree) else None)
      ensures input.Some? ==> job.reloads == old(job.reloads) + (if project.Some? then [old(job.ignore)] else [])
    {
      parseTree := None;
      job.Initialize(input);
      job.Run(isSpaceChar, Some(path), project, handler, outcome);
      parseTree := job.parseTree;
      tree := parseTree;
    }

    /** `parse(IDocument, ...)`: nothing to do without a document; otherwise parse its text. */
    method ParseDocument(isSpaceChar: int -> bool, doc: Option<Source>, outcome: ParseOutcome) returns (tree: Option<Tree>)
      requires Valid()
      modifies this, job, handler
      ensures Valid()
      ensures job == old(job) && handler == old(handler) && path == old(path) && project == old(project)
      ensures doc.None? ==> tree.None? && parseTree == old(parseTree) && document == old(document) &&
                            job.State() == old(job.State()) && handler.messages == old(handler.messages) &&
                            job.reloads == old(job.reloads) && job.markedFiles == old(job.markedFiles)
      ensures doc.Some? ==>
        document == doc && job.markedFiles.None? &&
        var e := ParseSpec(isSpaceChar, old(job.State()), Some(path), project, Request(doc, outcome));
        job.State() == e.next && tree == parseTree == e.next.parseTree &&
        job.reloads == old(job.reloads) + ToSeq(e.reload) &&
        job.reloads == old(job.reloads) + (if project.Some? then [old(job.ignore)] else []) &&
        handler.messages == old(handler.messages) + ToSeq(e.message)
    {
      if doc.None? {
        return None;
      }
      document := doc;
      tree := Parse(isSpaceChar, doc, outcome);
    }
  }
}
