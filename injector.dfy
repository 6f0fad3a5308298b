/**
 * The anchor splicer of gen-api and the orchestration that uses it:
 * appendToFile in both generations of the command, ensureRouteGroupExists
 * and injectGeneratedCode.
 */
module Injector {
  import opened Wrappers
  import opened Strings
  import opened Common
  import opened Workspace

  /** internal/command is the current generation of the commands, cmd/ the legacy one. */
  datatype Generation = Current | Legacy

  datatype InjectError =
    | ReadError(path: string)
    | EmptyAnchor
    | AnchorNotFound(anchor: string)
    | BraceNotFound(anchor: string)
    | LayoutUnknown(message: string)

  // ---------------------------------------------------------------------
  // Anchor templates
  // ---------------------------------------------------------------------

  const EntityPlaceholder := "{{.EntityName}}"

  /** An anchor template rendered with the entity name as its only datum. */
  function RenderAnchor(tmpl: string, entity: string): string {
    ReplaceAll(tmpl, EntityPlaceholder, entity)
  }

  predicate NoBrace(s: string) {
    forall i :: 0 <= i < |s| ==> s[i] != '{'
  }

  /** A template without template actions renders to itself. */
  lemma RenderPlain(tmpl: string, entity: string)
    requires NoBrace(tmpl)
    ensures RenderAnchor(tmpl, entity) == tmpl
  {
    NotContainsWithoutFirstChar(tmpl, EntityPlaceholder);
    ReplaceAllMissing(tmpl, EntityPlaceholder, entity);
  }

  /** The one placeholder of an entity anchor is replaced by the entity name. */
  lemma RenderEntity(pre: string, post: string, entity: string)
    requires NoBrace(pre) && NoBrace(post)
    ensures RenderAnchor(pre + EntityPlaceholder + post, entity) == pre + entity + post
  {
    var s := pre + EntityPlaceholder + post;
    var k := |pre|;
    assert s[k..k + |EntityPlaceholder|] == EntityPlaceholder;
    forall j: nat | j < k
      ensures !OccursAt(s, EntityPlaceholder, j)
    {
      assert s[j] == pre[j];
    }
    IndexIsFirst(s, EntityPlaceholder, k);
    assert s[k + |EntityPlaceholder|..] == post;
    assert s[..k] == pre;
    NotContainsWithoutFirstChar(post, EntityPlaceholder);
    ReplaceAllMissing(post, EntityPlaceholder, entity);
    assert ReplaceAll(s, EntityPlaceholder, entity) == s[..k] + entity + ReplaceAll(s[k + |EntityPlaceholder|..], EntityPlaceholder, entity);
  }

  // ---------------------------------------------------------------------
  // appendToFile
  // ---------------------------------------------------------------------

  /**
   * The new content appendToFile writes, or the error it returns without
   * writing, for a file that read as `read`.
   */
  function Splice(read: ReadResult, path: string, snippet: string, entity: string,
                  anchorTmpl: string, mode: InsertionMode, gen: Generation): Result<string, InjectError>
  {
    var refused := match gen
      case Current => read.ReadFailed? && mode != AppendToEnd
      case Legacy => !read.Content?;
    if refused then Failure(ReadError(path))
    else SpliceInto(if read.Content? then read.text else "", snippet, entity, anchorTmpl, mode)
  }

  /** The placement of `snippet` into `content` once the file has been read. */
  function SpliceInto(content: string, snippet: string, entity: string,
                      anchorTmpl: string, mode: InsertionMode): Result<string, InjectError>
  {
    if mode == AppendToEnd then Success(content + "\n" + snippet)
    else if anchorTmpl == "" then Failure(EmptyAnchor)
    else
      var anchor := RenderAnchor(anchorTmpl, entity);
      match Index(content, anchor)
      case None => Failure(AnchorNotFound(anchor))
      case Some(p) =>
        if mode == InsertAfterBrace then
          match Index(content[p..], "{")
          case None => Failure(BraceNotFound(anchor))
          case Some(b) => Success(content[..p + b + 1] + snippet + content[p + b + 1..])
        else
          Success(content[..p + |anchor|] + "\n" + snippet + content[p + |anchor|..])
  }

  /** The working tree after a step that writes `r` to `path` when it succeeds. */
  function Apply(d: Disk, path: string, r: Result<string, InjectError>): (Disk, Option<InjectError>) {
    match r
    case Success(c) => (d.Write(path, c), None)
    case Failure(e) => (d, Some(e))
  }

  /** The buffer appendToFile assembles once the file has been read. */
  method BuildContent(content: string, snippet: string, entity: string,
                      anchorTmpl: string, mode: InsertionMode) returns (r: Result<string, InjectError>)
    ensures r == SpliceInto(content, snippet, entity, anchorTmpl, mode)
  {
    if mode == AppendToEnd {
      return Success(content + "\n" + snippet);
    }
    if anchorTmpl == "" {
      return Failure(EmptyAnchor);
    }
    var anchor := RenderAnchor(anchorTmpl, entity);
    var anchorPos := Index(content, anchor);
    if anchorPos.None? {
      return Failure(AnchorNotFound(anchor));
    }
    var insertionPoint: nat;
    if mode == InsertAfterBrace {
      var bracePos := Index(content[anchorPos.value..], "{");
      if bracePos.None? {
        return Failure(BraceNotFound(anchor));
      }
      insertionPoint := anchorPos.value + bracePos.value + 1;
    } else {
      insertionPoint := anchorPos.value + |anchor|;
    }
    var buf := content[..insertionPoint];
    if mode == InsertAfterLine {
      buf := buf + "\n";
    }
    buf := buf + snippet;
    buf := buf + content[insertionPoint..];
    r := Success(buf);
  }

  /** appendToFile: places `snippet` into the file at `path` according to `mode`. */
  method AppendToFile(tree: Tree, path: string, snippet: string, entity: string,
                      anchorTmpl: string, mode: InsertionMode, gen: Generation) returns (err: Option<InjectError>)
    modifies tree
    ensures (tree.State(), err) == Apply(old(tree.State()), path, Splice(old(tree.State()).Read(path), path, snippet, entity, anchorTmpl, mode, gen))
  {
    var content: string;
    match tree.Read(path) {
      case Content(t) =>
        content := t;
      case NotExist =>
        if gen == Legacy {
          return Some(ReadError(path));
        }
        content := "";
      case ReadFailed =>
        if gen == Legacy || mode != AppendToEnd {
          return Some(ReadError(path));
        }
        content := "";
    }
    var newContent := BuildContent(content, snippet, entity, anchorTmpl, mode);
    if newContent.Failure? {
      return Some(newContent.error);
    }
    tree.Write(path, newContent.value);
    err := None;
  }

  /**
   * Appending puts a newline and the snippet after the old content. The
   * current generation treats a missing or unreadable file as empty, so it
   * creates the file; the legacy generation refuses any file it cannot read.
   */
  lemma SpliceAppend(read: ReadResult, path: string, snippet: string, entity: string, anchorTmpl: string, gen: Generation)
    ensures var r := Splice(read, path, snippet, entity, anchorTmpl, AppendToEnd, gen);
            && (read.Content? ==> r == Success(read.text + "\n" + snippet))
            && (!read.Content? && gen == Current ==> r == Success("\n" + snippet))
            && (!read.Content? && gen == Legacy ==> r == Failure(ReadError(path)))
  {
    assert "" + "\n" + snippet == "\n" + snippet;
  }

  /** The insertion modes refuse an empty anchor and an unreadable file, before looking for anything. */
  lemma SpliceInsertGuards(read: ReadResult, path: string, snippet: string, entity: string,
                           anchorTmpl: string, mode: InsertionMode, gen: Generation)
    requires mode != AppendToEnd
    ensures read.ReadFailed? ==> Splice(read, path, snippet, entity, anchorTmpl, mode, gen) == Failure(ReadError(path))
    ensures (read.Content? || (read.NotExist? && gen == Current)) && anchorTmpl == ""
            ==> Splice(read, path, snippet, entity, anchorTmpl, mode, gen) == Failure(EmptyAnchor)
  {
  }

  /** A rendered anchor that does not occur is an error. */
  lemma SpliceAnchorMissing(c: string, path: string, snippet: string, entity: string,
                            anchorTmpl: string, mode: InsertionMode, gen: Generation)
    requires mode != AppendToEnd && anchorTmpl != ""
    requires !Contains(c, RenderAnchor(anchorTmpl, entity))
    ensures Splice(Content(c), path, snippet, entity, anchorTmpl, mode, gen)
            == Failure(AnchorNotFound(RenderAnchor(anchorTmpl, entity)))
  {
  }

  /**
   * After-line insertion splices right after the end of the first occurrence
   * of the anchor, with a newline in front of the snippet; the text before
   * and after the insertion point is kept as it was.
   */
  lemma SpliceAfterLine(c: string, path: string, snippet: string, entity: string,
                        anchorTmpl: string, gen: Generation, k: nat)
    requires anchorTmpl != ""
    requires FirstAt(c, RenderAnchor(anchorTmpl, entity), k)
    ensures var e := k + |RenderAnchor(anchorTmpl, entity)|;
            Splice(Content(c), path, snippet, entity, anchorTmpl, InsertAfterLine, gen)
            == Success(c[..e] + "\n" + snippet + c[e..])
  {
    IndexIsFirst(c, RenderAnchor(anchorTmpl, entity), k);
  }

  /**
   * After-brace insertion splices right after the first "{" at or after the
   * start of the first occurrence of the anchor, adding no newline.
   */
  lemma SpliceAfterBrace(c: string, path: string, snippet: string, entity: string,
                         anchorTmpl: string, gen: Generation, k: nat, b: nat)
    requires anchorTmpl != ""
    requires FirstAt(c, RenderAnchor(anchorTmpl, entity), k)
    requires FirstAt(c[k..], "{", b)
    ensures k + b < |c| && c[k + b] == '{'
    ensures Splice(Content(c), path, snippet, entity, anchorTmpl, InsertAfterBrace, gen)
            == Success(c[..k + b + 1] + snippet + c[k + b + 1..])
  {
    IndexIsFirst(c, RenderAnchor(anchorTmpl, entity), k);
    IndexIsFirst(c[k..], "{", b);
    assert c[k..][b..b + 1] == "{";
  }

  /** No "{" after the anchor is an error. */
  lemma SpliceBraceMissing(c: string, path: string, snippet: string, entity: string,
                           anchorTmpl: string, gen: Generation, k: nat)
    requires anchorTmpl != ""
    requires FirstAt(c, RenderAnchor(anchorTmpl, entity), k)
    requires !Contains(c[k..], "{")
    ensures Splice(Content(c), path, snippet, entity, anchorTmpl, InsertAfterBrace, gen)
            == Failure(BraceNotFound(RenderAnchor(anchorTmpl, entity)))
  {
    IndexIsFirst(c, RenderAnchor(anchorTmpl, entity), k);
  }

  /** Appending carries no marker: a second run appends the snippet a second time. */
  lemma SpliceAppendRepeats(c: string, path: string, snippet: string, entity: string, anchorTmpl: string, gen: Generation)
    ensures var once := Splice(Content(c), path, snippet, entity, anchorTmpl, AppendToEnd, gen);
            once.Success?
            && Splice(Content(once.value), path, snippet, entity, anchorTmpl, AppendToEnd, gen)
               == Success(c + "\n" + snippet + "\n" + snippet)
            && once.value != c + "\n" + snippet + "\n" + snippet
  {
    var once := c + "\n" + snippet;
    assert |once + "\n" + snippet| > |once|;
  }

  // ---------------------------------------------------------------------
  // ensureRouteGroupExists
  // ---------------------------------------------------------------------

  const ApiV1Anchor := "apiV1 := r.App.Group(\"/api/v1\")"

  /** The statement that opens the entity's route group. */
  function GroupDefinition(info: ApiInfo): string {
    info.LowerEntityName + "Routes := apiV1.Group(\"/" + info.TableName + "\")"
  }

  function GroupCreation(info: ApiInfo): string {
    "\n\t// " + info.EntityName + " routes\n\t" + GroupDefinition(info)
  }

  /** The new router content, `None` when nothing is written, or the error. */
  function EnsureGroupSpec(read: ReadResult, routerPath: string, info: ApiInfo, gen: Generation): Result<Option<string>, InjectError> {
    if !read.Content? then Failure(ReadError(routerPath))
    else if Contains(read.text, GroupDefinition(info)) then Success(None)
    else
      match Splice(read, routerPath, GroupCreation(info), info.EntityName, ApiV1Anchor, InsertAfterLine, gen)
      case Success(c) => Success(Some(c))
      case Failure(e) => Failure(e)
  }

  function ApplyOptional(d: Disk, path: string, r: Result<Option<string>, InjectError>): (Disk, Option<InjectError>) {
    match r
    case Success(None) => (d, None)
    case Success(Some(c)) => (d.Write(path, c), None)
    case Failure(e) => (d, Some(e))
  }

  /** ensureRouteGroupExists */
  method EnsureRouteGroupExists(tree: Tree, routerPath: string, info: ApiInfo, gen: Generation) returns (err: Option<InjectError>)
    modifies tree
    ensures (tree.State(), err) == ApplyOptional(old(tree.State()), routerPath, EnsureGroupSpec(old(tree.State()).Read(routerPath), routerPath, info, gen))
  {
    var read := tree.Read(routerPath);
    if !read.Content? {
      return Some(ReadError(routerPath));
    }
    var groupDefinition := GroupDefinition(info);
    if Contains(read.text, groupDefinition) {
      return None;
    }
    var creationCode := GroupCreation(info);
    err := AppendToFile(tree, routerPath, creationCode, info.EntityName, ApiV1Anchor, InsertAfterLine, gen);
  }

  lemma ApiV1AnchorPlain(entity: string)
    ensures RenderAnchor(ApiV1Anchor, entity) == ApiV1Anchor
  {
    assert '{' !in ApiV1Anchor;
    RenderPlain(ApiV1Anchor, entity);
  }

  /**
   * Without the group definition, the marker comment and the definition go
   * right after the first `apiV1` line.
   */
  lemma EnsureGroupInserts(c: string, routerPath: string, info: ApiInfo, gen: Generation, k: nat)
    requires !Contains(c, GroupDefinition(info))
    requires FirstAt(c, ApiV1Anchor, k)
    ensures var e := k + |ApiV1Anchor|;
            EnsureGroupSpec(Content(c), routerPath, info, gen)
            == Success(Some(c[..e] + "\n" + GroupCreation(info) + c[e..]))
  {
    ApiV1AnchorPlain(info.EntityName);
    SpliceAfterLine(c, routerPath, GroupCreation(info), info.EntityName, ApiV1Anchor, gen, k);
  }

  /** Text spliced in with the group creation code holds the group definition. */
  lemma GroupCreationDefines(before: string, after: string, info: ApiInfo)
    ensures Contains(before + GroupCreation(info) + after, GroupDefinition(info))
  {
    var g := GroupDefinition(info);
    var pre := "\n\t// " + info.EntityName + " routes\n\t";
    assert GroupCreation(info) == pre + g;
    ContainsItself(g);
    ContainsInConcat(before + pre, g, after, g);
    assert before + GroupCreation(info) + after == (before + pre) + g + after;
  }

  /** Once the group step has written, running it again writes nothing. */
  lemma EnsureGroupIdempotent(c: string, routerPath: string, info: ApiInfo, gen: Generation)
    requires EnsureGroupSpec(Content(c), routerPath, info, gen).Success?
    ensures var first := EnsureGroupSpec(Content(c), routerPath, info, gen).value;
            var after := if first.Some? then first.value else c;
            EnsureGroupSpec(Content(after), routerPath, info, gen) == Success(None)
  {
    var first := EnsureGroupSpec(Content(c), routerPath, info, gen).value;
    if first.Some? {
      ApiV1AnchorPlain(info.EntityName);
      var p := Index(c, ApiV1Anchor);
      assert p.Some?;
      EnsureGroupInserts(c, routerPath, info, gen, p.value);
      var e := p.value + |ApiV1Anchor|;
      GroupCreationDefines(c[..e] + "\n", c[e..], info);
    }
  }

  // ---------------------------------------------------------------------
  // injectGeneratedCode
  // ---------------------------------------------------------------------

  /** The pieces of code the language model returns for a new endpoint. */
  datatype ApiSnippets = ApiSnippets(
    RepoInterfaceMethod: string,
    RepoImplMethod: string,
    ServiceInterface: string,
    ServiceImplMethod: string,
    HandlerMethod: string,
    RouterLine: string,
    MapperFullContent: string)

  datatype Task = Task(pathTmpl: string, snippet: string, anchor: string, mode: InsertionMode)

  /** The anchor of the repository interface, as a template. */
  const RepoInterfaceTemplate := "type " + EntityPlaceholder + "Repository interface"

  /** The six edits, in the order they are applied. */
  function Tasks(paths: ProjectPathConfig, info: ApiInfo, snippets: ApiSnippets): seq<Task> {
    [ Task(paths.RepoInterfaceDir + "/%s_repository.go", "\n\t" + snippets.RepoInterfaceMethod,
           RepoInterfaceTemplate, InsertAfterBrace),
      Task(paths.RepoImplDir + "/%s_repository_impl.go", "\n" + snippets.RepoImplMethod, "", AppendToEnd),
      Task(paths.ServiceDir + "/%s_service.go", "\n\t" + snippets.ServiceInterface,
           "type {{.EntityName}}Service interface", InsertAfterBrace),
      Task(paths.ServiceDir + "/%s_service.go", "\n" + snippets.ServiceImplMethod, "", AppendToEnd),
      Task(paths.HandlerDir + "/%s_handler.go", "\n" + snippets.HandlerMethod, "", AppendToEnd),
      Task(paths.RouterFile, "\n\t" + snippets.RouterLine, GroupDefinition(info), InsertAfterLine) ]
  }

  /** A task's path template with its `%s` filled in by the snake-case entity name. */
  function TaskPath(tmpl: string, entity: string): string {
    if Contains(tmpl, "%s") then ReplaceFirst(tmpl, "%s", SnakeCase(entity)) else tmpl
  }

  /** The tasks applied in order; the first failure ends the run and keeps what was written before it. */
  function RunTasks(d: Disk, tasks: seq<Task>, entity: string, gen: Generation): (Disk, Option<InjectError>)
    decreases |tasks|
  {
    if |tasks| == 0 then (d, None)
    else
      var t := tasks[0];
      var path := TaskPath(t.pathTmpl, entity);
      var step := Apply(d, path, Splice(d.Read(path), path, t.snippet, entity, t.anchor, t.mode, gen));
      if step.1.Some? then step else RunTasks(step.0, tasks[1..], entity, gen)
  }

  const MapperDir := "internal/interfaces/dto"

  function MapperPath(entity: string): string {
    MapperDir + "/" + SnakeCase(entity) + "_mapper.go"
  }

  /** The working tree after injectGeneratedCode, and its error. */
  function InjectSpec(d: Disk, hasApplication: bool, hasUsecase: bool, info: ApiInfo,
                      snippets: ApiSnippets, gen: Generation): (Disk, Option<InjectError>)
  {
    match GetProjectPaths(hasApplication, hasUsecase)
    case Failure(msg) => (d, Some(LayoutUnknown(msg)))
    case Success(paths) =>
      var d1 := if snippets.MapperFullContent != "" then d.Write(MapperPath(info.EntityName), snippets.MapperFullContent) else d;
      var group := ApplyOptional(d1, paths.RouterFile, EnsureGroupSpec(d1.Read(paths.RouterFile), paths.RouterFile, info, gen));
      if group.1.Some? then group
      else RunTasks(group.0, Tasks(paths, info, snippets), info.EntityName, gen)
  }

  /** The path a task edits. */
  method ResolveTaskPath(tmpl: string, entity: string) returns (filePath: string)
    ensures filePath == TaskPath(tmpl, entity)
  {
    if Contains(tmpl, "%s") {
      var snake := ToSnakeCase(entity);
      filePath := ReplaceFirst(tmpl, "%s", snake);
    } else {
      filePath := tmpl;
    }
  }

  /** The tasks from `i` on: task `i` is applied, and the rest follow unless it failed. */
  lemma RunTasksAt(d: Disk, tasks: seq<Task>, i: nat, entity: string, gen: Generation)
    requires i < |tasks|
    ensures var path := TaskPath(tasks[i].pathTmpl, entity);
            var step := Apply(d, path, Splice(d.Read(path), path, tasks[i].snippet, entity, tasks[i].anchor, tasks[i].mode, gen));
            RunTasks(d, tasks[i..], entity, gen) == if step.1.Some? then step else RunTasks(step.0, tasks[i + 1..], entity, gen)
  {
    assert tasks[i..][0] == tasks[i];
    assert tasks[i..][1..] == tasks[i + 1..];
  }

  /** The task loop of injectGeneratedCode. */
  method RunTaskList(tree: Tree, tasks: seq<Task>, entity: string, gen: Generation) returns (err: Option<InjectError>)
    modifies tree
    ensures (tree.State(), err) == RunTasks(old(tree.State()), tasks, entity, gen)
  {
    var i := 0;
    while i < |tasks|
      invariant 0 <= i <= |tasks|
      invariant RunTasks(old(tree.State()), tasks, entity, gen) == RunTasks(tree.State(), tasks[i..], entity, gen)
    {
      var task := tasks[i];
      var filePath := ResolveTaskPath(task.pathTmpl, entity);
      RunTasksAt(tree.State(), tasks, i, entity, gen);
      err := AppendToFile(tree, filePath, task.snippet, entity, task.anchor, task.mode, gen);
      if err.Some? {
        return;
      }
      i := i + 1;
    }
    err := None;
  }

  /**
   * injectGeneratedCode: overwrite the mapper, make sure the route group
   * exists, then apply the six tasks in order.
   */
  method InjectGeneratedCode(tree: Tree, hasApplication: bool, hasUsecase: bool, info: ApiInfo,
                             snippets: ApiSnippets, gen: Generation) returns (err: Option<InjectError>)
    modifies tree
    ensures (tree.State(), err) == InjectSpec(old(tree.State()), hasApplication, hasUsecase, info, snippets, gen)
  {
    var layout := GetProjectPaths(hasApplication, hasUsecase);
    if layout.Failure? {
      return Some(LayoutUnknown(layout.error));
    }
    var paths := layout.value;
    if snippets.MapperFullContent != "" {
      var snake := ToSnakeCase(info.EntityName);
      tree.Write(MapperDir + "/" + snake + "_mapper.go", snippets.MapperFullContent);
    }
    err := EnsureRouteGroupExists(tree, paths.RouterFile, info, gen);
    if err.Some? {
      return;
    }
    err := RunTaskList(tree, Tasks(paths, info, snippets), info.EntityName, gen);
  }

  /** Running `a` then `b` is running `a + b`, unless `a` already failed. */
  lemma {:induction false} RunTasksAppend(d: Disk, a: seq<Task>, b: seq<Task>, entity: string, gen: Generation)
    ensures var first := RunTasks(d, a, entity, gen);
            RunTasks(d, a + b, entity, gen)
            == if first.1.Some? then first else RunTasks(first.0, b, entity, gen)
    decreases |a|
  {
    if |a| == 0 {
      assert a + b == b;
    } else {
      assert (a + b)[0] == a[0];
      assert (a + b)[1..] == a[1..] + b;
      var t := a[0];
      var path := TaskPath(t.pathTmpl, entity);
      var step := Apply(d, path, Splice(d.Read(path), path, t.snippet, entity, t.anchor, t.mode, gen));
      if step.1.None? {
        RunTasksAppend(step.0, a[1..], b, entity, gen);
      }
    }
  }

  /** A failing task writes nothing and ends the run: the tree is what the tasks before it left. */
  lemma RunTasksStopsAtFailure(d: Disk, tasks: seq<Task>, entity: string, gen: Generation, k: nat)
    requires k < |tasks|
    requires RunTasks(d, tasks[..k], entity, gen).1.None?
    requires var before := RunTasks(d, tasks[..k], entity, gen).0;
             var path := TaskPath(tasks[k].pathTmpl, entity);
             Splice(before.Read(path), path, tasks[k].snippet, entity, tasks[k].anchor, tasks[k].mode, gen).Failure?
    ensures RunTasks(d, tasks, entity, gen).0 == RunTasks(d, tasks[..k], entity, gen).0
    ensures RunTasks(d, tasks, entity, gen).1.Some?
  {
    assert tasks == tasks[..k] + tasks[k..];
    RunTasksAppend(d, tasks[..k], tasks[k..], entity, gen);
    assert tasks[k..][0] == tasks[k];
  }

  /** An unrecognised layout is reported before anything is written. */
  lemma InjectUnknownLayout(d: Disk, info: ApiInfo, snippets: ApiSnippets, gen: Generation)
    ensures InjectSpec(d, false, false, info, snippets, gen) == (d, Some(LayoutUnknown(UnknownLayoutError)))
  {
  }

  /** A failing route-group step stops the run after the mapper was written; no task runs. */
  lemma InjectGroupFailure(d: Disk, hasApplication: bool, hasUsecase: bool, info: ApiInfo, snippets: ApiSnippets, gen: Generation)
    requires GetProjectPaths(hasApplication, hasUsecase).Success?
    requires var paths := GetProjectPaths(hasApplication, hasUsecase).value;
             var d1 := if snippets.MapperFullContent != "" then d.Write(MapperPath(info.EntityName), snippets.MapperFullContent) else d;
             EnsureGroupSpec(d1.Read(paths.RouterFile), paths.RouterFile, info, gen).Failure?
    ensures var d1 := if snippets.MapperFullContent != "" then d.Write(MapperPath(info.EntityName), snippets.MapperFullContent) else d;
            InjectSpec(d, hasApplication, hasUsecase, info, snippets, gen).0 == d1
  {
  }

  /** The task for a `%s` template edits the file named after the snake-case entity. */
  lemma TaskPathFilled(dir: string, suffix: string, entity: string)
    requires Lacks(dir, '%')
    ensures TaskPath(dir + "/%s" + suffix, entity) == dir + "/" + SnakeCase(entity) + suffix
  {
    var t := dir + "/%s" + suffix;
    var k := |dir| + 1;
    assert t[k..k + 2] == "%s";
    forall j: nat | j < k
      ensures !OccursAt(t, "%s", j)
    {
      if j < |dir| {
        assert t[j] == dir[j];
      } else {
        assert t[j] == '/';
      }
    }
    ReplaceFirstAt(t, "%s", SnakeCase(entity), k);
    assert t[..k] == dir + "/";
    assert t[k + 2..] == suffix;
  }

  /** The repository templates are the placeholder followed by a file-name suffix. */
  lemma RepositoryTemplates()
    ensures "/%s_repository.go" == "/%s" + "_repository.go"
    ensures "/%s_repository_impl.go" == "/%s" + "_repository_impl.go"
  {
  }

  /** The service and handler templates are the placeholder followed by a file-name suffix. */
  lemma ServiceTemplates()
    ensures "/%s_service.go" == "/%s" + "_service.go"
    ensures "/%s_handler.go" == "/%s" + "_handler.go"
  {
  }

  lemma TemplatePath(dir: string, suffix: string, entity: string)
    requires Lacks(dir, '%')
    ensures TaskPath(dir + ("/%s" + suffix), entity) == dir + "/" + SnakeCase(entity) + suffix
  {
    Reassociate(dir, "/%s", suffix);
    TaskPathFilled(dir, suffix, entity);
  }

  /** The four tasks with a `%s` template edit the files named after the snake-case entity. */
  lemma TaskPaths(paths: ProjectPathConfig, info: ApiInfo, snippets: ApiSnippets)
    requires LayoutPlain(paths)
    ensures var ts := Tasks(paths, info, snippets);
            var snake := SnakeCase(info.EntityName);
            && TaskPath(ts[0].pathTmpl, info.EntityName) == paths.RepoInterfaceDir + "/" + snake + "_repository.go"
            && TaskPath(ts[1].pathTmpl, info.EntityName) == paths.RepoImplDir + "/" + snake + "_repository_impl.go"
            && TaskPath(ts[2].pathTmpl, info.EntityName) == paths.ServiceDir + "/" + snake + "_service.go"
            && TaskPath(ts[3].pathTmpl, info.EntityName) == paths.ServiceDir + "/" + snake + "_service.go"
            && TaskPath(ts[4].pathTmpl, info.EntityName) == paths.HandlerDir + "/" + snake + "_handler.go"
            && TaskPath(ts[5].pathTmpl, info.EntityName) == paths.RouterFile
  {
    var ts := Tasks(paths, info, snippets);
    var e := info.EntityName;
    TaskPathsRepository(paths, e, ts[0].pathTmpl, ts[1].pathTmpl);
    TaskPathsService(paths, e, ts[2].pathTmpl, ts[4].pathTmpl);
    NotContainsWithoutFirstChar(paths.RouterFile, "%s");
  }

  lemma TaskPathsRepository(paths: ProjectPathConfig, e: string, t0: string, t1: string)
    requires LayoutPlain(paths)
    requires t0 == paths.RepoInterfaceDir + "/%s_repository.go"
    requires t1 == paths.RepoImplDir + "/%s_repository_impl.go"
    ensures TaskPath(t0, e) == paths.RepoInterfaceDir + "/" + SnakeCase(e) + "_repository.go"
    ensures TaskPath(t1, e) == paths.RepoImplDir + "/" + SnakeCase(e) + "_repository_impl.go"
  {
    RepositoryTemplates();
    TemplatePath(paths.RepoInterfaceDir, "_repository.go", e);
    TemplatePath(paths.RepoImplDir, "_repository_impl.go", e);
  }

  lemma TaskPathsService(paths: ProjectPathConfig, e: string, t2: string, t4: string)
    requires LayoutPlain(paths)
    requires t2 == paths.ServiceDir + "/%s_service.go"
    requires t4 == paths.HandlerDir + "/%s_handler.go"
    ensures TaskPath(t2, e) == paths.ServiceDir + "/" + SnakeCase(e) + "_service.go"
    ensures TaskPath(t4, e) == paths.HandlerDir + "/" + SnakeCase(e) + "_handler.go"
  {
    ServiceTemplates();
    TemplatePath(paths.ServiceDir, "_service.go", e);
    TemplatePath(paths.HandlerDir, "_handler.go", e);
  }
}
