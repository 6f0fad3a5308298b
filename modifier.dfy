/**
 * The `generate` command's edits of existing files: providers added to the
 * dependency-injection container, the handler wired into the router's
 * struct, constructor and returned literal, and the CRUD routes placed
 * before the generator anchor. Both generations of this code are covered:
 * the older one is the newer one at a fixed path configuration.
 */
module Modifier {
  import opened Wrappers
  import opened Strings
  import opened Common
  import opened Workspace
  import opened Entity
  import Injector

  // ---------------------------------------------------------------------
  // Paths and the parse-modify-print skeleton
  // ---------------------------------------------------------------------

  /** Where the container and the router live, and which packages the container imports. */
  datatype PathConfig = PathConfig(
    DIFile: string,
    IsDDD: bool,
    DIImports: seq<string>,
    RouterFile: string,
    HandlerPackagePath: string)

  /** The fixed configuration of the older generation. */
  const LegacyPaths := PathConfig(
    "internal/di/container.go",
    false,
    ["/internal/repository", "/internal/service", "/internal/handler"],
    "internal/router/router.go",
    "/internal/handler")

  /** A parsed Go file, as far as the router edit looks into it. */
  datatype GoSource = GoSource(decls: seq<RouterDecl>)

  datatype ModifyError =
    | ReadFailure(path: string)
    | ParseFailure(path: string)
    | ModifierFailure
    | PrintFailure

  /**
   * modifySourceFile: parse the file, run the modifier, print and write.
   * Every failure happens before the write.
   */
  function ModifySourceFile(d: Disk, path: string, parse: string -> Option<GoSource>,
                            modifier: GoSource -> Option<GoSource>, printer: GoSource -> Option<string>)
    : (r: (Disk, Option<ModifyError>))
    ensures r.1.Some? ==> r.0 == d
    ensures r.1.None? ==> exists out :: r.0 == d.Write(path, out)
  {
    match d.Read(path)
    case Content(text) =>
      (match parse(text)
       case None => (d, Some(ParseFailure(path)))
       case Some(node) =>
         match modifier(node)
         case None => (d, Some(ModifierFailure))
         case Some(changed) =>
           match printer(changed)
           case None => (d, Some(PrintFailure))
           case Some(out) => (d.Write(path, out), None))
    case _ => (d, Some(ParseFailure(path)))
  }

  /** The modifier of ensureImportsForDI: one import per configured package, in order. */
  function AddImports(node: GoSource, modulePath: string, pkgs: seq<string>,
                      addImport: (GoSource, string) -> GoSource): GoSource
    decreases |pkgs|
  {
    if |pkgs| == 0 then node
    else AddImports(addImport(node, modulePath + pkgs[0]), modulePath, pkgs[1..], addImport)
  }

  /**
   * ensureImportsForDI: the container is parsed, every configured package is
   * imported under the module path, and the printout replaces the file.
   */
  function EnsureImportsForDI(d: Disk, info: EntityInfo, paths: PathConfig, parse: string -> Option<GoSource>,
                              addImport: (GoSource, string) -> GoSource, printer: GoSource -> Option<string>)
    : (r: (Disk, Option<ModifyError>))
    ensures r.1.Some? ==> r.0 == d
    ensures !d.Read(paths.DIFile).Content? ==> r == (d, Some(ParseFailure(paths.DIFile)))
    ensures r.1.None? ==>
              && d.Read(paths.DIFile).Content?
              && parse(d.Read(paths.DIFile).text).Some?
              && var node := AddImports(parse(d.Read(paths.DIFile).text).value, info.ProjectModule, paths.DIImports, addImport);
                 printer(node).Some? && r.0 == d.Write(paths.DIFile, printer(node).value)
  {
    ModifySourceFile(d, paths.DIFile, parse,
                     (node: GoSource) => Some(AddImports(node, info.ProjectModule, paths.DIImports, addImport)), printer)
  }

  // ---------------------------------------------------------------------
  // addProviderToDI
  // ---------------------------------------------------------------------

  const GeneratorAnchor := "// [GENERATOR ANCHOR] - Don't remove this comment!"

  /** The comment that marks an entity's providers as present. */
  function ProviderMarker(entity: string): string {
    "// " + entity + " Providers"
  }

  /** The package the repository constructor comes from. */
  function RepositoryPackage(isDDD: bool): string {
    if isDDD then "persistence" else "repository"
  }

  /** The block's opening: a new line, the marker, and the indent of the first constructor. */
  function ProviderHead(entity: string): string {
    "\n\t\t" + (ProviderMarker(entity) + "\n\t\t")
  }

  /** What follows the repository package: the three constructors, up to the anchor. */
  function ProviderRest(entity: string): string {
    ".New" + entity + "Repository,\n\t\tservice.New" + entity + "Service,\n\t\thandler.New" + entity + "Handler,\n\t\t"
  }

  /** The rendered provider template: marker, three constructors, and the anchor again. */
  function ProviderBlock(entity: string, isDDD: bool): string {
    ProviderHead(entity) + (RepositoryPackage(isDDD) + (ProviderRest(entity) + GeneratorAnchor))
  }

  /** The container text after addProviderToDI: unchanged when the marker is present, else the first anchor replaced. */
  function ProviderEdit(content: string, entity: string, isDDD: bool): string {
    if Contains(content, ProviderMarker(entity)) then content
    else ReplaceFirst(content, GeneratorAnchor, ProviderBlock(entity, isDDD))
  }

  /** addProviderToDI over the working tree: a read error stops it, then the text edit, then the imports. */
  function AddProviderToDI(d: Disk, info: EntityInfo, paths: PathConfig, parse: string -> Option<GoSource>,
                           addImport: (GoSource, string) -> GoSource, printer: GoSource -> Option<string>)
    : (r: (Disk, Option<ModifyError>))
    ensures !d.Read(paths.DIFile).Content? ==> r == (d, Some(ReadFailure(paths.DIFile)))
    ensures r.1.None? ==> exists out :: r.0 == d.Write(paths.DIFile, out)
  {
    match d.Read(paths.DIFile)
    case Content(text) =>
      var edited := ProviderEdit(text, info.EntityName, paths.IsDDD);
      var d1 := if Contains(text, ProviderMarker(info.EntityName)) then d else d.Write(paths.DIFile, edited);
      var r := EnsureImportsForDI(d1, info, paths, parse, addImport, printer);
      if r.1.None? && d1 != d then
        var out :| r.0 == d1.Write(paths.DIFile, out);
        WriteTwice(d, paths.DIFile, edited, out);
        r
      else r
    case _ => (d, Some(ReadFailure(paths.DIFile)))
  }

  /** The block begins with the marker and ends with the anchor. */
  lemma ProviderBlockShape(entity: string, isDDD: bool)
    ensures OccursAt(ProviderBlock(entity, isDDD), ProviderMarker(entity), 3)
    ensures HasSuffix(ProviderBlock(entity, isDDD), GeneratorAnchor)
    ensures Contains(ProviderBlock(entity, isDDD), ProviderMarker(entity))
    ensures Contains(ProviderBlock(entity, isDDD), GeneratorAnchor)
  {
    var n := "\n\t\t";
    var m := ProviderMarker(entity);
    var h := ProviderHead(entity);
    var pkg := RepositoryPackage(isDDD);
    var x := ProviderRest(entity);
    var tail := pkg + (x + GeneratorAnchor);
    Reassociate(n, m, n);
    Reassociate(n + m, n, tail);
    InfixAt(n, m, n + tail);
    Reassociate(h, pkg, x + GeneratorAnchor);
    Reassociate(h + pkg, x, GeneratorAnchor);
    AppendedSuffix(h + pkg + x, GeneratorAnchor);
  }


  /** With the marker present the container text is left as it is. */
  lemma ProviderEditSkips(content: string, entity: string, isDDD: bool)
    requires Contains(content, ProviderMarker(entity))
    ensures ProviderEdit(content, entity, isDDD) == content
  {
  }

  /** Without the anchor there is nothing to replace, and no error. */
  lemma ProviderEditNoAnchor(content: string, entity: string, isDDD: bool)
    requires !Contains(content, GeneratorAnchor)
    ensures ProviderEdit(content, entity, isDDD) == content
  {
  }

  /**
   * Otherwise the first anchor is replaced by the block: the text around
   * it is kept, and afterwards both the marker and the anchor are present.
   */
  lemma ProviderEditInserts(content: string, entity: string, isDDD: bool, k: nat)
    requires !Contains(content, ProviderMarker(entity))
    requires FirstAt(content, GeneratorAnchor, k)
    ensures var r := ProviderEdit(content, entity, isDDD);
            && r == content[..k] + ProviderBlock(entity, isDDD) + content[k + |GeneratorAnchor|..]
            && Contains(r, ProviderMarker(entity))
            && Contains(r, GeneratorAnchor)
  {
    ReplaceFirstAt(content, GeneratorAnchor, ProviderBlock(entity, isDDD), k);
    ProviderBlockShape(entity, isDDD);
    ContainsInConcat(content[..k], ProviderBlock(entity, isDDD), content[k + |GeneratorAnchor|..], ProviderMarker(entity));
    ContainsInConcat(content[..k], ProviderBlock(entity, isDDD), content[k + |GeneratorAnchor|..], GeneratorAnchor);
  }

  /** Adding the providers twice is adding them once. */
  lemma ProviderEditIdempotent(content: string, entity: string, isDDD: bool)
    ensures ProviderEdit(ProviderEdit(content, entity, isDDD), entity, isDDD) == ProviderEdit(content, entity, isDDD)
  {
    if !Contains(content, ProviderMarker(entity)) {
      match Index(content, GeneratorAnchor)
      case None =>
      case Some(k) =>
        ProviderEditInserts(content, entity, isDDD, k);
    }
  }

  /** The two layouts differ only in the package of the repository constructor. */
  lemma ProviderLayouts(entity: string)
    ensures var h := ProviderHead(entity);
            var k := |h|;
            var ddd := ProviderBlock(entity, true);
            var other := ProviderBlock(entity, false);
            && |ddd| == |other| + 1
            && ddd[..k] == h && other[..k] == h
            && ddd[k..k + 11] == "persistence" && other[k..k + 10] == "repository"
            && ddd[k + 11..] == other[k + 10..]
  {
    var tail := ProviderRest(entity) + GeneratorAnchor;
    ThreeParts(ProviderHead(entity), "persistence", tail);
    ThreeParts(ProviderHead(entity), "repository", tail);
  }


  /** A read failure of the container is reported and nothing is written. */
  lemma AddProviderUnreadable(d: Disk, info: EntityInfo, paths: PathConfig, parse: string -> Option<GoSource>,
                              addImport: (GoSource, string) -> GoSource, printer: GoSource -> Option<string>)
    requires !d.Read(paths.DIFile).Content?
    ensures AddProviderToDI(d, info, paths, parse, addImport, printer) == (d, Some(ReadFailure(paths.DIFile)))
  {
  }

  /**
   * When the marker is already there the text is not rewritten: the only
   * write is the one of the import step.
   */
  lemma AddProviderPresent(d: Disk, info: EntityInfo, paths: PathConfig, parse: string -> Option<GoSource>,
                           addImport: (GoSource, string) -> GoSource, printer: GoSource -> Option<string>)
    requires d.Read(paths.DIFile).Content?
    requires Contains(d.Read(paths.DIFile).text, ProviderMarker(info.EntityName))
    ensures AddProviderToDI(d, info, paths, parse, addImport, printer)
         == EnsureImportsForDI(d, info, paths, parse, addImport, printer)
  {
  }

  /**
   * When the marker is missing, the edited text is written first and the
   * import step then works on it; a failing import step leaves that write
   * in place.
   */
  lemma AddProviderAbsent(d: Disk, info: EntityInfo, paths: PathConfig, parse: string -> Option<GoSource>,
                          addImport: (GoSource, string) -> GoSource, printer: GoSource -> Option<string>)
    requires d.Read(paths.DIFile).Content?
    requires !Contains(d.Read(paths.DIFile).text, ProviderMarker(info.EntityName))
    ensures var edited := ProviderEdit(d.Read(paths.DIFile).text, info.EntityName, paths.IsDDD);
            var d1 := d.Write(paths.DIFile, edited);
            && AddProviderToDI(d, info, paths, parse, addImport, printer)
               == EnsureImportsForDI(d1, info, paths, parse, addImport, printer)
            && (AddProviderToDI(d, info, paths, parse, addImport, printer).1.Some?
                ==> AddProviderToDI(d, info, paths, parse, addImport, printer).0.Read(paths.DIFile) == Content(edited))
            && (parse(edited).None?
                ==> AddProviderToDI(d, info, paths, parse, addImport, printer) == (d1, Some(ParseFailure(paths.DIFile))))
  {
  }

  // ---------------------------------------------------------------------
  // addHandlerToRouter
  // ---------------------------------------------------------------------

  /** A field or parameter: its names and the text of its type. */
  datatype Field = Field(names: seq<string>, typ: string)

  /** An element of a composite literal; `key` is the key when it is a plain identifier. */
  datatype Element = KeyValue(key: Option<string>, value: string) | OtherElement

  /** A statement of NewRouter: a return whose first result is a unary expression over a composite literal, or anything else. */
  datatype Stmt = ReturnLiteral(elements: seq<Element>) | OtherStmt

  /** The declarations the router edit looks at. */
  datatype RouterDecl =
    | StructTypeSpec(name: string, fields: seq<Field>)
    | FuncDecl(name: string, params: seq<Field>, body: seq<Stmt>)
    | OtherDecl

  /** The check of the found-flag loops: some field's first name is `name`. */
  predicate HasFirstName(fields: seq<Field>, name: string) {
    exists i :: 0 <= i < |fields| && |fields[i].names| > 0 && fields[i].names[0] == name
  }

  predicate HasKey(elements: seq<Element>, name: string) {
    exists i :: 0 <= i < |elements| && elements[i].KeyValue? && elements[i].key == Some(name)
  }

  function WithField(fields: seq<Field>, name: string, typ: string): (r: seq<Field>)
    ensures HasFirstName(r, name)
    ensures fields <= r && |r| <= |fields| + 1
  {
    if HasFirstName(fields, name) then fields
    else
      assert (fields + [Field([name], typ)])[|fields|].names[0] == name;
      fields + [Field([name], typ)]
  }

  function WithKey(elements: seq<Element>, name: string, value: string): (r: seq<Element>)
    ensures HasKey(r, name)
    ensures elements <= r && |r| <= |elements| + 1
  {
    if HasKey(elements, name) then elements
    else
      assert (elements + [KeyValue(Some(name), value)])[|elements|].key == Some(name);
      elements + [KeyValue(Some(name), value)]
  }

  function HandlerName(entity: string): string { entity + "Handler" }
  function HandlerType(entity: string): string { "*handler." + entity + "Handler" }
  function HandlerParam(entity: string): string { LowerCamel(HandlerName(entity)) }

  function InjectStmt(s: Stmt, entity: string): Stmt {
    match s
    case ReturnLiteral(elements) => ReturnLiteral(WithKey(elements, HandlerName(entity), HandlerParam(entity)))
    case OtherStmt => s
  }

  /** The effect of the traversal on one declaration. */
  function InjectDecl(d: RouterDecl, entity: string): RouterDecl {
    match d
    case StructTypeSpec(name, fields) =>
      if name == "Router" then StructTypeSpec(name, WithField(fields, HandlerName(entity), HandlerType(entity))) else d
    case FuncDecl(name, params, body) =>
      if name == "NewRouter" then
        FuncDecl(name, WithField(params, HandlerParam(entity), HandlerType(entity)),
                 seq(|body|, i requires 0 <= i < |body| => InjectStmt(body[i], entity)))
      else d
    case OtherDecl => d
  }

  function InjectHandler(decls: seq<RouterDecl>, entity: string): (r: seq<RouterDecl>)
    ensures |r| == |decls|
  {
    seq(|decls|, i requires 0 <= i < |decls| => InjectDecl(decls[i], entity))
  }

  /** The found-flag loop over a field list. */
  method FieldExists(fields: seq<Field>, name: string) returns (found: bool)
    ensures found == HasFirstName(fields, name)
  {
    found := false;
    var i := 0;
    while i < |fields|
      invariant i <= |fields|
      invariant !HasFirstName(fields[..i], name)
    {
      assert fields[..i + 1][..i] == fields[..i];
      if |fields[i].names| > 0 && fields[i].names[0] == name {
        assert fields[..i + 1][i] == fields[i];
        found := true;
        break;
      }
      i := i + 1;
    }
    if !found {
      assert fields[..i] == fields;
    }
  }

  /** The found-flag loop over the elements of a returned literal. */
  method KeyExists(elements: seq<Element>, name: string) returns (found: bool)
    ensures found == HasKey(elements, name)
  {
    found := false;
    var i := 0;
    while i < |elements|
      invariant i <= |elements|
      invariant !HasKey(elements[..i], name)
    {
      assert elements[..i + 1][..i] == elements[..i];
      if elements[i].KeyValue? && elements[i].key == Some(name) {
        assert elements[..i + 1][i] == elements[i];
        found := true;
        break;
      }
      i := i + 1;
    }
    if !found {
      assert elements[..i] == elements;
    }
  }

  /** The router's syntax tree, edited in place. */
  class RouterTree {
    var decls: seq<RouterDecl>

    constructor (source: GoSource)
      ensures decls == source.decls
    {
      decls := source.decls;
    }

    /** The traversal of addHandlerToRouter: each declaration is visited once and edited where it stands. */
    method AddHandler(entity: string)
      modifies this
      ensures decls == InjectHandler(old(decls), entity)
    {
      ghost var original := decls;
      var i := 0;
      while i < |decls|
        invariant i <= |decls| == |original|
        invariant forall j :: 0 <= j < i ==> decls[j] == InjectDecl(original[j], entity)
        invariant forall j :: i <= j < |decls| ==> decls[j] == original[j]
      {
        var edited := VisitDecl(decls[i], entity);
        decls := decls[i := edited];
        i := i + 1;
      }
    }
  }

  /** One visit of the traversal: the Router struct and NewRouter are edited, every other declaration is kept. */
  method VisitDecl(d: RouterDecl, entity: string) returns (r: RouterDecl)
    ensures r == InjectDecl(d, entity)
  {
    r := d;
    match d {
      case StructTypeSpec(name, fields) =>
        if name == "Router" {
          var present := FieldExists(fields, HandlerName(entity));
          if !present {
            r := StructTypeSpec(name, fields + [Field([HandlerName(entity)], HandlerType(entity))]);
          }
        }
      case FuncDecl(name, params, body) =>
        if name == "NewRouter" {
          var present := FieldExists(params, HandlerParam(entity));
          var newParams := if present then params else params + [Field([HandlerParam(entity)], HandlerType(entity))];
          var newBody := InjectReturns(body, entity);
          r := FuncDecl(name, newParams, newBody);
        }
      case OtherDecl =>
    }
  }

  /** The loop over the statements of NewRouter: each returned literal gets the key unless it has it. */
  method InjectReturns(body: seq<Stmt>, entity: string) returns (r: seq<Stmt>)
    ensures r == seq(|body|, i requires 0 <= i < |body| => InjectStmt(body[i], entity))
  {
    r := body;
    var i := 0;
    while i < |body|
      invariant i <= |body| && |r| == |body|
      invariant forall j :: 0 <= j < i ==> r[j] == InjectStmt(body[j], entity)
      invariant forall j :: i <= j < |body| ==> r[j] == body[j]
    {
      if body[i].ReturnLiteral? {
        var elements := body[i].elements;
        var present := KeyExists(elements, HandlerName(entity));
        if !present {
          r := r[i := ReturnLiteral(elements + [KeyValue(Some(HandlerName(entity)), HandlerParam(entity))])];
        }
      }
      i := i + 1;
    }
  }

  /** Wiring the handler in twice is wiring it in once. */
  lemma InjectHandlerIdempotent(decls: seq<RouterDecl>, entity: string)
    ensures InjectHandler(InjectHandler(decls, entity), entity) == InjectHandler(decls, entity)
  {
    var once := InjectHandler(decls, entity);
    forall i | 0 <= i < |decls|
      ensures InjectDecl(once[i], entity) == once[i]
    {
      match decls[i]
      case StructTypeSpec(name, fields) =>
      case FuncDecl(name, params, body) =>
        if name == "NewRouter" {
          var b := once[i].body;
          assert seq(|b|, j requires 0 <= j < |b| => InjectStmt(b[j], entity)) == b;
        }
      case OtherDecl =>
    }
  }

  /**
   * After the edit the Router struct has the handler field, NewRouter has
   * the parameter, and every returned literal in it has the key; existing
   * fields and parameters stay in front.
   */
  lemma InjectHandlerAdds(decls: seq<RouterDecl>, entity: string, i: nat)
    requires i < |decls|
    ensures var d := InjectHandler(decls, entity)[i];
            && (decls[i].StructTypeSpec? && decls[i].name == "Router" ==>
                  d.StructTypeSpec? && HasFirstName(d.fields, HandlerName(entity))
                  && decls[i].fields <= d.fields)
            && (decls[i].FuncDecl? && decls[i].name == "NewRouter" ==>
                  d.FuncDecl? && HasFirstName(d.params, HandlerParam(entity))
                  && decls[i].params <= d.params
                  && forall j :: 0 <= j < |d.body| && d.body[j].ReturnLiteral? ==> HasKey(d.body[j].elements, HandlerName(entity)))
            && ((!(decls[i].StructTypeSpec? && decls[i].name == "Router")
                 && !(decls[i].FuncDecl? && decls[i].name == "NewRouter")) ==> d == decls[i])
  {
    var d := decls[i];
    if d.StructTypeSpec? && d.name == "Router" {
      WithFieldPrefix(d.fields, HandlerName(entity), HandlerType(entity));
    } else if d.FuncDecl? && d.name == "NewRouter" {
      WithFieldPrefix(d.params, HandlerParam(entity), HandlerType(entity));
    }
  }

  lemma WithFieldPrefix(fields: seq<Field>, name: string, typ: string)
    ensures fields <= WithField(fields, name, typ)
  {
    if !HasFirstName(fields, name) {
      assert (fields + [Field([name], typ)])[..|fields|] == fields;
    }
  }

  /** A handler for an entity whose name starts with a letter is passed as `<lowerCamel entity>Handler`. */
  lemma HandlerParamName(entity: string)
    requires |entity| > 0
    ensures HandlerParam(entity) == LowerCamel(entity) + "Handler"
  {
  }

  /** addHandlerToRouter over the working tree: the edit, then the handler package import, through modifySourceFile. */
  function AddHandlerToRouter(d: Disk, info: EntityInfo, paths: PathConfig, parse: string -> Option<GoSource>,
                              addImport: (GoSource, string) -> GoSource, printer: GoSource -> Option<string>)
    : (Disk, Option<ModifyError>)
  {
    ModifySourceFile(d, paths.RouterFile, parse,
      (node: GoSource) => Some(addImport(GoSource(InjectHandler(node.decls, info.EntityName)),
                             info.ProjectModule + paths.HandlerPackagePath)), printer)
  }

  /** addHandlerToRouter with the tree edited in place. */
  method AddHandlerToRouterFile(tree: Tree, info: EntityInfo, paths: PathConfig, parse: string -> Option<GoSource>,
                                addImport: (GoSource, string) -> GoSource, printer: GoSource -> Option<string>)
    returns (err: Option<ModifyError>)
    modifies tree
    ensures (tree.State(), err) == AddHandlerToRouter(old(tree.State()), info, paths, parse, addImport, printer)
  {
    var read := tree.Read(paths.RouterFile);
    if !read.Content? {
      return Some(ParseFailure(paths.RouterFile));
    }
    var parsed := parse(read.text);
    if parsed.None? {
      return Some(ParseFailure(paths.RouterFile));
    }
    var syntax := new RouterTree(parsed.value);
    syntax.AddHandler(info.EntityName);
    var changed := addImport(GoSource(syntax.decls), info.ProjectModule + paths.HandlerPackagePath);
    var out := printer(changed);
    if out.None? {
      return Some(PrintFailure);
    }
    tree.Write(paths.RouterFile, out.value);
    err := None;
  }

  // ---------------------------------------------------------------------
  // addRoutesToRouter
  // ---------------------------------------------------------------------

  /** The comment that marks an entity's routes as present. */
  function RouteMarker(entity: string): string {
    "// " + entity + " routes"
  }

  /** The CRUD routes, in the order they are registered: verb, path, handler method. */
  const CrudRoutes := [("Post", "/", "Create"), ("Get", "/", "GetAll"), ("Get", "/:id", "GetByID"),
                       ("Put", "/:id", "Update"), ("Delete", "/:id", "Delete")]

  function RouteLine(lower: string, entity: string, route: (string, string, string)): string {
    "\t" + lower + "Routes." + route.0 + "(\"" + route.1 + "\", r." + entity + "Handler." + route.2 + ")\n"
  }

  function RouteLines(lower: string, entity: string, routes: seq<(string, string, string)>): string
    decreases |routes|
  {
    if |routes| == 0 then "" else RouteLine(lower, entity, routes[0]) + RouteLines(lower, entity, routes[1..])
  }

  /** The head of the route template: the marker and the declaration of the entity's route group. */
  function RouteGroup(info: EntityInfo): string {
    "\n\t" + (RouteMarker(info.EntityName) + GroupLine(info))
  }

  function GroupLine(info: EntityInfo): string {
    "\n\t" + info.LowerEntityName + "Routes := apiV1.Group(\"/" + info.TableName + "\")"
  }

  /** The rendered route template: the group, the five routes, a blank line and the anchor. */
  function RoutesBlock(info: EntityInfo): string {
    RouteGroup(info) + ("\n" + RouteLines(info.LowerEntityName, info.EntityName, CrudRoutes) + ("\n\t" + GeneratorAnchor))
  }

  /** The router text addRoutesToRouter writes, before formatting, when the marker is absent. */
  function RoutesEdit(content: string, info: EntityInfo): string {
    if Contains(content, RouteMarker(info.EntityName)) then content
    else ReplaceFirst(content, GeneratorAnchor, RoutesBlock(info))
  }

  /**
   * addRoutesToRouter over the working tree: a read error is returned; the
   * marker present means no write; otherwise the edited text is written,
   * formatted when formatting succeeds and as it is when it fails.
   */
  function AddRoutesToRouter(d: Disk, info: EntityInfo, paths: PathConfig, format: string -> Option<string>)
    : (r: (Disk, Option<ModifyError>))
    ensures !d.Read(paths.RouterFile).Content? ==> r == (d, Some(ReadFailure(paths.RouterFile)))
    ensures d.Read(paths.RouterFile).Content? && Contains(d.Read(paths.RouterFile).text, RouteMarker(info.EntityName))
            ==> r == (d, None)
    ensures d.Read(paths.RouterFile).Content? && !Contains(d.Read(paths.RouterFile).text, RouteMarker(info.EntityName))
            ==> var edited := RoutesEdit(d.Read(paths.RouterFile).text, info);
                && r.1 == None
                && (format(edited).Some? ==> r.0 == d.Write(paths.RouterFile, format(edited).value))
                && (format(edited).None? ==> r.0 == d.Write(paths.RouterFile, edited))
  {
    match d.Read(paths.RouterFile)
    case Content(text) =>
      if Contains(text, RouteMarker(info.EntityName)) then (d, None)
      else
        var edited := RoutesEdit(text, info);
        var written := match format(edited) case Some(f) => f case None => edited;
        (d.Write(paths.RouterFile, written), None)
    case _ => (d, Some(ReadFailure(paths.RouterFile)))
  }

  lemma RoutesBlockShape(info: EntityInfo)
    ensures OccursAt(RoutesBlock(info), RouteMarker(info.EntityName), 2)
    ensures HasSuffix(RoutesBlock(info), GeneratorAnchor)
    ensures Contains(RoutesBlock(info), RouteMarker(info.EntityName))
    ensures Contains(RoutesBlock(info), GeneratorAnchor)
  {
    var m := RouteMarker(info.EntityName);
    var rest := "\n" + RouteLines(info.LowerEntityName, info.EntityName, CrudRoutes);
    MarkerAfterIndent(m, GroupLine(info), rest + ("\n\t" + GeneratorAnchor));
    AnchorLast(RouteGroup(info), rest);
  }

  lemma MarkerAfterIndent(m: string, line: string, rest: string)
    ensures OccursAt(("\n\t" + (m + line)) + rest, m, 2)
    ensures Contains(("\n\t" + (m + line)) + rest, m)
  {
    var b := ("\n\t" + (m + line)) + rest;
    assert b[2..2 + |m|] == m;
    assert OccursAt(b, m, 2);
  }

  lemma AnchorLast(x: string, y: string)
    ensures HasSuffix(x + (y + ("\n\t" + GeneratorAnchor)), GeneratorAnchor)
    ensures Contains(x + (y + ("\n\t" + GeneratorAnchor)), GeneratorAnchor)
  {
    var n := "\n\t";
    Reassociate(x, y, n + GeneratorAnchor);
    Reassociate(x + y, n, GeneratorAnchor);
    AppendedSuffix(x + y + n, GeneratorAnchor);
  }

  /**
   * The first anchor is replaced by the route block; the marker is present
   * afterwards and the anchor is kept for the next entity.
   */
  lemma RoutesEditInserts(content: string, info: EntityInfo, k: nat)
    requires !Contains(content, RouteMarker(info.EntityName))
    requires FirstAt(content, GeneratorAnchor, k)
    ensures var r := RoutesEdit(content, info);
            && r == content[..k] + RoutesBlock(info) + content[k + |GeneratorAnchor|..]
            && Contains(r, RouteMarker(info.EntityName))
            && Contains(r, GeneratorAnchor)
  {
    assert RoutesEdit(content, info) == ReplaceFirst(content, GeneratorAnchor, RoutesBlock(info));
    RoutesBlockShape(info);
    ReplaceFirstKeeps(content, GeneratorAnchor, RoutesBlock(info), k, RouteMarker(info.EntityName));
  }

  /**
   * A second run over the file the first run wrote finds the marker and
   * writes nothing, when the written text still holds the marker: always on
   * the unformatted path, and on the formatted path when formatting keeps
   * the comment.
   */
  lemma AddRoutesRerun(d: Disk, info: EntityInfo, paths: PathConfig, format: string -> Option<string>, k: nat)
    requires d.Read(paths.RouterFile).Content?
    requires !Contains(d.Read(paths.RouterFile).text, RouteMarker(info.EntityName))
    requires FirstAt(d.Read(paths.RouterFile).text, GeneratorAnchor, k)
    requires var edited := RoutesEdit(d.Read(paths.RouterFile).text, info);
             format(edited).None? || Contains(format(edited).value, RouteMarker(info.EntityName))
    ensures var d1 := AddRoutesToRouter(d, info, paths, format).0;
            AddRoutesToRouter(d1, info, paths, format) == (d1, None)
  {
    var path := paths.RouterFile;
    var marker := RouteMarker(info.EntityName);
    var edited := RoutesEdit(d.Read(path).text, info);
    assert Contains(edited, marker) by {
      RoutesEditInserts(d.Read(path).text, info, k);
    }
    var written := if format(edited).Some? then format(edited).value else edited;
    var d1 := AddRoutesToRouter(d, info, paths, format).0;
    assert d1 == d.Write(path, written);
    assert d1.Read(path) == Content(written);
  }

  /** Adding the routes twice is adding them once. */
  lemma RoutesEditIdempotent(content: string, info: EntityInfo)
    ensures RoutesEdit(RoutesEdit(content, info), info) == RoutesEdit(content, info)
  {
    if !Contains(content, RouteMarker(info.EntityName)) {
      match Index(content, GeneratorAnchor)
      case None =>
      case Some(k) =>
        RoutesEditInserts(content, info, k);
    }
  }

  /**
   * The route block opens with the code gen-api's route-group step looks
   * for, so gen-api does not declare the group a second time.
   */
  lemma RoutesBlockDefinesGroup(info: EntityInfo, api: ApiInfo)
    requires api.EntityName == info.EntityName && api.LowerEntityName == info.LowerEntityName
    requires api.TableName == info.TableName
    ensures HasPrefix(RoutesBlock(info), Injector.GroupCreation(api))
    ensures Contains(RoutesBlock(info), Injector.GroupDefinition(api))
  {
    var g := Injector.GroupCreation(api);
    var rest := "\n" + RouteLines(info.LowerEntityName, info.EntityName, CrudRoutes) + ("\n\t" + GeneratorAnchor);
    assert RoutesBlock(info) == g + rest by {
      RouteGroupIsCreation(info, api);
    }
    AppendedPrefix(g, rest);
    InfixAt("\n\t// " + api.EntityName + " routes\n\t", Injector.GroupDefinition(api), rest);
  }

  lemma RouteGroupIsCreation(info: EntityInfo, api: ApiInfo)
    requires api.EntityName == info.EntityName && api.LowerEntityName == info.LowerEntityName
    requires api.TableName == info.TableName
    ensures RouteGroup(info) == Injector.GroupCreation(api)
  {
    var e := info.EntityName;
    var tail := info.LowerEntityName + "Routes := apiV1.Group(\"/" + info.TableName + "\")";
    assert GroupLine(info) == "\n\t" + tail;
    assert Injector.GroupDefinition(api) == tail;
    assert RouteGroup(info) == "\n\t" + ("// " + e + " routes" + ("\n\t" + tail));
    assert Injector.GroupCreation(api) == "\n\t// " + e + " routes\n\t" + tail;
  }
}
