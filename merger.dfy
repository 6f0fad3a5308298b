/**
 * The gen-logic side of the generator: locating a method in a Go file,
 * listing a handler's public methods, and merging a generated method into
 * a file at the level of its declarations. The Go parser, printer and
 * source formatter are parameters of the model; what it fixes is which
 * declaration is chosen, what of it is replaced, and what is written.
 */
module Merger {
  import opened Wrappers
  import opened Strings
  import opened Common
  import opened Workspace
  import opened Injector
  import Routes

  // ---------------------------------------------------------------------
  // Declarations
  // ---------------------------------------------------------------------

  /** The receiver list of a function declaration. */
  datatype Receiver =
    | NoReceiver          // no receiver list, or an empty one
    | Pointer(typeName: string)  // (r *T)
    | Value(typeName: string)    // (r T)
    | OtherReceiver       // any other receiver type expression

  /**
   * A top-level declaration as the parser reports it. `start` and `end` are
   * the character offsets of the declaration in the text it was parsed
   * from; with ASCII text these are Go's byte offsets.
   */
  datatype Decl =
    | FuncDecl(name: string, recv: Receiver, doc: Option<seq<string>>, signature: string,
               body: string, start: nat, end: nat)
    | OtherDecl(start: nat, end: nat)

  /** A parsed Go file: its package name and declarations. */
  datatype Unit = Unit(pkg: string, decls: seq<Decl>)

  /** The type name of a receiver, or "" when it has none or it is not a plain (pointer to a) name. */
  function ReceiverTypeName(recv: Receiver): (r: string)
    ensures recv.Pointer? || recv.Value? ==> r == recv.typeName
    ensures recv.NoReceiver? || recv.OtherReceiver? ==> r == ""
  {
    match recv
    case Pointer(t) => t
    case Value(t) => t
    case _ => ""
  }

  /** A doc comment carries swag annotations when one of its lines holds an `@`. */
  predicate HasSwaggerAnnotations(doc: Option<seq<string>>): (b: bool)
    ensures b ==> doc.Some? && |doc.value| > 0
  {
    doc.Some? && exists i :: 0 <= i < |doc.value| && Contains(doc.value[i], "@")
  }

  /** The doc comment a merged method keeps: the old one only when it alone has annotations. */
  function ChooseDoc(oldDoc: Option<seq<string>>, newDoc: Option<seq<string>>): (r: Option<seq<string>>)
    ensures r == oldDoc || r == newDoc
    ensures HasSwaggerAnnotations(oldDoc) ==> HasSwaggerAnnotations(r)
    ensures HasSwaggerAnnotations(newDoc) ==> r == newDoc
    ensures !HasSwaggerAnnotations(oldDoc) ==> r == newDoc
  {
    if HasSwaggerAnnotations(oldDoc) && !HasSwaggerAnnotations(newDoc) then oldDoc else newDoc
  }

  /**
   * The comment block sync-routes generates counts as annotated, so a merge
   * whose new method has no annotations keeps it.
   */
  lemma GeneratedDocKept(info: Routes.RouteInfo, newDoc: Option<seq<string>>)
    requires !HasSwaggerAnnotations(newDoc)
    ensures HasSwaggerAnnotations(Some(Routes.SwaggerComments(info)))
    ensures ChooseDoc(Some(Routes.SwaggerComments(info)), newDoc) == Some(Routes.SwaggerComments(info))
  {
    var doc := Routes.SwaggerComments(info);
    var line := doc[10];
    assert line[..10] == Routes.RouterTag;
    assert OccursAt(line, "@", 3);
  }

  // ---------------------------------------------------------------------
  // Choosing the declaration to replace
  // ---------------------------------------------------------------------

  /** The declaration smartReplaceOrAddMethods replaces: same method name, receiver type equal up to case. */
  predicate MergeTarget(d: Decl, methodName: string, structName: string) {
    d.FuncDecl? && d.name == methodName && EqualFold(ReceiverTypeName(d.recv), structName)
  }

  /**
   * The last declaration satisfying MergeTarget: the traversal visits every
   * declaration and each match overwrites the previous one.
   */
  function LastTarget(decls: seq<Decl>, methodName: string, structName: string): (r: Option<nat>)
    ensures r.Some? ==> r.value < |decls| && MergeTarget(decls[r.value], methodName, structName)
    ensures r.Some? ==> forall j :: r.value < j < |decls| ==> !MergeTarget(decls[j], methodName, structName)
    ensures r.None? <==> forall j :: 0 <= j < |decls| ==> !MergeTarget(decls[j], methodName, structName)
  {
    if |decls| == 0 then None
    else if MergeTarget(decls[|decls| - 1], methodName, structName) then Some(|decls| - 1)
    else LastTarget(decls[..|decls| - 1], methodName, structName)
  }

  /** The traversal of astutil.Apply over the top-level declarations. */
  method FindMergeTarget(decls: seq<Decl>, methodName: string, structName: string) returns (found: Option<nat>)
    ensures found == LastTarget(decls, methodName, structName)
  {
    found := None;
    var i := 0;
    while i < |decls|
      invariant i <= |decls|
      invariant found == LastTarget(decls[..i], methodName, structName)
    {
      assert decls[..i + 1][..i] == decls[..i];
      if MergeTarget(decls[i], methodName, structName) {
        found := Some(i);
      }
      i := i + 1;
    }
    assert decls[..i] == decls;
  }

  /**
   * The declarations after merging `newMethod` into them: the chosen
   * declaration gets the new body and the chosen doc comment, keeping its
   * name, receiver and signature; without a match the new method is appended.
   */
  function Merge(decls: seq<Decl>, newMethod: Decl, structName: string): seq<Decl>
    requires newMethod.FuncDecl?
  {
    match LastTarget(decls, newMethod.name, structName)
    case Some(i) => decls[i := decls[i].(doc := ChooseDoc(decls[i].doc, newMethod.doc), body := newMethod.body)]
    case None => decls + [newMethod]
  }

  /** Merging replaces exactly the chosen declaration's doc and body; everything else stays. */
  lemma MergeReplaces(decls: seq<Decl>, newMethod: Decl, structName: string)
    requires newMethod.FuncDecl?
    requires LastTarget(decls, newMethod.name, structName).Some?
    ensures var i := LastTarget(decls, newMethod.name, structName).value;
            var r := Merge(decls, newMethod, structName);
            && |r| == |decls|
            && (forall j :: 0 <= j < |decls| && j != i ==> r[j] == decls[j])
            && r[i].FuncDecl?
            && r[i].name == decls[i].name && r[i].recv == decls[i].recv && r[i].signature == decls[i].signature
            && r[i].body == newMethod.body
            && r[i].doc == ChooseDoc(decls[i].doc, newMethod.doc)
  {
  }

  /** Without a matching declaration the new method is added at the end. */
  lemma MergeAppends(decls: seq<Decl>, newMethod: Decl, structName: string)
    requires newMethod.FuncDecl?
    requires forall j :: 0 <= j < |decls| ==> !MergeTarget(decls[j], newMethod.name, structName)
    ensures Merge(decls, newMethod, structName) == decls + [newMethod]
  {
  }

  /** After a merge the file holds a declaration the same snippet would be merged into. */
  lemma MergeLeavesTarget(decls: seq<Decl>, newMethod: Decl, structName: string)
    requires newMethod.FuncDecl?
    requires EqualFold(ReceiverTypeName(newMethod.recv), structName)
    ensures LastTarget(Merge(decls, newMethod, structName), newMethod.name, structName).Some?
  {
    var r := Merge(decls, newMethod, structName);
    match LastTarget(decls, newMethod.name, structName)
    case Some(i) =>
      assert MergeTarget(r[i], newMethod.name, structName);
    case None =>
      assert MergeTarget(r[|r| - 1], newMethod.name, structName);
  }

  /**
   * Merging the same method twice gives what merging it once gives, when
   * its own receiver names the target struct.
   */
  lemma MergeIdempotent(decls: seq<Decl>, newMethod: Decl, structName: string)
    requires newMethod.FuncDecl?
    requires EqualFold(ReceiverTypeName(newMethod.recv), structName)
    ensures Merge(Merge(decls, newMethod, structName), newMethod, structName) == Merge(decls, newMethod, structName)
  {
    var once := Merge(decls, newMethod, structName);
    match LastTarget(decls, newMethod.name, structName)
    case Some(i) =>
      MergeSameTarget(decls, once, newMethod.name, structName, i);
    case None =>
      assert MergeTarget(once[|once| - 1], newMethod.name, structName);
      assert LastTarget(once, newMethod.name, structName) == Some(|once| - 1);
  }

  /** Replacing a declaration's doc and body keeps it the last target. */
  lemma MergeSameTarget(decls: seq<Decl>, r: seq<Decl>, methodName: string, structName: string, i: nat)
    requires i < |decls| && |r| == |decls| && decls[i].FuncDecl? && r[i].FuncDecl?
    requires LastTarget(decls, methodName, structName) == Some(i)
    requires forall j :: 0 <= j < |decls| && j != i ==> r[j] == decls[j]
    requires r[i] == decls[i].(doc := r[i].doc, body := r[i].body)
    ensures LastTarget(r, methodName, structName) == Some(i)
  {
    assert MergeTarget(r[i], methodName, structName);
    forall j | i < j < |r|
      ensures !MergeTarget(r[j], methodName, structName)
    {
      assert r[j] == decls[j];
    }
  }

  /** A second merge of the same doc keeps the doc the first merge chose. */
  lemma ChooseDocStable(oldDoc: Option<seq<string>>, newDoc: Option<seq<string>>)
    ensures ChooseDoc(ChooseDoc(oldDoc, newDoc), newDoc) == ChooseDoc(oldDoc, newDoc)
  {
  }

  // ---------------------------------------------------------------------
  // The parsed file as it is edited
  // ---------------------------------------------------------------------

  /** The target file's syntax tree, edited in place. */
  class GoFile {
    var pkg: string
    var decls: seq<Decl>

    constructor (unit: Unit)
      ensures pkg == unit.pkg && decls == unit.decls
    {
      pkg := unit.pkg;
      decls := unit.decls;
    }

    function Value(): Unit
      reads this
    {
      Unit(pkg, decls)
    }

    /** oldMethod.Doc = ...; oldMethod.Body = ... */
    method ReplaceDocAndBody(i: nat, doc: Option<seq<string>>, body: string)
      requires i < |decls| && decls[i].FuncDecl?
      modifies this
      ensures pkg == old(pkg)
      ensures decls == old(decls)[i := old(decls)[i].(doc := doc, body := body)]
    {
      decls := decls[i := decls[i].(doc := doc, body := body)];
    }

    /** targetNode.Decls = append(targetNode.Decls, newMethod) */
    method AppendDecl(d: Decl)
      modifies this
      ensures pkg == old(pkg)
      ensures decls == old(decls) + [d]
    {
      decls := decls + [d];
    }
  }

  // ---------------------------------------------------------------------
  // smartReplaceOrAddMethods
  // ---------------------------------------------------------------------

  datatype MergeError =
    | SnippetUnparsable
    | NotAFunction
    | TargetUnparsable(path: string)
    | PrintFailed

  const SnippetHeader := "package temp\n"

  /** The position just after the last `/` of `s`, or 0 when there is none. */
  function AfterLastSlash(s: string): (r: nat)
    ensures r <= |s|
    ensures r > 0 ==> s[r - 1] == '/'
    ensures Lacks(s[r..], '/')
  {
    if |s| == 0 then 0
    else if s[|s| - 1] == '/' then |s|
    else
      var r := AfterLastSlash(s[..|s| - 1]);
      assert s[r..] == s[..|s| - 1][r..] + [s[|s| - 1]];
      r
  }

  /** filepath.Dir for a relative path without repeated or trailing separators. */
  function DirOf(path: string): (r: string)
    ensures Lacks(path, '/') ==> r == "."
  {
    var k := AfterLastSlash(path);
    if k == 0 then "." else path[..k - 1]
  }

  /** filepath.Base for a path without trailing separators. */
  function BaseOf(path: string): (r: string)
    ensures Lacks(r, '/')
  {
    path[AfterLastSlash(path)..]
  }

  /** The package a new file is created with: the name of the directory it lives in. */
  function NewFilePackage(path: string): string {
    BaseOf(DirOf(path))
  }

  /** A file named inside a directory gets that directory's last segment as its package. */
  lemma NewFilePackageInDir(dir: string, name: string)
    requires Lacks(name, '/')
    ensures NewFilePackage(dir + "/" + name) == BaseOf(dir)
  {
    var p := dir + "/" + name;
    AfterLastSlashOf(dir, name);
    assert p[..|dir|] == dir;
  }

  /** The last separator of `dir + "/" + name` is the one before `name`. */
  lemma {:induction false} AfterLastSlashOf(dir: string, name: string)
    requires Lacks(name, '/')
    ensures AfterLastSlash(dir + "/" + name) == |dir| + 1
    decreases |name|
  {
    var p := dir + "/" + name;
    if |name| > 0 {
      assert p[..|p| - 1] == dir + "/" + name[..|name| - 1];
      assert p[|p| - 1] == name[|name| - 1];
      AfterLastSlashOf(dir, name[..|name| - 1]);
    }
  }

  /** The snippet parsed as a file: the header line is put in front of it. */
  function SnippetUnit(parse: string -> Option<Unit>, snippet: string): Option<Unit> {
    parse(SnippetHeader + snippet)
  }

  /** format.Node applied to a merged unit: its source text, or nothing when printing fails. */
  function Printout(printer: Unit -> Option<string>, u: Unit): Option<string> {
    printer(u)
  }

  /** The text written for a tree: the formatted printout, or the raw printout when formatting fails. */
  function WrittenText(printed: string, format: string -> Option<string>): string {
    match format(printed)
    case Some(f) => f
    case None => printed
  }

  /**
   * The unit the method is merged into: the parsed file when it exists (an
   * unreadable one is parsed as empty text), or an empty unit in the
   * directory's package for a new file.
   */
  function TargetUnit(d: Disk, path: string, parse: string -> Option<Unit>): Option<Unit> {
    if d.Exists(path) then parse(match d.Read(path) case Content(t) => t case _ => "")
    else Some(Unit(NewFilePackage(path), []))
  }

  /**
   * The working tree after smartReplaceOrAddMethods, and its error. A
   * blank snippet changes nothing; a snippet that does not parse, or whose
   * first declaration is not a function, or an existing target that does
   * not parse is an error before anything is written. An existing file that
   * cannot be read is parsed as empty text.
   */
  function MergeSpec(d: Disk, path: string, snippet: string, structName: string,
                     parse: string -> Option<Unit>, printer: Unit -> Option<string>,
                     format: string -> Option<string>): (Disk, Option<MergeError>)
  {
    if TrimSpace(snippet) == "" then (d, None)
    else
      var snippetUnit := SnippetUnit(parse, snippet);
      if snippetUnit.None? || |snippetUnit.value.decls| == 0 then (d, Some(SnippetUnparsable))
      else if !snippetUnit.value.decls[0].FuncDecl? then (d, Some(NotAFunction))
      else
        var newMethod := snippetUnit.value.decls[0];
        var target := TargetUnit(d, path, parse);
        if target.None? then (d, Some(TargetUnparsable(path)))
        else
          var merged := Unit(target.value.pkg, Merge(target.value.decls, newMethod, structName));
          match Printout(printer, merged)
          case None => (d, Some(PrintFailed))
          case Some(out) => (d.Write(path, WrittenText(out, format)), None)
  }

  /** smartReplaceOrAddMethods over the working tree. */
  method SmartReplaceOrAddMethods(tree: Tree, path: string, snippet: string, structName: string,
                                  parse: string -> Option<Unit>, printer: Unit -> Option<string>,
                                  format: string -> Option<string>) returns (err: Option<MergeError>)
    modifies tree
    ensures (tree.State(), err) == MergeSpec(old(tree.State()), path, snippet, structName, parse, printer, format)
  {
    if TrimSpace(snippet) == "" {
      return None;
    }
    var snippetUnit := SnippetUnit(parse, snippet);
    if snippetUnit.None? || |snippetUnit.value.decls| == 0 {
      return Some(SnippetUnparsable);
    }
    var newMethod := snippetUnit.value.decls[0];
    if !newMethod.FuncDecl? {
      return Some(NotAFunction);
    }
    var parsed := TargetUnit(tree.State(), path, parse);
    if parsed.None? {
      return Some(TargetUnparsable(path));
    }
    var merged := MergeIntoFile(parsed.value, newMethod, structName);
    var printed := Printout(printer, merged);
    if printed.None? {
      return Some(PrintFailed);
    }
    tree.Write(path, WrittenText(printed.value, format));
    err := None;
  }

  /** The target file held as a GoFile while the new method is merged into it. */
  method MergeIntoFile(parsed: Unit, newMethod: Decl, structName: string) returns (merged: Unit)
    requires newMethod.FuncDecl?
    ensures merged == Unit(parsed.pkg, Merge(parsed.decls, newMethod, structName))
  {
    var file := new GoFile(parsed);
    var found := FindMergeTarget(file.decls, newMethod.name, structName);
    if found.Some? {
      var prev := file.decls[found.value];
      file.ReplaceDocAndBody(found.value, ChooseDoc(prev.doc, newMethod.doc), newMethod.body);
    } else {
      file.AppendDecl(newMethod);
    }
    merged := file.Value();
  }

  /** A blank snippet leaves the tree as it is. */
  lemma MergeBlankSnippet(d: Disk, path: string, snippet: string, structName: string,
                          parse: string -> Option<Unit>, printer: Unit -> Option<string>,
                          format: string -> Option<string>)
    requires TrimSpace(snippet) == ""
    ensures MergeSpec(d, path, snippet, structName, parse, printer, format) == (d, None)
  {
  }

  /** Every refusal happens before the write: an error leaves the tree as it was. */
  lemma MergeFailureWritesNothing(d: Disk, path: string, snippet: string, structName: string,
                                  parse: string -> Option<Unit>, printer: Unit -> Option<string>,
                                  format: string -> Option<string>)
    requires MergeSpec(d, path, snippet, structName, parse, printer, format).1.Some?
    ensures MergeSpec(d, path, snippet, structName, parse, printer, format).0 == d
  {
  }

  /** A success touches the target path only. */
  lemma MergeTouchesOnlyPath(d: Disk, path: string, snippet: string, structName: string,
                             parse: string -> Option<Unit>, printer: Unit -> Option<string>,
                             format: string -> Option<string>, other: string)
    requires other != path
    ensures MergeSpec(d, path, snippet, structName, parse, printer, format).0.Read(other) == d.Read(other)
  {
  }

  /**
   * A missing file is created from a unit in the directory's package with
   * the new method as its only declaration.
   */
  lemma MergeNewFile(d: Disk, path: string, snippet: string, structName: string,
                     parse: string -> Option<Unit>, printer: Unit -> Option<string>,
                     format: string -> Option<string>)
    requires TrimSpace(snippet) != "" && !d.Exists(path)
    requires parse(SnippetHeader + snippet).Some?
    requires |parse(SnippetHeader + snippet).value.decls| > 0
    requires parse(SnippetHeader + snippet).value.decls[0].FuncDecl?
    requires printer(Unit(NewFilePackage(path), [parse(SnippetHeader + snippet).value.decls[0]])).Some?
    ensures var out := printer(Unit(NewFilePackage(path), [parse(SnippetHeader + snippet).value.decls[0]])).value;
            MergeSpec(d, path, snippet, structName, parse, printer, format).0.Read(path) == Content(WrittenText(out, format))
  {
    var newMethod := parse(SnippetHeader + snippet).value.decls[0];
    assert Merge([], newMethod, structName) == [newMethod];
  }

  // ---------------------------------------------------------------------
  // findMethodContent and findPublicMethods
  // ---------------------------------------------------------------------

  /** The parser locates declarations inside the text it was given. */
  predicate SpansWithin(u: Option<Unit>, n: nat) {
    u.Some? ==> forall i :: 0 <= i < |u.value.decls| ==> u.value.decls[i].start <= u.value.decls[i].end <= n
  }

  /**
   * The declaration findMethodContent reports: the receiver compared without
   * a leading `*` to `receiverKey`, the requested receiver name already
   * stripped of its own `*`.
   */
  predicate ContentTarget(d: Decl, receiverKey: string, methodName: string) {
    d.FuncDecl? && d.name == methodName && EqualFold(Unstarred(ReceiverTypeName(d.recv)), receiverKey)
  }

  /** A receiver type name without its pointer star. */
  function Unstarred(s: string): string {
    TrimPrefix(s, "*")
  }

  /** The last content target among the first `n` declarations. */
  function LastContentTarget(decls: seq<Decl>, n: nat, receiverKey: string, methodName: string): (r: Option<nat>)
    requires n <= |decls|
    ensures r.Some? ==> r.value < n && ContentTarget(decls[r.value], receiverKey, methodName)
    ensures r.Some? ==> forall j :: r.value < j < n ==> !ContentTarget(decls[j], receiverKey, methodName)
    ensures r.None? ==> forall j :: 0 <= j < n ==> !ContentTarget(decls[j], receiverKey, methodName)
    decreases n
  {
    if n == 0 then None
    else if ContentTarget(decls[n - 1], receiverKey, methodName) then Some(n - 1)
    else LastContentTarget(decls, n - 1, receiverKey, methodName)
  }

  /** Declaration `i` is a content target and none after it is. */
  predicate LastContentAt(decls: seq<Decl>, i: nat, receiverKey: string, methodName: string) {
    i < |decls| && ContentTarget(decls[i], receiverKey, methodName)
    && forall j :: i < j < |decls| ==> !ContentTarget(decls[j], receiverKey, methodName)
  }

  /** LastContentTarget finds exactly the declaration LastContentAt describes. */
  lemma LastContentUnique(decls: seq<Decl>, i: nat, receiverKey: string, methodName: string)
    requires LastContentAt(decls, i, receiverKey, methodName)
    ensures LastContentTarget(decls, |decls|, receiverKey, methodName) == Some(i)
  {
    var t := LastContentTarget(decls, |decls|, receiverKey, methodName);
    assert ContentTarget(decls[i], receiverKey, methodName);
  }

  datatype LookupError = Unreadable(path: string) | Unparsable(path: string)

  /**
   * The source text of a receiver's method: a missing file or a missing
   * method gives "", an unreadable or unparsable file is an error.
   */
  function FindMethodContent(read: ReadResult, path: string, receiverTypeName: string, methodName: string,
                             parse: string -> Option<Unit>): (r: Result<string, LookupError>)
    requires read.Content? ==> SpansWithin(parse(read.text), |read.text|)
    ensures read.NotExist? ==> r == Success("")
    ensures read.ReadFailed? ==> r == Failure(Unreadable(path))
    ensures read.Content? && parse(read.text).None? ==> r == Failure(Unparsable(path))
    ensures read.Content? && parse(read.text).Some? ==> r.Success?
    ensures read.Content? && parse(read.text).Some? ==>
              forall i: nat :: LastContentAt(parse(read.text).value.decls, i, Unstarred(receiverTypeName), methodName)
                ==> r.value == read.text[parse(read.text).value.decls[i].start..parse(read.text).value.decls[i].end]
    ensures read.Content? && parse(read.text).Some? &&
            (forall i :: 0 <= i < |parse(read.text).value.decls| ==>
               !ContentTarget(parse(read.text).value.decls[i], Unstarred(receiverTypeName), methodName))
            ==> r == Success("")
    ensures r.Success? && r.value != "" ==>
              read.Content? && parse(read.text).Some? &&
              (exists i :: 0 <= i < |parse(read.text).value.decls| &&
                 ContentTarget(parse(read.text).value.decls[i], Unstarred(receiverTypeName), methodName) &&
                 r.value == read.text[parse(read.text).value.decls[i].start..parse(read.text).value.decls[i].end])
  {
    match read
    case NotExist => Success("")
    case ReadFailed => Failure(Unreadable(path))
    case Content(text) =>
      match parse(text)
      case None => Failure(Unparsable(path))
      case Some(u) =>
        var key := Unstarred(receiverTypeName);
        assert forall i: nat :: LastContentAt(u.decls, i, key, methodName)
                 ==> LastContentTarget(u.decls, |u.decls|, key, methodName) == Some(i) by {
          forall i | LastContentAt(u.decls, i, key, methodName) {
            LastContentUnique(u.decls, i, key, methodName);
          }
        }
        match LastContentTarget(u.decls, |u.decls|, key, methodName)
        case None => Success("")
        case Some(i) => Success(text[u.decls[i].start..u.decls[i].end])
  }

  /** The receiver name may be given with or without the pointer star. */
  lemma FindMethodContentStar(read: ReadResult, path: string, receiverTypeName: string, methodName: string,
                              parse: string -> Option<Unit>)
    requires read.Content? ==> SpansWithin(parse(read.text), |read.text|)
    requires !HasPrefix(receiverTypeName, "*")
    ensures FindMethodContent(read, path, "*" + receiverTypeName, methodName, parse)
         == FindMethodContent(read, path, receiverTypeName, methodName, parse)
  {
    assert Unstarred("*" + receiverTypeName) == receiverTypeName == Unstarred(receiverTypeName);
  }

  /** Exported in the ASCII sense: the name starts with an upper-case letter. */
  predicate IsExported(name: string) {
    |name| > 0 && IsUpper(name[0])
  }

  /** The names findPublicMethods collects: exported functions with a receiver, in file order. */
  function PublicMethods(decls: seq<Decl>): (r: seq<string>)
    ensures |r| <= |decls|
    ensures forall k :: 0 <= k < |r| ==> IsExported(r[k])
  {
    if |decls| == 0 then []
    else
      var d := decls[|decls| - 1];
      PublicMethods(decls[..|decls| - 1]) +
        (if d.FuncDecl? && !d.recv.NoReceiver? && IsExported(d.name) then [d.name] else [])
  }

  /** A name is listed exactly when some exported method declaration has it. */
  lemma {:induction false} PublicMethodsMembers(decls: seq<Decl>, name: string)
    ensures name in PublicMethods(decls) <==>
              exists i :: 0 <= i < |decls| && decls[i].FuncDecl? && !decls[i].recv.NoReceiver?
                          && IsExported(decls[i].name) && decls[i].name == name
    decreases |decls|
  {
    if |decls| > 0 {
      var init := decls[..|decls| - 1];
      PublicMethodsMembers(init, name);
      if name in PublicMethods(init) {
        var i :| 0 <= i < |init| && init[i].FuncDecl? && !init[i].recv.NoReceiver?
                 && IsExported(init[i].name) && init[i].name == name;
        assert decls[i] == init[i];
      }
      forall i | 0 <= i < |init|
        ensures decls[i] == init[i]
      {
      }
    }
  }

  /** Listing the methods of two halves lists the first half's, then the second's. */
  lemma {:induction false} PublicMethodsAppend(a: seq<Decl>, b: seq<Decl>)
    ensures PublicMethods(a + b) == PublicMethods(a) + PublicMethods(b)
    decreases |b|
  {
    if |b| == 0 {
      assert a + b == a;
    } else {
      assert (a + b)[..|a + b| - 1] == a + b[..|b| - 1];
      PublicMethodsAppend(a, b[..|b| - 1]);
    }
  }

  /**
   * findPublicMethods on what the parser makes of the file: a missing
   * file gives no methods, an unreadable or unparsable one an error.
   */
  method FindPublicMethods(read: ReadResult, path: string, parse: string -> Option<Unit>)
    returns (r: Result<seq<string>, LookupError>)
    ensures read.NotExist? ==> r == Success([])
    ensures read.ReadFailed? ==> r == Failure(Unreadable(path))
    ensures read.Content? && parse(read.text).None? ==> r == Failure(Unparsable(path))
    ensures read.Content? && parse(read.text).Some? ==> r == Success(PublicMethods(parse(read.text).value.decls))
  {
    match read {
      case NotExist => return Success([]);
      case ReadFailed => return Failure(Unreadable(path));
      case Content(text) =>
        var u := parse(text);
        if u.None? {
          return Failure(Unparsable(path));
        }
        var decls := u.value.decls;
        var methods: seq<string> := [];
        var i := 0;
        while i < |decls|
          invariant i <= |decls|
          invariant methods == PublicMethods(decls[..i])
        {
          assert decls[..i + 1][..i] == decls[..i];
          var d := decls[i];
          if d.FuncDecl? && !d.recv.NoReceiver? && IsExported(d.name) {
            methods := methods + [d.name];
          }
          i := i + 1;
        }
        assert decls[..i] == decls;
        return Success(methods);
    }
  }

  // ---------------------------------------------------------------------
  // buildLogicAdditionInfo naming and applyGeneratedCode
  // ---------------------------------------------------------------------

  /** The files and struct names a gen-logic run works on. */
  datatype LogicTargets = LogicTargets(
    EntityName: string,
    MethodName: string,
    HandlerFile: string,
    ServiceFile: string,
    RepoImplFile: string,
    RepoInterfacePath: string,
    HandlerStructName: string,
    ServiceImplStructName: string,
    RepoImplStructName: string)

  /** The naming part of buildLogicAdditionInfo, for a recognised layout. */
  function LogicTargetsFor(paths: ProjectPathConfig, entity: string, methodName: string): (t: LogicTargets)
    ensures t.EntityName == entity && t.MethodName == methodName
    ensures HasPrefix(t.HandlerFile, paths.HandlerDir + "/") && HasSuffix(t.HandlerFile, "_handler.go")
    ensures HasPrefix(t.ServiceFile, paths.ServiceDir + "/") && HasSuffix(t.ServiceFile, "_service.go")
    ensures HasSuffix(t.HandlerStructName, "Handler") && HasSuffix(t.RepoImplStructName, "RepositoryImpl")
  {
    var snake := SnakeCase(entity);
    var ht := paths.HandlerDir + "/" + snake;
    var st := paths.ServiceDir + "/" + snake;
    assert (ht + "_handler.go")[..|ht|] == ht;
    assert (st + "_service.go")[..|st|] == st;
    LogicTargets(entity, methodName,
      ht + "_handler.go",
      st + "_service.go",
      paths.RepoImplDir + "/" + snake + "_repository_impl.go",
      paths.RepoInterfaceDir + "/" + snake + "_repository.go",
      entity + "Handler",
      LowerCamel(entity) + "ServiceImpl",
      LowerCamel(entity) + "RepositoryImpl")
  }

  /** The naming part of buildLogicAdditionInfo: it fails exactly when the layout is not recognised. */
  function BuildLogicTargets(hasApplication: bool, hasUsecase: bool, entity: string, methodName: string)
    : (r: Result<LogicTargets, string>)
    ensures r.Failure? <==> !hasApplication && !hasUsecase
    ensures r.Success? ==> r.value == LogicTargetsFor(GetProjectPaths(hasApplication, hasUsecase).value, entity, methodName)
  {
    var paths :- GetProjectPaths(hasApplication, hasUsecase);
    Success(LogicTargetsFor(paths, entity, methodName))
  }

  /**
   * gen-logic edits exactly the files gen-api created for the same entity:
   * the handler, service, repository implementation and repository interface.
   */
  lemma LogicTargetsMatchApiTasks(paths: ProjectPathConfig, info: ApiInfo, snippets: ApiSnippets, methodName: string)
    requires LayoutPlain(paths)
    ensures var t := LogicTargetsFor(paths, info.EntityName, methodName);
            var ts := Tasks(paths, info, snippets);
            var e := info.EntityName;
            && t.RepoInterfacePath == TaskPath(ts[0].pathTmpl, e)
            && t.RepoImplFile == TaskPath(ts[1].pathTmpl, e)
            && t.ServiceFile == TaskPath(ts[2].pathTmpl, e)
            && t.HandlerFile == TaskPath(ts[4].pathTmpl, e)
  {
    TaskPaths(paths, info, snippets);
  }

  /** The handler struct is found in the handler file whatever case the entity is written in. */
  lemma HandlerStructFolds(entity: string)
    ensures EqualFold(entity + "Handler", LowerCamel(entity) + "Handler")
  {
    var a := entity + "Handler";
    var b := LowerCamel(entity) + "Handler";
    assert |a| == |b|;
    forall i | 0 <= i < |a|
      ensures ToLower(a)[i] == ToLower(b)[i]
    {
      if i == 0 && |entity| > 0 {
        LowerTwice(entity[0]);
      } else {
        assert a[i] == b[i];
      }
    }
    assert ToLower(a) == ToLower(b);
  }

  lemma LowerTwice(c: char)
    ensures LowerChar(LowerChar(c)) == LowerChar(c)
  {
  }

  /** The generated code for a gen-logic run. */
  datatype LogicSnippets = LogicSnippets(
    ModifiedHandlerMethod: string,
    ModifiedServiceImplMethod: string,
    ModifiedRepoImplMethod: string,
    NewRepoInterfaceMethod: string)

  /** One smart-replace task: file, snippet, struct. */
  datatype MergeTask = MergeTask(path: string, code: string, structName: string)

  function MergeTasks(t: LogicTargets, s: LogicSnippets): (r: seq<MergeTask>)
    ensures |r| == 3
  {
    [ MergeTask(t.HandlerFile, s.ModifiedHandlerMethod, t.HandlerStructName),
      MergeTask(t.ServiceFile, s.ModifiedServiceImplMethod, t.ServiceImplStructName),
      MergeTask(t.RepoImplFile, s.ModifiedRepoImplMethod, t.RepoImplStructName) ]
  }

  /** The failure of a gen-logic application. */
  datatype ApplyError = MergeFailed(mergeCause: MergeError) | InterfaceFailed(injectCause: InjectError)

  /** The merge tasks in order, skipping empty snippets; the first error ends the run. */
  function RunMerges(d: Disk, tasks: seq<MergeTask>, parse: string -> Option<Unit>,
                     printer: Unit -> Option<string>, format: string -> Option<string>): (Disk, Option<MergeError>)
    decreases |tasks|
  {
    if |tasks| == 0 then (d, None)
    else
      var t := tasks[0];
      if t.code == "" then RunMerges(d, tasks[1..], parse, printer, format)
      else
        var step := MergeSpec(d, t.path, t.code, t.structName, parse, printer, format);
        if step.1.Some? then step else RunMerges(step.0, tasks[1..], parse, printer, format)
  }

  /** The anchor the new repository interface method is placed after. */
  function RepoInterfaceAnchor(entity: string): string {
    "type " + entity + "Repository interface"
  }

  /** The working tree after applyGeneratedCode, and its error. */
  function ApplySpec(d: Disk, t: LogicTargets, s: LogicSnippets, parse: string -> Option<Unit>,
                     printer: Unit -> Option<string>, format: string -> Option<string>): (Disk, Option<ApplyError>)
  {
    var merged := RunMerges(d, MergeTasks(t, s), parse, printer, format);
    if merged.1.Some? then (merged.0, Some(MergeFailed(merged.1.value)))
    else if s.NewRepoInterfaceMethod == "" then (merged.0, None)
    else
      var d1 := merged.0;
      var step := Apply(d1, t.RepoInterfacePath,
                        Splice(d1.Read(t.RepoInterfacePath), t.RepoInterfacePath, "\n\t" + s.NewRepoInterfaceMethod,
                               t.EntityName, RepoInterfaceAnchor(t.EntityName), InsertAfterBrace, Current));
      (step.0, if step.1.Some? then Some(InterfaceFailed(step.1.value)) else None)
  }

  /** applyGeneratedCode: the three merges, then the interface method. */
  method ApplyGeneratedCode(tree: Tree, t: LogicTargets, s: LogicSnippets, parse: string -> Option<Unit>,
                            printer: Unit -> Option<string>, format: string -> Option<string>)
    returns (err: Option<ApplyError>)
    modifies tree
    ensures (tree.State(), err) == ApplySpec(old(tree.State()), t, s, parse, printer, format)
  {
    var tasks := MergeTasks(t, s);
    var i := 0;
    while i < |tasks|
      invariant i <= |tasks|
      invariant RunMerges(old(tree.State()), tasks, parse, printer, format)
             == RunMerges(tree.State(), tasks[i..], parse, printer, format)
    {
      var task := tasks[i];
      assert tasks[i..][1..] == tasks[i + 1..];
      if task.code != "" {
        var e := SmartReplaceOrAddMethods(tree, task.path, task.code, task.structName, parse, printer, format);
        if e.Some? {
          return Some(MergeFailed(e.value));
        }
      }
      i := i + 1;
    }
    if s.NewRepoInterfaceMethod != "" {
      var e := AppendToFile(tree, t.RepoInterfacePath, "\n\t" + s.NewRepoInterfaceMethod, t.EntityName,
                            RepoInterfaceAnchor(t.EntityName), InsertAfterBrace, Current);
      if e.Some? {
        return Some(InterfaceFailed(e.value));
      }
    }
    err := None;
  }

  /** Snippets that are all empty leave the tree untouched. */
  lemma ApplyNothing(d: Disk, t: LogicTargets, parse: string -> Option<Unit>,
                     printer: Unit -> Option<string>, format: string -> Option<string>)
    ensures ApplySpec(d, t, LogicSnippets("", "", "", ""), parse, printer, format) == (d, None)
  {
    var ts := MergeTasks(t, LogicSnippets("", "", "", ""));
    assert ts[2..][1..] == [];
    assert RunMerges(d, ts[2..], parse, printer, format) == (d, None);
    assert ts[1..][1..] == ts[2..];
    assert RunMerges(d, ts[1..], parse, printer, format) == (d, None);
  }

  /** The interface edit happens only after all three merges succeed. */
  lemma ApplyInterfaceAfterMerges(d: Disk, t: LogicTargets, s: LogicSnippets, parse: string -> Option<Unit>,
                                  printer: Unit -> Option<string>, format: string -> Option<string>)
    requires RunMerges(d, MergeTasks(t, s), parse, printer, format).1.Some?
    ensures ApplySpec(d, t, s, parse, printer, format).0 == RunMerges(d, MergeTasks(t, s), parse, printer, format).0
    ensures ApplySpec(d, t, s, parse, printer, format).1.Some? && ApplySpec(d, t, s, parse, printer, format).1.value.MergeFailed?
  {
  }

  /** The interface anchor has no template action, so it renders to itself. */
  lemma RepoInterfaceAnchorPlain(entity: string)
    requires NoBrace(entity)
    ensures RenderAnchor(RepoInterfaceAnchor(entity), entity) == RepoInterfaceAnchor(entity)
  {
    var a := RepoInterfaceAnchor(entity);
    forall i | 0 <= i < |a|
      ensures a[i] != '{'
    {
      if 5 <= i < 5 + |entity| {
        assert a[i] == entity[i - 5];
      }
    }
    RenderPlain(a, entity);
  }

  /**
   * The interface anchor gen-logic places a method after is the one gen-api
   * renders for the same entity's repository interface.
   */
  lemma RepoInterfaceAnchorAgrees(paths: ProjectPathConfig, info: ApiInfo, snippets: ApiSnippets)
    requires NoBrace(info.EntityName)
    ensures RenderAnchor(Tasks(paths, info, snippets)[0].anchor, info.EntityName) == RepoInterfaceAnchor(info.EntityName)
  {
    RepoInterfaceRendered(info.EntityName);
  }

  lemma RepoInterfaceRendered(entity: string)
    requires NoBrace(entity)
    ensures RenderAnchor(RepoInterfaceTemplate, entity) == RepoInterfaceAnchor(entity)
  {
    AnchorTextPlain();
    RenderEntity("type ", "Repository interface", entity);
  }

  lemma AnchorTextPlain()
    ensures NoBrace("type ") && NoBrace("Repository interface")
  {
  }
}
