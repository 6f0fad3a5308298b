/**
 * The `sync-routes` command: the routes registered in the router file are
 * collected, and the Swagger comment of every handler method that has a
 * route is created or brought in line with it.
 */
module Routes {
  import opened Wrappers
  import opened Strings
  import opened Workspace

  // ---------------------------------------------------------------------
  // Collecting the routes
  // ---------------------------------------------------------------------

  /** A registered route: verb (upper case), full path, handler field and handler method. */
  datatype RouteInfo = RouteInfo(HTTPMethod: string, Path: string, Handler: string, Function: string)

  /** The expressions the route collector looks into. */
  datatype Expr =
    | BasicLit(value: string)
    | Selector(x: Expr, name: string)
    | Call(fun: Expr, args: seq<Expr>)
    | OtherExpr

  /**
   * A node of the router file, in the order the syntax-tree walk visits
   * them: an assignment (with its first right-hand side), a call, or
   * anything else.
   */
  datatype Node = Assign(rhs: Expr) | CallNode(fun: Expr, args: seq<Expr>) | OtherNode

  const GroupBase := "/api/v1"

  /** isHTTPMethod: the seven verbs, spelled in capitals only; the caller upper-cases the selector first. */
  predicate IsHttpMethod(m: string): (b: bool)
    ensures b ==> 3 <= |m| <= 7 && forall i :: 0 <= i < |m| ==> 'A' <= m[i] <= 'Z'
  {
    m == "GET" || m == "POST" || m == "PUT" || m == "DELETE" || m == "PATCH" || m == "HEAD" || m == "OPTIONS"
  }

  /** Routes are keyed by handler and method. */
  function RouteKey(handler: string, fn: string): string {
    handler + "." + fn
  }

  /** The group prefix an assignment sets, if its right-hand side is `x.Group("<lit>")`. */
  function GroupOf(rhs: Expr): Option<string> {
    match rhs
    case Call(Selector(_, name), args) =>
      if name == "Group" && |args| > 0 && args[0].BasicLit? then Some(GroupBase + TrimChar(args[0].value, '"'))
      else None
    case _ => None
  }

  /** The route a call registers: an HTTP verb, a literal path and a `x.Handler.Method` argument. */
  function RouteOfCall(prefix: string, fun: Expr, args: seq<Expr>): (r: Option<RouteInfo>)
    ensures r.Some? ==> IsHttpMethod(r.value.HTTPMethod)
  {
    match fun
    case Selector(_, name) =>
      var verb := ToUpper(name);
      if !IsHttpMethod(verb) || |args| < 2 || !args[0].BasicLit? then None
      else
        (match args[1]
         case Selector(Selector(_, handler), fn) =>
           Some(RouteInfo(verb, ReplaceAll(prefix + TrimChar(args[0].value, '"'), "//", "/"), handler, fn))
         case _ => None)
    case _ => None
  }

  /** The walk's state: the current group prefix and the routes so far. */
  datatype RouteScan = RouteScan(prefix: string, routes: map<string, RouteInfo>)

  function VisitNode(s: RouteScan, n: Node): RouteScan {
    match n
    case Assign(rhs) =>
      (match GroupOf(rhs) case Some(p) => RouteScan(p, s.routes) case None => s)
    case CallNode(fun, args) =>
      (match RouteOfCall(s.prefix, fun, args)
       case Some(r) => RouteScan(s.prefix, s.routes[RouteKey(r.Handler, r.Function) := r])
       case None => s)
    case OtherNode => s
  }

  function ScanRoutes(nodes: seq<Node>): RouteScan
    decreases |nodes|
  {
    if |nodes| == 0 then RouteScan("", map[])
    else VisitNode(ScanRoutes(nodes[..|nodes| - 1]), nodes[|nodes| - 1])
  }

  /** Every collected route is stored under its own key and has an HTTP verb. */
  predicate WellKeyed(routes: map<string, RouteInfo>) {
    forall k :: k in routes ==> k == RouteKey(routes[k].Handler, routes[k].Function) && IsHttpMethod(routes[k].HTTPMethod)
  }

  lemma {:induction false} ScanRoutesWellKeyed(nodes: seq<Node>)
    ensures WellKeyed(ScanRoutes(nodes).routes)
    decreases |nodes|
  {
    if |nodes| > 0 {
      ScanRoutesWellKeyed(nodes[..|nodes| - 1]);
    }
  }

  /** A later registration under the same key replaces the earlier one; other keys are kept. */
  lemma RouteOverwrites(nodes: seq<Node>, fun: Expr, args: seq<Expr>)
    requires RouteOfCall(ScanRoutes(nodes).prefix, fun, args).Some?
    ensures var r := RouteOfCall(ScanRoutes(nodes).prefix, fun, args).value;
            var after := ScanRoutes(nodes + [CallNode(fun, args)]).routes;
            && after[RouteKey(r.Handler, r.Function)] == r
            && forall k :: k in ScanRoutes(nodes).routes && k != RouteKey(r.Handler, r.Function) ==>
                 k in after && after[k] == ScanRoutes(nodes).routes[k]
  {
    assert (nodes + [CallNode(fun, args)])[..|nodes|] == nodes;
  }

  /** Each group assignment replaces the prefix, whatever came before. */
  lemma GroupResetsPrefix(nodes: seq<Node>, rhs: Expr)
    requires GroupOf(rhs).Some?
    ensures ScanRoutes(nodes + [Assign(rhs)]).prefix == GroupOf(rhs).value
    ensures ScanRoutes(nodes + [Assign(rhs)]).routes == ScanRoutes(nodes).routes
  {
    assert (nodes + [Assign(rhs)])[..|nodes|] == nodes;
  }

  /** A path without a doubled slash is kept as it is. */
  lemma NoDoubleSlash(s: string)
    requires forall i :: 0 <= i < |s| - 1 ==> !(s[i] == '/' && s[i + 1] == '/')
    ensures ReplaceAll(s, "//", "/") == s
  {
    forall k: nat | k + 2 <= |s|
      ensures !OccursAt(s, "//", k)
    {
      assert s[k..k + 2][0] == s[k] && s[k..k + 2][1] == s[k + 1];
    }
    ReplaceAllMissing(s, "//", "/");
  }

  /** The text of a string literal. */
  function Quoted(s: string): string {
    "\"" + s + "\""
  }

  /** Neither end is a quote, so trimming the literal's quotes gives its text. */
  predicate NotQuoteBounded(s: string) {
    |s| == 0 || (s[0] != '"' && s[|s| - 1] != '"')
  }

  lemma QuotedTrimmed(s: string)
    requires NotQuoteBounded(s)
    ensures TrimChar(Quoted(s), '"') == s
  {
    TrimQuoted(s, '"');
    assert Quoted(s) == ['"'] + s + ['"'];
  }

  /**
   * `Group("<g>")` followed by `<Verb>("<path>", h.<Handler>.<Method>)`
   * registers the route `/api/v1<g><path>` under `<Handler>.<Method>`; so
   * `Group("/widgets")` and `Post("/", h.WidgetHandler.Create)` register
   * POST /api/v1/widgets/.
   */
  lemma GroupThenRoute(recv: Expr, h: Expr, g: string, verb: string, path: string, handler: string, fn: string)
    requires NotQuoteBounded(g) && NotQuoteBounded(path) && IsHttpMethod(ToUpper(verb))
    requires forall i :: 0 <= i < |GroupBase + g + path| - 1 ==> !((GroupBase + g + path)[i] == '/' && (GroupBase + g + path)[i + 1] == '/')
    ensures var nodes := [Assign(Call(Selector(recv, "Group"), [BasicLit(Quoted(g))])),
                          CallNode(Selector(recv, verb), [BasicLit(Quoted(path)), Selector(Selector(h, handler), fn)])];
            ScanRoutes(nodes).routes == map[RouteKey(handler, fn) := RouteInfo(ToUpper(verb), GroupBase + g + path, handler, fn)]
  {
    var gn := Assign(Call(Selector(recv, "Group"), [BasicLit(Quoted(g))]));
    var rn := CallNode(Selector(recv, verb), [BasicLit(Quoted(path)), Selector(Selector(h, handler), fn)]);
    GroupLiteral(recv, g);
    assert [gn][..0] == [];
    assert ScanRoutes([gn]) == RouteScan(GroupBase + g, map[]);
    NoDoubleSlash(GroupBase + g + path);
    RouteLiteral(GroupBase + g, recv, h, verb, path, handler, fn);
    assert [gn, rn][..1] == [gn];
  }

  lemma GroupLiteral(recv: Expr, g: string)
    requires NotQuoteBounded(g)
    ensures GroupOf(Call(Selector(recv, "Group"), [BasicLit(Quoted(g))])) == Some(GroupBase + g)
  {
    QuotedTrimmed(g);
  }

  lemma RouteLiteral(prefix: string, recv: Expr, h: Expr, verb: string, path: string, handler: string, fn: string)
    requires NotQuoteBounded(path) && IsHttpMethod(ToUpper(verb))
    ensures RouteOfCall(prefix, Selector(recv, verb), [BasicLit(Quoted(path)), Selector(Selector(h, handler), fn)])
         == Some(RouteInfo(ToUpper(verb), ReplaceAll(prefix + path, "//", "/"), handler, fn))
  {
    QuotedTrimmed(path);
  }

  datatype SyncError = RouterUnparsable(path: string) | HandlerUnreadable(path: string)

  /** parseRoutes: the router file is read and parsed, and the walk collects the routes. */
  function ParseRoutes(d: Disk, path: string, parse: string -> Option<seq<Node>>): (r: Result<map<string, RouteInfo>, SyncError>)
    ensures r.Success? ==> WellKeyed(r.value)
    ensures !d.Read(path).Content? ==> r == Failure(RouterUnparsable(path))
  {
    match d.Read(path)
    case Content(text) =>
      (match parse(text)
       case Some(nodes) => ScanRoutesWellKeyed(nodes); Success(ScanRoutes(nodes).routes)
       case None => Failure(RouterUnparsable(path)))
    case _ => Failure(RouterUnparsable(path))
  }

  /** The walk of parseRoutes, with the prefix and the table updated in place. */
  method CollectRoutes(nodes: seq<Node>) returns (routes: map<string, RouteInfo>)
    ensures routes == ScanRoutes(nodes).routes
  {
    routes := map[];
    var currentGroupPrefix := "";
    var i := 0;
    while i < |nodes|
      invariant i <= |nodes|
      invariant RouteScan(currentGroupPrefix, routes) == ScanRoutes(nodes[..i])
    {
      assert nodes[..i + 1][..i] == nodes[..i];
      match nodes[i] {
        case Assign(rhs) =>
          var group := GroupOf(rhs);
          if group.Some? {
            currentGroupPrefix := group.value;
          }
        case CallNode(fun, args) =>
          var route := RouteOfCall(currentGroupPrefix, fun, args);
          if route.Some? {
            routes := routes[RouteKey(route.value.Handler, route.value.Function) := route.value];
          }
        case OtherNode =>
      }
      i := i + 1;
    }
    assert nodes[..i] == nodes;
  }

  // ---------------------------------------------------------------------
  // Matching handler method lines
  // ---------------------------------------------------------------------

  const FuncLead := "func ("

  /** `\(.*?\)` finds its closing parenthesis before the end of the line. */
  predicate ClosesOnLine(t: string) {
    exists m :: 0 <= m < |t| && t[m] == ')' && Lacks(t[..m], '\n')
  }

  /** What ` \*(\w+)\) (\w+)\(.*?\)` captures when it matches at the start of `t`. */
  function ReceiverHere(t: string): (r: Option<(string, string)>)
    ensures r.Some? ==> IsWord(r.value.0) && IsWord(r.value.1)
  {
    if !HasPrefix(t, " *") then None
    else
      var n1 := WordRun(t[2..]);
      var u := t[2 + n1..];
      if n1 == 0 || !HasPrefix(u, ") ") then None
      else
        var v := u[2..];
        var n2 := WordRun(v);
        if n2 == 0 || !HasPrefix(v[n2..], "(") || !ClosesOnLine(v[n2 + 1..]) then None
        else Some((t[2..2 + n1], v[..n2]))
  }

  /** The lazy `.*?` after `func (`: the first place on the line where the rest matches. */
  function ReceiverFrom(s: string, p: nat): (r: Option<(string, string)>)
    decreases |s| - p
    ensures r.Some? ==> IsWord(r.value.0) && IsWord(r.value.1)
  {
    if p >= |s| || s[p] == '\n' then None
    else if ReceiverHere(s[p..]).Some? then ReceiverHere(s[p..])
    else ReceiverFrom(s, p + 1)
  }

  function FuncMatchFrom(s: string, k: nat): (r: Option<(string, string)>)
    decreases |s| - k
    ensures r.Some? ==> IsWord(r.value.0) && IsWord(r.value.1)
  {
    if k + |FuncLead| > |s| then None
    else if OccursAt(s, FuncLead, k) && ReceiverFrom(s, k + |FuncLead|).Some? then ReceiverFrom(s, k + |FuncLead|)
    else FuncMatchFrom(s, k + 1)
  }

  /** The pointer-receiver type and method name of a line, from its leftmost `func (… *T) M(…)` match. */
  function FuncLine(s: string): (r: Option<(string, string)>)
    ensures r.Some? ==> IsWord(r.value.0) && IsWord(r.value.1)
  {
    FuncMatchFrom(s, 0)
  }

  lemma {:induction false} ReceiverSkipsWord(s: string, p: nat, e: nat)
    requires p <= e <= |s|
    requires forall j :: p <= j < e ==> IsWordChar(s[j])
    ensures ReceiverFrom(s, p) == ReceiverFrom(s, e)
    decreases e - p
  {
    if p < e {
      NoReceiverHere(s[p..]);
      ReceiverSkipsWord(s, p + 1, e);
    }
  }

  lemma NoReceiverHere(t: string)
    requires |t| > 0 && IsWordChar(t[0])
    ensures ReceiverHere(t) == None
  {
    assert !HasPrefix(t, " *") by {
      if |t| >= 2 {
        assert t[..2][0] == t[0];
      }
    }
  }

  /** The receiver part matches where it is spelled out. */
  lemma ReceiverHereOf(typeName: string, name: string, rest: string)
    requires IsWord(typeName) && IsWord(name) && ClosesOnLine(rest)
    ensures ReceiverHere(" *" + (typeName + (") " + (name + ("(" + rest))))) == Some((typeName, name))
  {
    var v := name + ("(" + rest);
    var u := ") " + v;
    ReceiverTypeAt(typeName, u);
    assert u[..2] == ") " && u[2..] == v;
    MethodNameAt(name, rest);
  }

  /** ` *T` followed by text that starts with `)`: the word run after ` *` is `T`. */
  lemma ReceiverTypeAt(typeName: string, u: string)
    requires IsWord(typeName) && |u| > 0 && u[0] == ')'
    ensures var t := " *" + (typeName + u);
            && HasPrefix(t, " *") && WordRun(t[2..]) == |typeName|
            && t[2..2 + |typeName|] == typeName && t[2 + |typeName|..] == u
  {
    var t := " *" + (typeName + u);
    assert t[..2] == " *";
    assert t[2..] == typeName + u;
    WordRunOf(typeName, u);
    assert t[2..][..|typeName|] == typeName;
  }

  /** `M(` followed by the rest of the line: the word run is `M`, and `(` follows it. */
  lemma MethodNameAt(name: string, rest: string)
    requires IsWord(name)
    ensures var v := name + ("(" + rest);
            && WordRun(v) == |name| && v[..|name|] == name
            && HasPrefix(v[|name|..], "(") && v[|name| + 1..] == rest
  {
    var v := name + ("(" + rest);
    WordRunOf(name, "(" + rest);
    assert v[|name|..] == "(" + rest;
    assert v[|name|..][..1] == "(";
  }

  /** The signature line of a pointer-receiver method yields its receiver type and its name. */
  lemma FuncLineOf(v: string, typeName: string, name: string, rest: string)
    requires forall j :: 0 <= j < |v| ==> IsWordChar(v[j])
    requires IsWord(typeName) && IsWord(name) && ClosesOnLine(rest)
    ensures FuncLine(FuncLead + (v + (" *" + (typeName + (") " + (name + ("(" + rest))))))) == Some((typeName, name))
  {
    var recv := " *" + (typeName + (") " + (name + ("(" + rest))));
    var s := FuncLead + (v + recv);
    var p := 6 + |v|;
    assert s[..6] == FuncLead;
    forall j | 6 <= j < p
      ensures IsWordChar(s[j])
    {
      assert s[j] == v[j - 6];
    }
    ReceiverSkipsWord(s, 6, p);
    assert s[p..] == recv;
    ReceiverHereOf(typeName, name, rest);
    assert s[p] == ' ';
  }

  // ---------------------------------------------------------------------
  // The generated Swagger comment
  // ---------------------------------------------------------------------

  const RouterTag := "// @Router"

  /** The canonical `@Router` line of a route. */
  function RouterLine(info: RouteInfo): string {
    "// @Router       " + info.Path + " [" + ToLower(info.HTTPMethod) + "]"
  }

  /**
   * `HasPrefix(TrimSpace(line), p)`, tested after the leading spaces; for the
   * prefixes used here the two agree (TrimSpaceHasPrefix).
   */
  predicate StartsAfterSpaces(line: string, p: string)
    decreases |line|
  {
    if |line| > 0 && IsSpace(line[0]) then StartsAfterSpaces(line[1..], p) else HasPrefix(line, p)
  }

  /** A comment line: it starts with `//` once trimmed. */
  predicate IsComment(line: string) {
    StartsAfterSpaces(line, "//")
  }

  /** A `@Router` line: it starts with `// @Router` once trimmed. */
  predicate IsRouterTag(line: string) {
    StartsAfterSpaces(line, RouterTag)
  }

  lemma {:induction false} StartsAfterLeftTrim(s: string, p: string)
    ensures StartsAfterSpaces(s, p) == HasPrefix(TrimLeftSpace(s), p)
    decreases |s|
  {
    if |s| > 0 && IsSpace(s[0]) {
      StartsAfterLeftTrim(s[1..], p);
    }
  }

  /** The test after the leading spaces is the source's test on the trimmed line. */
  lemma TrimSpaceHasPrefix(s: string, p: string)
    requires |p| > 0 && !IsSpace(p[0]) && !IsSpace(p[|p| - 1])
    ensures StartsAfterSpaces(s, p) <==> HasPrefix(TrimSpace(s), p)
  {
    StartsAfterLeftTrim(s, p);
    TrimRightPrefix(TrimLeftSpace(s), p);
  }

  /** The six fixed lines of the generated comment. */
  const Annotation := "// @"
  const AcceptLine := Annotation + "Accept" + "       json"
  const ProduceLine := Annotation + "Produce" + "      json"
  const ParamLine := Annotation + "Param" + "        id   path      int  true  \"Some ID\""
  const SuccessLine := Annotation + "Success" + "      200  {object}  map[string]interface{}"
  const BadRequestLine := Annotation + "Failure" + "      400  {object}  map[string]interface{}"
  const ServerErrorLine := Annotation + "Failure" + "      500  {object}  map[string]interface{}"
  const FixedLines := [AcceptLine, ProduceLine, ParamLine, SuccessLine, BadRequestLine, ServerErrorLine]

  /** The four lines naming the method, its summary and its tag. */
  function HeadLines(info: RouteInfo): (r: seq<string>)
    ensures |r| == 4
  {
    var summary := CamelCaseToWordsSpec(info.Function);
    ["// " + info.Function,
     "// @Summary      " + summary,
     "// @Description  " + summary,
     "// @Tags         " + TrimSuffix(info.Handler, "Handler")]
  }

  /** generateDefaultSwaggerComments */
  function SwaggerComments(info: RouteInfo): (r: seq<string>)
    ensures |r| == 11 && r[10] == RouterLine(info)
  {
    HeadLines(info) + FixedLines + [RouterLine(info)]
  }

  /** A line starting `// @X` with `X` not `R` is a comment but not a `@Router` line. */
  lemma TagLine(line: string, head: string)
    requires HasPrefix(line, head) && |head| == 5 && head[..4] == "// @" && head[4] != 'R'
    ensures IsComment(line) && !IsRouterTag(line)
  {
    assert line[..2] == head[..2];
    assert line[4] == head[4] && RouterTag[4] == 'R';
  }

  /** `// @<tag><rest>` is a comment, and not a `@Router` line unless the tag starts with `R`. */
  lemma AnnotationLine(tag: string, rest: string)
    requires |tag| > 0 && tag[0] != 'R'
    ensures IsComment(Annotation + tag + rest) && !IsRouterTag(Annotation + tag + rest)
  {
    var line := Annotation + tag + rest;
    assert line[..2] == "//";
    assert line[4] == tag[0] && RouterTag[4] == 'R';
  }

  /** The first line, `// <method>`, is a comment but not a `@Router` line. */
  lemma NameLine(name: string)
    requires IsWord(name)
    ensures IsComment("// " + name) && !IsRouterTag("// " + name)
  {
    var line := "// " + name;
    assert line[..2] == "//";
    assert line[3] == name[0] && RouterTag[3] == '@';
  }

  /** The canonical `@Router` line is one. */
  lemma RouterLineIsTag(info: RouteInfo)
    ensures IsComment(RouterLine(info)) && IsRouterTag(RouterLine(info))
  {
    var line := RouterLine(info);
    assert line[..10] == RouterTag;
    assert line[..2] == "//";
  }

  /** A comment block whose only `@Router` line is its last, the canonical one. */
  predicate SettledBlock(b: seq<string>, info: RouteInfo) {
    && |b| > 0
    && (forall k :: 0 <= k < |b| ==> IsComment(b[k]))
    && (forall k :: 0 <= k < |b| - 1 ==> !IsRouterTag(b[k]))
    && b[|b| - 1] == RouterLine(info)
  }

  /** Every line of a block is a comment and none is a `@Router` line. */
  predicate PlainComments(b: seq<string>) {
    forall k :: 0 <= k < |b| ==> IsComment(b[k]) && !IsRouterTag(b[k])
  }

  lemma FixedLinesPlain()
    ensures PlainComments(FixedLines)
  {
    AnnotationLine("Accept", "       json");
    AnnotationLine("Produce", "      json");
    AnnotationLine("Param", "        id   path      int  true  \"Some ID\"");
    AnnotationLine("Success", "      200  {object}  map[string]interface{}");
    AnnotationLine("Failure", "      400  {object}  map[string]interface{}");
    AnnotationLine("Failure", "      500  {object}  map[string]interface{}");
  }

  lemma HeadLinesPlain(info: RouteInfo)
    requires IsWord(info.Function)
    ensures PlainComments(HeadLines(info))
  {
    var h := HeadLines(info);
    NameLine(info.Function);
    assert h[1][..5] == "// @S";
    TagLine(h[1], "// @S");
    assert h[2][..5] == "// @D";
    TagLine(h[2], "// @D");
    assert h[3][..5] == "// @T";
    TagLine(h[3], "// @T");
  }

  /** The generated block is such a block. */
  lemma SwaggerCommentsShape(info: RouteInfo)
    requires IsWord(info.Function)
    ensures SettledBlock(SwaggerComments(info), info)
  {
    var b := SwaggerComments(info);
    HeadLinesPlain(info);
    FixedLinesPlain();
    RouterLineIsTag(info);
    var plain := HeadLines(info) + FixedLines;
    assert b == plain + [RouterLine(info)];
    assert PlainComments(plain) by {
      forall k | 0 <= k < |plain|
        ensures IsComment(plain[k]) && !IsRouterTag(plain[k])
      {
        if k < 4 {
          assert plain[k] == HeadLines(info)[k];
        } else {
          assert plain[k] == FixedLines[k - 4];
        }
      }
    }
    forall k | 0 <= k < |b|
      ensures IsComment(b[k])
    {
      if k < 10 {
        assert b[k] == plain[k];
      }
    }
    forall k | 0 <= k < |b| - 1
      ensures !IsRouterTag(b[k])
    {
      assert b[k] == plain[k];
    }
  }

  // ---------------------------------------------------------------------
  // camelCaseToWords
  // ---------------------------------------------------------------------

  /** The text before title-casing: a space in front of every upper-case letter but the first character. */
  function Spaced(s: string): (r: string)
    decreases |s|
  {
    if |s| == 0 then ""
    else
      var c := s[|s| - 1];
      Spaced(s[..|s| - 1]) + (if |s| > 1 && IsUpper(c) then [' ', c] else [c])
  }

  function CamelCaseToWordsSpec(s: string): string {
    Title(Spaced(s))
  }

  /** The characters other than spaces. */
  function Unspaced(s: string): (r: string)
    decreases |s|
  {
    if |s| == 0 then "" else Unspaced(s[..|s| - 1]) + (if s[|s| - 1] == ' ' then "" else [s[|s| - 1]])
  }

  lemma {:induction false} UnspacedAppend(a: string, b: string)
    ensures Unspaced(a + b) == Unspaced(a) + Unspaced(b)
    decreases |b|
  {
    if |b| == 0 {
      assert a + b == a;
    } else {
      assert (a + b)[..|a + b| - 1] == a + b[..|b| - 1];
      UnspacedAppend(a, b[..|b| - 1]);
    }
  }

  /** Only spaces are inserted. */
  lemma {:induction false} SpacedOnlyAddsSpaces(s: string)
    ensures Unspaced(Spaced(s)) == Unspaced(s)
    decreases |s|
  {
    if |s| > 0 {
      var c := s[|s| - 1];
      SpacedOnlyAddsSpaces(s[..|s| - 1]);
      var tail: string := if |s| > 1 && IsUpper(c) then [' ', c] else [c];
      UnspacedAppend(Spaced(s[..|s| - 1]), tail);
      assert s == s[..|s| - 1] + [c];
      UnspacedAppend(s[..|s| - 1], [c]);
      assert Unspaced(tail) == Unspaced([c]) by {
        if |tail| == 2 {
          assert tail[..1] == [' '];
          assert [' '][..0] == [];
        }
        assert [c][..0] == [];
      }
      assert [c][..0] == [];
    }
  }

  /** After the first character, every upper-case letter follows a space, so it starts a word. */
  lemma {:induction false} SpacedBreaksWords(s: string)
    ensures forall k :: 0 < k < |Spaced(s)| && IsUpper(Spaced(s)[k]) ==> Spaced(s)[k - 1] == ' '
    ensures |s| > 0 ==> |Spaced(s)| > 0 && Spaced(s)[0] == s[0]
    decreases |s|
  {
    if |s| > 0 {
      var init := s[..|s| - 1];
      SpacedBreaksWords(init);
      if |s| == 1 {
        assert Spaced(init) == "";
      } else {
        assert init[0] == s[0];
      }
    }
  }

  /** camelCaseToWords, the rune loop followed by title-casing. */
  method CamelCaseToWords(s: string) returns (r: string)
    ensures r == CamelCaseToWordsSpec(s)
  {
    if |s| == 0 {
      return "";
    }
    var result := "";
    var i := 0;
    while i < |s|
      invariant i <= |s|
      invariant result == Spaced(s[..i])
    {
      assert s[..i + 1][..i] == s[..i];
      if IsUpper(s[i]) {
        if i > 0 {
          result := result + [' '];
        }
        result := result + [s[i]];
      } else {
        result := result + [s[i]];
      }
      i := i + 1;
    }
    assert s[..i] == s;
    r := Title(result);
  }

  lemma CamelCaseExamples()
    ensures CamelCaseToWordsSpec("getAll") == "Get All"
    ensures CamelCaseToWordsSpec("") == ""
  {
    assert "getAll"[..5] == "getAl";
    assert "getAl"[..4] == "getA";
    assert "getA"[..3] == "get";
    assert "get"[..2] == "ge";
    assert "ge"[..1] == "g";
    assert "g"[..0] == "";
    assert Spaced("getAll") == "get All";
  }

  // ---------------------------------------------------------------------
  // updateHandlerFile
  // ---------------------------------------------------------------------

  /** The first line of the comment block directly above line `i`; `i` itself when there is none. */
  function CommentStart(lines: seq<string>, i: nat): (start: nat)
    requires i <= |lines|
    ensures start <= i
    ensures forall j :: start <= j < i ==> IsComment(lines[j])
    ensures start > 0 ==> !IsComment(lines[start - 1])
    decreases i
  {
    if i == 0 || !IsComment(lines[i - 1]) then i else CommentStart(lines, i - 1)
  }

  /** The first `@Router` line in `lines[j..end]`. */
  function RouterTagFrom(lines: seq<string>, j: nat, end: nat): (r: Option<nat>)
    requires j <= end <= |lines|
    ensures r.Some? ==> j <= r.value < end && IsRouterTag(lines[r.value])
    ensures r.Some? ==> forall m :: j <= m < r.value ==> !IsRouterTag(lines[m])
    ensures r.None? ==> forall m :: j <= m < end ==> !IsRouterTag(lines[m])
    decreases end - j
  {
    if j == end then None
    else if IsRouterTag(lines[j]) then Some(j)
    else RouterTagFrom(lines, j + 1, end)
  }

  /** The route of the handler method a line declares, if one is registered. */
  function RouteOfLine(line: string, routes: map<string, RouteInfo>): Option<RouteInfo> {
    match FuncLine(line)
    case None => None
    case Some(m) => if RouteKey(m.0, m.1) in routes then Some(routes[RouteKey(m.0, m.1)]) else None
  }

  /** updateHandlerFile's state: the lines edited in place, the lines with generated blocks, the changed flag. */
  datatype Pass = Pass(lines: seq<string>, newLines: seq<string>, changed: bool)

  /** The block generated in front of line `i`: a method with a route and no comment above it gets one. */
  function BlockAt(lines: seq<string>, i: nat, routes: map<string, RouteInfo>): seq<string>
    requires i < |lines|
  {
    match RouteOfLine(lines[i], routes)
    case Some(info) => if CommentStart(lines, i) == i then SwaggerComments(info) else []
    case None => []
  }

  /**
   * The in-place edit of an existing comment block above line `i`: the
   * first `@Router` line is set to the canonical one when it differs, and
   * a block without one gets it added to its last line.
   */
  function EditBlock(lines: seq<string>, i: nat, info: RouteInfo): (r: (seq<string>, bool))
    requires i <= |lines| && CommentStart(lines, i) < i
    ensures |r.0| == |lines|
    ensures forall k :: i <= k < |lines| ==> r.0[k] == lines[k]
    ensures !r.1 ==> r.0 == lines
  {
    match RouterTagFrom(lines, CommentStart(lines, i), i)
    case Some(j) => if lines[j] != RouterLine(info) then (lines[j := RouterLine(info)], true) else (lines, false)
    case None => (lines[i - 1 := lines[i - 1] + "\n" + RouterLine(info)], true)
  }

  /** One turn of the loop over the lines. */
  function Step(p: Pass, i: nat, routes: map<string, RouteInfo>): (r: Pass)
    requires i < |p.lines|
    ensures |r.lines| == |p.lines|
    ensures forall k :: i <= k < |p.lines| ==> r.lines[k] == p.lines[k]
    ensures r.newLines == p.newLines + BlockAt(p.lines, i, routes) + [p.lines[i]]
    ensures p.changed ==> r.changed
  {
    var line := p.lines[i];
    match RouteOfLine(line, routes)
    case None => Pass(p.lines, p.newLines + [line], p.changed)
    case Some(info) =>
      if CommentStart(p.lines, i) == i then Pass(p.lines, p.newLines + SwaggerComments(info) + [line], true)
      else
        var edit := EditBlock(p.lines, i, info);
        assert BlockAt(p.lines, i, routes) == [];
        Pass(edit.0, p.newLines + [line], p.changed || edit.1)
  }

  /** The state after the first `n` turns. */
  function PassUpTo(lines0: seq<string>, routes: map<string, RouteInfo>, n: nat): (r: Pass)
    requires n <= |lines0|
    ensures |r.lines| == |lines0|
    ensures forall k :: n <= k < |lines0| ==> r.lines[k] == lines0[k]
    decreases n
  {
    if n == 0 then Pass(lines0, [], false)
    else Step(PassUpTo(lines0, routes, n - 1), n - 1, routes)
  }

  /** The blocks generated in front of each of the first `n` lines. */
  function Blocks(lines0: seq<string>, routes: map<string, RouteInfo>, n: nat): (r: seq<seq<string>>)
    requires n <= |lines0|
    ensures |r| == n
    decreases n
  {
    if n == 0 then []
    else Blocks(lines0, routes, n - 1) + [BlockAt(PassUpTo(lines0, routes, n - 1).lines, n - 1, routes)]
  }

  /** Each line preceded by its block. */
  function Interleave(blocks: seq<seq<string>>, ls: seq<string>): seq<string>
    requires |blocks| == |ls|
    decreases |ls|
  {
    if |ls| == 0 then []
    else Interleave(blocks[..|ls| - 1], ls[..|ls| - 1]) + blocks[|ls| - 1] + [ls[|ls| - 1]]
  }

  function TotalLength(blocks: seq<seq<string>>): nat
    decreases |blocks|
  {
    if |blocks| == 0 then 0 else TotalLength(blocks[..|blocks| - 1]) + |blocks[|blocks| - 1]|
  }

  /** Where line `k` ends up once the blocks are interleaved. */
  function Position(blocks: seq<seq<string>>, k: nat): nat
    requires k < |blocks|
  {
    TotalLength(blocks[..k + 1]) + k
  }

  lemma {:induction false} InterleaveLength(blocks: seq<seq<string>>, ls: seq<string>)
    requires |blocks| == |ls|
    ensures |Interleave(blocks, ls)| == |ls| + TotalLength(blocks)
    decreases |ls|
  {
    if |ls| > 0 {
      InterleaveLength(blocks[..|ls| - 1], ls[..|ls| - 1]);
    }
  }

  /** Interleaving empty blocks gives the lines back. */
  lemma {:induction false} InterleaveEmpty(blocks: seq<seq<string>>, ls: seq<string>)
    requires |blocks| == |ls| && TotalLength(blocks) == 0
    ensures Interleave(blocks, ls) == ls
    decreases |ls|
  {
    if |ls| > 0 {
      InterleaveEmpty(blocks[..|ls| - 1], ls[..|ls| - 1]);
    }
  }

  /** Line `k` is at its position, directly below its block. */
  lemma {:induction false} InterleaveAt(blocks: seq<seq<string>>, ls: seq<string>, k: nat)
    requires |blocks| == |ls| && k < |ls|
    ensures |blocks[k]| <= Position(blocks, k) < |Interleave(blocks, ls)|
    ensures Interleave(blocks, ls)[Position(blocks, k)] == ls[k]
    ensures Interleave(blocks, ls)[Position(blocks, k) - |blocks[k]|..Position(blocks, k)] == blocks[k]
    decreases |ls|
  {
    var n := |ls| - 1;
    var b' := blocks[..n];
    var l' := ls[..n];
    InterleaveLength(b', l');
    if k == n {
      assert blocks[..k + 1] == blocks;
      assert blocks[..k + 1][..k] == b';
    } else {
      InterleaveAt(b', l', k);
      assert b'[..k + 1] == blocks[..k + 1];
      assert Position(b', k) == Position(blocks, k);
      InterleaveLength(b', l');
      PrefixTotal(blocks, k + 1);
      assert Position(blocks, k) < |Interleave(b', l')|;
    }
  }

  lemma {:induction false} PrefixTotal(blocks: seq<seq<string>>, m: nat)
    requires m <= |blocks|
    ensures TotalLength(blocks[..m]) <= TotalLength(blocks)
    decreases |blocks|
  {
    if m < |blocks| {
      assert blocks[..m] == blocks[..|blocks| - 1][..m];
      PrefixTotal(blocks[..|blocks| - 1], m);
    } else {
      assert blocks[..m] == blocks;
    }
  }

  /** The line-with-blocks list is always the ORIGINAL lines, each preceded by its generated block. */
  lemma {:induction false} NewLinesInterleave(lines0: seq<string>, routes: map<string, RouteInfo>, n: nat)
    requires n <= |lines0|
    ensures PassUpTo(lines0, routes, n).newLines == Interleave(Blocks(lines0, routes, n), lines0[..n])
    decreases n
  {
    if n > 0 {
      NewLinesInterleave(lines0, routes, n - 1);
      var block := PassUpToNewLines(lines0, routes, n);
      InterleavePrefixSnoc(Blocks(lines0, routes, n - 1), lines0, n, block);
    }
  }

  /** Interleaving one more line of `ls` appends that line after its block. */
  lemma InterleavePrefixSnoc(blocks: seq<seq<string>>, ls: seq<string>, n: nat, block: seq<string>)
    requires 0 < n <= |ls| && |blocks| == n - 1
    ensures Interleave(blocks + [block], ls[..n]) == Interleave(blocks, ls[..n - 1]) + block + [ls[n - 1]]
  {
    assert ls[..n] == ls[..n - 1] + [ls[n - 1]];
    InterleaveSnoc(blocks, ls[..n - 1], block, ls[n - 1]);
  }

  /** Turn `n` appends line `n - 1` of the original, after its block. */
  lemma PassUpToNewLines(lines0: seq<string>, routes: map<string, RouteInfo>, n: nat) returns (block: seq<string>)
    requires 0 < n <= |lines0|
    ensures Blocks(lines0, routes, n) == Blocks(lines0, routes, n - 1) + [block]
    ensures PassUpTo(lines0, routes, n).newLines == PassUpTo(lines0, routes, n - 1).newLines + block + [lines0[n - 1]]
  {
    var prev := PassUpTo(lines0, routes, n - 1);
    block := BlockAt(prev.lines, n - 1, routes);
    assert prev.lines[n - 1] == lines0[n - 1];
  }

  lemma InterleaveSnoc(blocks: seq<seq<string>>, ls: seq<string>, block: seq<string>, line: string)
    requires |blocks| == |ls|
    ensures Interleave(blocks + [block], ls + [line]) == Interleave(blocks, ls) + block + [line]
  {
    assert (blocks + [block])[..|ls|] == blocks;
    assert (ls + [line])[..|ls|] == ls;
  }

  /** The lines updateHandlerFile writes, or `None` when nothing changed. */
  function UpdateLines(lines0: seq<string>, routes: map<string, RouteInfo>): (r: Option<seq<string>>)
    ensures r.None? <==> !PassUpTo(lines0, routes, |lines0|).changed
  {
    var p := PassUpTo(lines0, routes, |lines0|);
    if !p.changed then None
    else if |p.newLines| == |p.lines| then Some(p.lines)
    else Some(p.newLines)
  }

  /** A file with no registered method is not written. */
  lemma {:induction false} NoRouteNoChange(lines0: seq<string>, routes: map<string, RouteInfo>, n: nat)
    requires n <= |lines0|
    requires forall k :: 0 <= k < |lines0| ==> RouteOfLine(lines0[k], routes).None?
    ensures PassUpTo(lines0, routes, n) == Pass(lines0, lines0[..n], false)
    decreases n
  {
    if n > 0 {
      NoRouteNoChange(lines0, routes, n - 1);
      assert lines0[..n - 1] + [lines0[n - 1]] == lines0[..n];
    }
  }

  lemma NoRouteNotWritten(lines0: seq<string>, routes: map<string, RouteInfo>)
    requires forall k :: 0 <= k < |lines0| ==> RouteOfLine(lines0[k], routes).None?
    ensures UpdateLines(lines0, routes) == None
  {
    NoRouteNoChange(lines0, routes, |lines0|);
  }

  /** Without a generated block the written lines are the lines edited in place. */
  lemma UpdateWithoutBlocks(lines0: seq<string>, routes: map<string, RouteInfo>)
    requires TotalLength(Blocks(lines0, routes, |lines0|)) == 0
    requires PassUpTo(lines0, routes, |lines0|).changed
    ensures UpdateLines(lines0, routes) == Some(PassUpTo(lines0, routes, |lines0|).lines)
  {
    NewLinesInterleave(lines0, routes, |lines0|);
    InterleaveLength(Blocks(lines0, routes, |lines0|), lines0[..|lines0|]);
  }

  /**
   * With a generated block the written lines are the original lines with
   * the blocks interleaved: every in-place `@Router` edit of the same pass
   * is dropped (line `k` is written as it was read).
   */
  lemma UpdateDropsEdits(lines0: seq<string>, routes: map<string, RouteInfo>, k: nat)
    requires TotalLength(Blocks(lines0, routes, |lines0|)) > 0
    requires PassUpTo(lines0, routes, |lines0|).changed
    requires k < |lines0|
    ensures var b := Blocks(lines0, routes, |lines0|);
            && UpdateLines(lines0, routes) == Some(Interleave(b, lines0))
            && Position(b, k) < |Interleave(b, lines0)|
            && Interleave(b, lines0)[Position(b, k)] == lines0[k]
  {
    var b := Blocks(lines0, routes, |lines0|);
    assert lines0[..|lines0|] == lines0;
    NewLinesInterleave(lines0, routes, |lines0|);
    InterleaveLength(b, lines0);
    InterleaveAt(b, lines0, k);
  }

  /** Corrected version: the edited lines, each preceded by its generated block. */
  function UpdateLinesFixed(lines0: seq<string>, routes: map<string, RouteInfo>): (r: Option<seq<string>>)
    ensures r.None? <==> !PassUpTo(lines0, routes, |lines0|).changed
  {
    var p := PassUpTo(lines0, routes, |lines0|);
    if !p.changed then None else Some(Interleave(Blocks(lines0, routes, |lines0|), p.lines))
  }

  /** The corrected version keeps every edit, each directly below its generated block. */
  lemma UpdateFixedKeepsEdits(lines0: seq<string>, routes: map<string, RouteInfo>, k: nat)
    requires PassUpTo(lines0, routes, |lines0|).changed
    requires k < |lines0|
    ensures var b := Blocks(lines0, routes, |lines0|);
            var p := PassUpTo(lines0, routes, |lines0|);
            var out := UpdateLinesFixed(lines0, routes).value;
            && Position(b, k) < |out|
            && out[Position(b, k)] == p.lines[k]
            && out[Position(b, k) - |b[k]|..Position(b, k)] == b[k]
  {
    var b := Blocks(lines0, routes, |lines0|);
    var p := PassUpTo(lines0, routes, |lines0|);
    assert UpdateLinesFixed(lines0, routes) == Some(Interleave(b, p.lines));
    InterleaveAt(b, p.lines, k);
  }

  /** Without a generated block the corrected version agrees with the original. */
  lemma UpdateFixedAgrees(lines0: seq<string>, routes: map<string, RouteInfo>)
    requires TotalLength(Blocks(lines0, routes, |lines0|)) == 0
    ensures UpdateLinesFixed(lines0, routes) == UpdateLines(lines0, routes)
  {
    if PassUpTo(lines0, routes, |lines0|).changed {
      InterleaveEmpty(Blocks(lines0, routes, |lines0|), PassUpTo(lines0, routes, |lines0|).lines);
      UpdateWithoutBlocks(lines0, routes);
    }
  }

  /**
   * A method whose generated block is already in place above it, with no
   * other comment line above the block, is left alone by a later pass.
   */
  lemma GeneratedBlockSettles(lines: seq<string>, i: nat, info: RouteInfo)
    requires 11 <= i < |lines| && IsWord(info.Function)
    requires lines[i - 11..i] == SwaggerComments(info)
    requires i == 11 || !IsComment(lines[i - 12])
    ensures CommentStart(lines, i) == i - 11
    ensures EditBlock(lines, i, info) == (lines, false)
  {
    SwaggerCommentsShape(info);
    BlockSettles(lines, i, SwaggerComments(info), info);
  }

  lemma BlockSettles(lines: seq<string>, i: nat, b: seq<string>, info: RouteInfo)
    requires |b| <= i < |lines| && SettledBlock(b, info)
    requires lines[i - |b|..i] == b
    requires i == |b| || !IsComment(lines[i - |b| - 1])
    ensures CommentStart(lines, i) == i - |b|
    ensures EditBlock(lines, i, info) == (lines, false)
  {
    BlockCommentStart(lines, i, b);
    BlockRouterTag(lines, i, b, info);
    CanonicalTagKept(lines, i, i - |b|, info);
  }

  /** When the first `@Router` line of the comment block is already the canonical one, nothing is edited. */
  lemma CanonicalTagKept(lines: seq<string>, i: nat, start: nat, info: RouteInfo)
    requires start < i <= |lines| && CommentStart(lines, i) == start
    requires RouterTagFrom(lines, start, i) == Some(i - 1)
    requires lines[i - 1] == RouterLine(info)
    ensures EditBlock(lines, i, info) == (lines, false)
  {
  }

  /** A run of comment lines right above line `i`, after a non-comment, is the comment block of `i`. */
  lemma BlockCommentStart(lines: seq<string>, i: nat, b: seq<string>)
    requires |b| <= i <= |lines| && lines[i - |b|..i] == b
    requires forall k :: 0 <= k < |b| ==> IsComment(b[k])
    requires i == |b| || !IsComment(lines[i - |b| - 1])
    ensures CommentStart(lines, i) == i - |b|
  {
    var start := i - |b|;
    forall k | start <= k < i
      ensures IsComment(lines[k])
    {
      assert lines[start..i][k - start] == lines[k];
    }
    CommentRun(lines, start, i);
  }

  /** The first `@Router` line of a settled block placed at `lines[i - |b|..i]` is its last line. */
  lemma BlockRouterTag(lines: seq<string>, i: nat, b: seq<string>, info: RouteInfo)
    requires |b| <= i <= |lines| && lines[i - |b|..i] == b
    requires SettledBlock(b, info)
    ensures lines[i - 1] == RouterLine(info)
    ensures RouterTagFrom(lines, i - |b|, i) == Some(i - 1)
  {
    var start := i - |b|;
    assert lines[start..i][|b| - 1] == lines[i - 1];
    forall k | start <= k < i - 1
      ensures !IsRouterTag(lines[k])
    {
      assert lines[start..i][k - start] == lines[k];
    }
    RouterLineIsTag(info);
    RouterTagSkips(lines, start, i - 1, i);
  }

  lemma {:induction false} CommentRun(lines: seq<string>, start: nat, i: nat)
    requires start <= i <= |lines|
    requires forall k :: start <= k < i ==> IsComment(lines[k])
    requires start == 0 || !IsComment(lines[start - 1])
    ensures CommentStart(lines, i) == start
    decreases i
  {
    if i > start {
      CommentRun(lines, start, i - 1);
    }
  }

  lemma {:induction false} RouterTagSkips(lines: seq<string>, j: nat, t: nat, end: nat)
    requires j <= t < end <= |lines|
    requires forall m :: j <= m < t ==> !IsRouterTag(lines[m])
    requires IsRouterTag(lines[t])
    ensures RouterTagFrom(lines, j, end) == Some(t)
    decreases t - j
  {
    if j < t {
      RouterTagSkips(lines, j + 1, t, end);
    }
  }

  /** updateHandlerFile over the working tree: the file's lines are rewritten, joined by "\n", only when something changed. */
  function UpdateHandlerSpec(d: Disk, path: string, routes: map<string, RouteInfo>): (r: (Disk, Option<SyncError>))
    ensures !d.Read(path).Content? ==> r == (d, Some(HandlerUnreadable(path)))
    ensures r.1.None? && r.0 != d ==> d.Read(path).Content? && UpdateLines(ScanLines(d.Read(path).text), routes).Some?
    ensures d.Read(path).Content? && UpdateLines(ScanLines(d.Read(path).text), routes).None? ==> r == (d, None)
    ensures d.Read(path).Content? && UpdateLines(ScanLines(d.Read(path).text), routes).Some?
            ==> r == (d.Write(path, Join(UpdateLines(ScanLines(d.Read(path).text), routes).value, "\n")), None)
  {
    match d.Read(path)
    case Content(text) =>
      (match UpdateLines(ScanLines(text), routes)
       case None => (d, None)
       case Some(out) => (d.Write(path, Join(out, "\n")), None))
    case _ => (d, Some(HandlerUnreadable(path)))
  }

  /** The backwards search for the start of the comment block above line `i` (-1 when `i` is the first line). */
  method FindCommentStart(lines: seq<string>, i: nat) returns (start: int)
    requires i <= |lines|
    ensures start == if i == 0 then -1 else CommentStart(lines, i)
  {
    start := -1;
    var j := i - 1;
    while j >= 0
      invariant -1 <= j < i
      invariant j >= 0 || i == 0
      invariant CommentStart(lines, i) == CommentStart(lines, j + 1)
      invariant start == -1
    {
      if !IsComment(lines[j]) {
        start := j + 1;
        return;
      }
      if j == 0 {
        start := 0;
        return;
      }
      j := j - 1;
    }
  }

  /** The forward search for the first `@Router` line of the block. */
  method FindRouterTag(lines: seq<string>, start: nat, end: nat) returns (found: Option<nat>)
    requires start <= end <= |lines|
    ensures found == RouterTagFrom(lines, start, end)
  {
    var j := start;
    while j < end
      invariant start <= j <= end
      invariant RouterTagFrom(lines, start, end) == RouterTagFrom(lines, j, end)
    {
      if IsRouterTag(lines[j]) {
        return Some(j);
      }
      j := j + 1;
    }
    return None;
  }

  /** One turn of updateHandlerFile's loop, at line `i`. */
  method VisitLine(lines: seq<string>, newLines: seq<string>, changed: bool, i: nat, routes: map<string, RouteInfo>)
    returns (lines': seq<string>, newLines': seq<string>, changed': bool)
    requires i < |lines|
    ensures Pass(lines', newLines', changed') == Step(Pass(lines, newLines, changed), i, routes)
  {
    lines', newLines', changed' := lines, newLines, changed;
    var line := lines[i];
    var route := RouteOfLine(line, routes);
    if route.Some? {
      var info := route.value;
      var start := FindCommentStart(lines, i);
      if start == -1 || start > i - 1 {
        newLines' := newLines' + SwaggerComments(info);
        changed' := true;
      } else {
        var tag := FindRouterTag(lines, start, i);
        if tag.Some? {
          var newRouterLine := RouterLine(info);
          if lines[tag.value] != newRouterLine {
            lines' := lines[tag.value := newRouterLine];
            changed' := true;
          }
        } else {
          lines' := lines[i - 1 := lines[i - 1] + "\n" + RouterLine(info)];
          changed' := true;
        }
      }
    }
    newLines' := newLines' + [line];
  }

  /** The loop of updateHandlerFile over every line of the file. */
  method RunPass(lines0: seq<string>, routes: map<string, RouteInfo>) returns (lines: seq<string>, newLines: seq<string>, changed: bool)
    ensures Pass(lines, newLines, changed) == PassUpTo(lines0, routes, |lines0|)
  {
    lines := lines0;
    newLines := [];
    changed := false;
    var i := 0;
    while i < |lines|
      invariant |lines| == |lines0| && i <= |lines|
      invariant Pass(lines, newLines, changed) == PassUpTo(lines0, routes, i)
    {
      lines, newLines, changed := VisitLine(lines, newLines, changed, i, routes);
      i := i + 1;
    }
  }

  /** updateHandlerFile: the pass over the lines, then the write. */
  method UpdateHandlerFile(tree: Tree, path: string, routes: map<string, RouteInfo>) returns (err: Option<SyncError>)
    modifies tree
    ensures (tree.State(), err) == UpdateHandlerSpec(old(tree.State()), path, routes)
  {
    ghost var d := tree.State();
    var read := tree.Read(path);
    if !read.Content? {
      assert UpdateHandlerSpec(d, path, routes) == (d, Some(HandlerUnreadable(path)));
      return Some(HandlerUnreadable(path));
    }
    assert d.Read(path) == Content(read.text);
    var lines0 := ScanLines(read.text);
    var lines, newLines, changed := RunPass(lines0, routes);
    assert UpdateLines(lines0, routes) == if !changed then None else if |newLines| == |lines| then Some(lines) else Some(newLines);
    if changed {
      if |newLines| == |lines| {
        tree.Write(path, Join(lines, "\n"));
      } else {
        tree.Write(path, Join(newLines, "\n"));
      }
      assert tree.State() == d.Write(path, Join(UpdateLines(lines0, routes).value, "\n"));
    }
    err := None;
  }
}
