/**
 * The small parsers of the API and logic generators: rebuilding an ApiInfo,
 * reading back the commit messages the generators write, extracting the
 * fields of a markdown prompt file, and cutting an LLM reply out of its
 * code fence. The fixed regular expressions of the source are written out
 * as matchers over the text.
 */
module Parsers {
  import opened Wrappers
  import opened Strings
  import opened Common

  datatype ParseError =
    | PatternMissing(lead: string)   // a required pattern does not occur in the markdown
    | MarkerMissing(marker: string)  // a section marker does not occur in the markdown
    | EmptyDescription               // the section between the markers is blank
    | TableUnparsable(path: string)  // the API path has no segment after the table name
    | CommitUnparsable(message: string)

  // ---------------------------------------------------------------------
  // buildApiInfo
  // ---------------------------------------------------------------------

  const ApiPrefix := "/api/v1/"

  /** buildApiInfo: every derived name of a (entity, method, verb, path) request. */
  function BuildApiInfo(entity: string, methodName: string, verb: string, path: string): (r: ApiInfo)
    ensures r.EntityName == entity && r.MethodName == methodName
    ensures r.ApiPath == path && r.FiberApiPath == path
    ensures r.LowerEntityName == LowerCamel(entity) && |r.HttpVerb| == |verb|
    ensures r.TableName == PluralSnakeCase(entity) && HasSuffix(r.TableName, "s")
    ensures r.HttpVerb == ToUpper(verb)
    ensures r.FullApiPath == ApiPrefix + r.TableName + r.FiberApiPath
  {
    var table := PluralSnakeCase(entity);
    ApiInfo(
      EntityName := entity,
      LowerEntityName := LowerCamel(entity),
      TableName := table,
      MethodName := methodName,
      HttpVerb := ToUpper(verb),
      ApiPath := path,
      FiberApiPath := path,
      FullApiPath := ApiPrefix + table + path,
      CapitalizedHttpVerb := Title(ToLower(verb)))
  }

  /**
   * The route path below the table segment of a full API path: the part
   * after the first `/` once the `/api/v1/` prefix is dropped, or None when
   * there is no such `/`.
   */
  function RoutePath(fullPath: string): (r: Option<string>)
    ensures r.Some? ==> HasPrefix(r.value, "/")
  {
    var parts := SplitTwo(TrimPrefix(fullPath, ApiPrefix), "/");
    if |parts| == 2 then Some("/" + parts[1]) else None
  }

  /** The full path buildApiInfo derives gives back the route path it was built from. */
  lemma RoutePathOfFullPath(entity: string, methodName: string, verb: string, path: string)
    requires IsWord(entity) && HasPrefix(path, "/")
    ensures RoutePath(BuildApiInfo(entity, methodName, verb, path).FullApiPath) == Some(path)
  {
    var table := PluralSnakeCase(entity);
    PluralSnakeCaseWord(entity);
    var full := ApiPrefix + table + path;
    assert full == ApiPrefix + (table + path);
    assert TrimPrefix(full, ApiPrefix) == table + path;
    assert table + path == table + ['/'] + path[1..];
    SplitTwoAtChar(table, '/', path[1..]);
    assert "/" + path[1..] == path;
  }

  /** A full path with nothing after the table segment has no route path. */
  lemma RoutePathOfTableOnly(table: string)
    requires Lacks(table, '/')
    ensures RoutePath(ApiPrefix + table) == None
  {
    assert TrimPrefix(ApiPrefix + table, ApiPrefix) == table;
    NotContainsWithoutFirstChar(table, "/");
  }

  // ---------------------------------------------------------------------
  // Commit messages of gen-api
  // ---------------------------------------------------------------------

  const ApiCommitLead := "feat(gen-api): add "

  /** The commit message gen-api writes after a successful run. */
  function ApiCommitMessage(methodName: string, entity: string): string {
    ApiCommitLead + methodName + " to " + entity
  }

  /** The long form the history parser tries first: `feat(gen-api): add M to E (V P)`. */
  function LongApiCommit(methodName: string, entity: string, verb: string, fullPath: string): string {
    ApiCommitLead + (methodName + " to " + (entity + " (" + (verb + " " + (fullPath + ")"))))
  }

  /** The long form written for an ApiInfo. */
  function ApiCommitMessageWithRoute(info: ApiInfo): string {
    LongApiCommit(info.MethodName, info.EntityName, info.HttpVerb, info.FullApiPath)
  }

  /** `(\w+)` followed by `sep`, at the start of `s`: the word and what follows `sep`. */
  function WordThen(s: string, sep: string): (r: Option<(string, string)>)
    ensures r.Some? ==> IsWord(r.value.0) && s == r.value.0 + sep + r.value.1
  {
    var n := WordRun(s);
    if n > 0 && HasPrefix(s[n..], sep) then
      assert s == s[..n] + sep + s[n + |sep|..];
      Some((s[..n], s[n + |sep|..]))
    else None
  }

  lemma WordThenOf(w: string, sep: string, rest: string)
    requires IsWord(w) && |sep| > 0 && !IsWordChar(sep[0])
    ensures WordThen(w + sep + rest, sep) == Some((w, rest))
  {
    var s := w + sep + rest;
    assert s == w + (sep + rest);
    WordRunOf(w, sep + rest);
    assert s[|w|..] == sep + rest;
    assert s[..|w|] == w;
    assert s[|w| + |sep|..] == rest;
  }

  /** The captures of `^feat\(gen-api\): add (\w+) to (\w+) \((\w+) (.*)\)$`. */
  function MatchApiCommit(m: string): (r: Option<(string, string, string, string)>)
    ensures r.Some? ==>
      && IsWord(r.value.0) && IsWord(r.value.1) && IsWord(r.value.2) && Lacks(r.value.3, '\n')
      && m == LongApiCommit(r.value.0, r.value.1, r.value.2, r.value.3)
  {
    if !HasPrefix(m, ApiCommitLead) then None
    else
      var rest := m[|ApiCommitLead|..];
      assert m == ApiCommitLead + rest;
      match WordThen(rest, " to ")
      case None => None
      case Some((methodName, rest1)) =>
        match WordThen(rest1, " (")
        case None => None
        case Some((entity, rest2)) =>
          match WordThen(rest2, " ")
          case None => None
          case Some((verb, rest3)) =>
            if |rest3| > 0 && rest3[|rest3| - 1] == ')' && Lacks(rest3[..|rest3| - 1], '\n') then
              var path := rest3[..|rest3| - 1];
              SplitLast(rest3);
              assert rest2 == verb + " " + (path + ")");
              assert rest1 == entity + " (" + (verb + " " + (path + ")"));
              assert rest == methodName + " to " + (entity + " (" + (verb + " " + (path + ")")));
              Some((methodName, entity, verb, path))
            else None
  }

  /** The captures of `^feat\(gen-api\): add (\w+) to (\w+)$`. */
  function MatchShortApiCommit(m: string): (r: Option<(string, string)>)
    ensures r.Some? ==> IsWord(r.value.0) && IsWord(r.value.1) && m == ApiCommitMessage(r.value.0, r.value.1)
  {
    if !HasPrefix(m, ApiCommitLead) then None
    else
      var rest := m[|ApiCommitLead|..];
      assert m == ApiCommitLead + rest;
      match WordThen(rest, " to ")
      case None => None
      case Some((methodName, entity)) =>
        if IsWord(entity) then Some((methodName, entity)) else None
  }

  /**
   * parseCommitMessage: the long form is tried first; the short form is
   * recovered with POST and the placeholder path.
   */
  function ParseCommitMessage(m: string): (r: Result<ApiInfo, ParseError>)
    ensures r == Failure(CommitUnparsable(m)) <==> MatchApiCommit(m).None? && MatchShortApiCommit(m).None?
    ensures MatchApiCommit(m).Some? ==> (r.Success? <==> RoutePath(MatchApiCommit(m).value.3).Some?)
    ensures r.Success? ==> IsWord(r.value.EntityName) && IsWord(r.value.MethodName)
    ensures r.Success? && MatchApiCommit(m).Some? ==>
              && r.value.MethodName == MatchApiCommit(m).value.0 && r.value.EntityName == MatchApiCommit(m).value.1
              && RoutePath(MatchApiCommit(m).value.3) == Some(r.value.ApiPath)
    ensures r.Success? && MatchApiCommit(m).None? ==> r.value.ApiPath == "/<unknown>"
  {
    match MatchApiCommit(m)
    case Some((methodName, entity, verb, fullPath)) =>
      (match RoutePath(fullPath)
       case None => Failure(TableUnparsable(fullPath))
       case Some(path) => Success(BuildApiInfo(entity, methodName, verb, path)))
    case None =>
      match MatchShortApiCommit(m)
      case None => Failure(CommitUnparsable(m))
      case Some((methodName, entity)) => Success(BuildApiInfo(entity, methodName, "POST", "/<unknown>"))
  }

  /** The message gen-api commits reads back as the same entity and method, with POST and the placeholder path. */
  lemma ApiCommitRoundTrip(methodName: string, entity: string)
    requires IsWord(methodName) && IsWord(entity)
    ensures ParseCommitMessage(ApiCommitMessage(methodName, entity)) == Success(BuildApiInfo(entity, methodName, "POST", "/<unknown>"))
  {
    ShortFormNotLong(methodName, entity);
    ShortFormMatches(methodName, entity);
  }

  /** After the lead, the short form is the method name, " to " and the entity. */
  lemma ShortFormRest(methodName: string, entity: string)
    ensures var m := ApiCommitMessage(methodName, entity);
            HasPrefix(m, ApiCommitLead) && m[|ApiCommitLead|..] == methodName + " to " + entity
  {
    var rest := methodName + " to " + entity;
    assert ApiCommitMessage(methodName, entity) == ApiCommitLead + rest;
  }

  /** The long pattern does not match the short form: nothing follows the entity. */
  lemma ShortFormNotLong(methodName: string, entity: string)
    requires IsWord(methodName) && IsWord(entity)
    ensures MatchApiCommit(ApiCommitMessage(methodName, entity)).None?
  {
    ShortFormRest(methodName, entity);
    WordThenOf(methodName, " to ", entity);
    assert WordThen(entity, " (").None? by {
      WordRunOf(entity, "");
      assert entity + "" == entity;
    }
  }

  /** The short pattern matches the short form with the method name and the entity. */
  lemma ShortFormMatches(methodName: string, entity: string)
    requires IsWord(methodName) && IsWord(entity)
    ensures MatchShortApiCommit(ApiCommitMessage(methodName, entity)) == Some((methodName, entity))
  {
    ShortFormRest(methodName, entity);
    WordThenOf(methodName, " to ", entity);
  }

  /** The long form is matched back into its four captures. */
  lemma MatchLongApiCommit(methodName: string, entity: string, verb: string, fullPath: string)
    requires IsWord(methodName) && IsWord(entity) && IsWord(verb) && Lacks(fullPath, '\n')
    ensures MatchApiCommit(LongApiCommit(methodName, entity, verb, fullPath)) == Some((methodName, entity, verb, fullPath))
  {
    var rest3 := fullPath + ")";
    var rest2 := verb + " " + rest3;
    var rest1 := entity + " (" + rest2;
    var rest := methodName + " to " + rest1;
    var m := LongApiCommit(methodName, entity, verb, fullPath);
    assert HasPrefix(m, ApiCommitLead) && m[|ApiCommitLead|..] == rest by {
      assert m == ApiCommitLead + rest;
    }
    WordThenOf(methodName, " to ", rest1);
    WordThenOf(entity, " (", rest2);
    WordThenOf(verb, " ", rest3);
    assert rest3[..|rest3| - 1] == fullPath && rest3[|rest3| - 1] == ')';
  }

  /** The long form built from an ApiInfo reads back as that ApiInfo. */
  lemma ApiCommitWithRouteRoundTrip(entity: string, methodName: string, verb: string, path: string)
    requires IsWord(entity) && IsWord(methodName) && IsWord(verb)
    requires HasPrefix(path, "/") && Lacks(path, '\n')
    ensures var info := BuildApiInfo(entity, methodName, verb, path);
            ParseCommitMessage(ApiCommitMessageWithRoute(info)) == Success(info)
  {
    var info := BuildApiInfo(entity, methodName, verb, path);
    UpperWord(verb);
    PluralSnakeCaseWord(entity);
    FullPathOneLine(info.TableName, path);
    MatchLongApiCommit(methodName, entity, ToUpper(verb), info.FullApiPath);
    RoutePathOfFullPath(entity, methodName, verb, path);
    ToUpperIdempotent(verb);
    ToLowerToUpper(verb);
  }

  /** A full API path built from a word table and a one-line route path is one line. */
  lemma FullPathOneLine(table: string, path: string)
    requires IsWord(table) && Lacks(path, '\n')
    ensures Lacks(ApiPrefix + table + path, '\n')
  {
    var full := ApiPrefix + table + path;
    forall i | 0 <= i < |full|
      ensures full[i] != '\n'
    {
      if i < |ApiPrefix| {
        assert full[i] == ApiPrefix[i];
      } else if i < |ApiPrefix| + |table| {
        assert full[i] == table[i - |ApiPrefix|];
      } else {
        assert full[i] == path[i - |ApiPrefix| - |table|];
      }
    }
  }

  /** A long-form message whose path stops at the table segment is refused. */
  lemma ApiCommitWithoutRoute(methodName: string, entity: string, verb: string, table: string)
    requires IsWord(methodName) && IsWord(entity) && IsWord(verb)
    requires Lacks(table, '/') && Lacks(table, '\n')
    ensures ParseCommitMessage(LongApiCommit(methodName, entity, verb, ApiPrefix + table))
              == Failure(TableUnparsable(ApiPrefix + table))
  {
    assert Lacks(ApiPrefix + table, '\n');
    MatchLongApiCommit(methodName, entity, verb, ApiPrefix + table);
    RoutePathOfTableOnly(table);
  }

  // ---------------------------------------------------------------------
  // Commit messages of gen-logic
  // ---------------------------------------------------------------------

  const LogicCommitLead := "feat(gen-logic): enhance "

  /** The commit message gen-logic writes after a successful run. */
  function LogicCommitMessage(methodName: string, entity: string): string {
    LogicCommitLead + (methodName + " in " + (entity + " handler"))
  }

  /** parseLogicCommitMessage: `^feat\(gen-logic\): enhance (\w+) in (\w+) handler$`, as (entity, method). */
  function ParseLogicCommitMessage(m: string): (r: Result<(string, string), ParseError>)
    ensures r.Success? ==> IsWord(r.value.0) && IsWord(r.value.1) && m == LogicCommitMessage(r.value.1, r.value.0)
  {
    if !HasPrefix(m, LogicCommitLead) then Failure(CommitUnparsable(m))
    else
      var rest := m[|LogicCommitLead|..];
      assert m == LogicCommitLead + rest;
      match WordThen(rest, " in ")
      case None => Failure(CommitUnparsable(m))
      case Some((methodName, rest1)) =>
        match WordThen(rest1, " handler")
        case None => Failure(CommitUnparsable(m))
        case Some((entity, tail)) =>
          if tail == "" then
            assert rest1 == entity + " handler";
            assert rest == methodName + " in " + rest1;
            Success((entity, methodName))
          else Failure(CommitUnparsable(m))
  }

  /** The message gen-logic commits reads back as its entity and method. */
  lemma LogicCommitRoundTrip(methodName: string, entity: string)
    requires IsWord(methodName) && IsWord(entity)
    ensures ParseLogicCommitMessage(LogicCommitMessage(methodName, entity)) == Success((entity, methodName))
  {
    var m := LogicCommitMessage(methodName, entity);
    var rest1 := entity + " handler";
    assert m == LogicCommitLead + (methodName + " in " + rest1);
    assert m[|LogicCommitLead|..] == methodName + " in " + rest1;
    WordThenOf(methodName, " in ", rest1);
    assert rest1 == entity + " handler" + "";
    WordThenOf(entity, " handler", "");
  }

  // ---------------------------------------------------------------------
  // Patterns of the markdown prompt files
  // ---------------------------------------------------------------------

  /**
   * The three pattern shapes the prompt parsers search for, each beginning
   * with a literal `lead`:
   *   WordBetween   `lead(\w+)trail`, the trail empty or starting with a non-word character;
   *   PathAfter     `lead(/\S*)`;
   *   QuotedAtEnd   `lead.* '(\w+)'`.
   */
  datatype Pattern =
    | WordBetween(lead: string, trail: string)
    | PathAfter(lead: string)
    | QuotedAtEnd(lead: string)

  /** `lead(\w+)trail` matched at offset `k`. */
  function WordCaptureAt(s: string, lead: string, trail: string, k: nat): (r: Option<string>)
    requires k <= |s|
    ensures r.Some? ==> IsWord(r.value) && k + |lead| + |r.value| + |trail| <= |s|
    ensures r.Some? ==> HasPrefix(s[k..], lead) && WordThen(s[k + |lead|..], trail).Some?
  {
    if !HasPrefix(s[k..], lead) then None
    else
      match WordThen(s[k + |lead|..], trail)
      case None => None
      case Some((w, _)) => Some(w)
  }

  /** `lead(/\S*)` matched at offset `k`. */
  function PathCaptureAt(s: string, lead: string, k: nat): (r: Option<string>)
    requires k <= |s|
    ensures r.Some? ==> HasPrefix(s[k..], lead) && |r.value| > 0 && r.value[0] == '/'
    ensures r.Some? ==> forall i :: 1 <= i < |r.value| ==> !IsRegexSpace(r.value[i])
  {
    var i := k + |lead|;
    if HasPrefix(s[k..], lead) && i < |s| && s[i] == '/' then
      var n := NonSpaceRun(s[i + 1..]);
      Some(s[i..i + 1 + n])
    else None
  }

  /** The offset where `.*` starting at `i` has to stop: the next line break, or the end. */
  function LineEnd(s: string, i: nat): (e: nat)
    requires i <= |s|
    ensures i <= e <= |s|
    ensures forall j :: i <= j < e ==> s[j] != '\n'
    ensures e == |s| || s[e] == '\n'
    decreases |s| - i
  {
    if i == |s| || s[i] == '\n' then i else LineEnd(s, i + 1)
  }

  /** ` '(\w+)'` at offset `j`. */
  function QuotedWordAt(s: string, j: nat): (r: Option<string>)
    requires j <= |s|
    ensures r.Some? ==> IsWord(r.value) && j < |s| && s[j] == ' '
  {
    if HasPrefix(s[j..], " '") then
      match WordThen(s[j + 2..], "'")
      case None => None
      case Some((w, _)) => Some(w)
    else None
  }

  /** The greedy `.*`: the last stop in `[lo, hi]` after which ` '(\w+)'` matches. */
  function LastQuoted(s: string, lo: nat, hi: nat): (r: Option<(nat, string)>)
    requires lo <= hi <= |s|
    ensures r.Some? ==> lo <= r.value.0 <= hi && QuotedWordAt(s, r.value.0) == Some(r.value.1)
    ensures r.None? ==> forall j :: lo <= j <= hi ==> QuotedWordAt(s, j).None?
    ensures r.Some? ==> forall j :: r.value.0 < j <= hi ==> QuotedWordAt(s, j).None?
    decreases hi - lo
  {
    match QuotedWordAt(s, hi)
    case Some(w) => Some((hi, w))
    case None => if hi == lo then None else LastQuoted(s, lo, hi - 1)
  }

  /** `lead.* '(\w+)'` matched at offset `k`: the quoted word furthest along the line. */
  function QuotedCaptureAt(s: string, lead: string, k: nat): (r: Option<string>)
    requires k <= |s|
    ensures r.Some? ==> HasPrefix(s[k..], lead) && IsWord(r.value)
  {
    if HasPrefix(s[k..], lead) then
      var i := k + |lead|;
      match LastQuoted(s, i, LineEnd(s, i))
      case None => None
      case Some((_, w)) => Some(w)
    else None
  }

  /** The capture of `p` when a match of `p` starts at offset `k`. */
  function CaptureAt(s: string, p: Pattern, k: nat): (r: Option<string>)
    requires k <= |s|
    ensures r.Some? ==> HasPrefix(s[k..], p.lead) && |r.value| > 0
  {
    match p
    case WordBetween(lead, trail) => WordCaptureAt(s, lead, trail, k)
    case PathAfter(lead) => PathCaptureAt(s, lead, k)
    case QuotedAtEnd(lead) => QuotedCaptureAt(s, lead, k)
  }

  /** regexp FindStringSubmatch: the capture of the leftmost match starting at or after `k`, with its offset. */
  function FindFrom(s: string, p: Pattern, k: nat): (r: Option<(nat, string)>)
    requires k <= |s|
    ensures r.Some? ==> k <= r.value.0 <= |s| && CaptureAt(s, p, r.value.0) == Some(r.value.1)
    ensures forall j :: k <= j <= |s| && (r.None? || j < r.value.0) ==> CaptureAt(s, p, j).None?
    decreases |s| - k
  {
    match CaptureAt(s, p, k)
    case Some(w) => Some((k, w))
    case None => if k == |s| then None else FindFrom(s, p, k + 1)
  }

  /** The leftmost match is the one to report wherever the search starts before it. */
  lemma {:induction false} FindFromLeftmost(s: string, p: Pattern, k: nat, j: nat)
    requires k <= j <= |s| && CaptureAt(s, p, j).Some?
    requires forall q :: k <= q < j ==> CaptureAt(s, p, q).None?
    ensures FindFrom(s, p, k) == Some((j, CaptureAt(s, p, j).value))
    decreases j - k
  {
    if k < j {
      FindFromLeftmost(s, p, k + 1, j);
    }
  }

  /** A word pattern matches at the offset where its lead, a word and its trail are laid out. */
  lemma WordBetweenAt(pre: string, lead: string, w: string, trail: string, post: string)
    requires IsWord(w)
    requires |trail| > 0 && !IsWordChar(trail[0])
    ensures CaptureAt(pre + lead + w + trail + post, WordBetween(lead, trail), |pre|) == Some(w)
  {
    var s := pre + lead + (w + trail + post);
    assert s == pre + lead + w + trail + post;
    assert s[|pre|..] == lead + (w + trail + post);
    assert s[|pre| + |lead|..] == w + trail + post;
    WordThenOf(w, trail, post);
  }

  /** `lead(\w+)` takes the whole run of word characters after the lead. */
  lemma WordAfterAt(pre: string, lead: string, w: string, post: string)
    requires IsWord(w) && (post == "" || !IsWordChar(post[0]))
    ensures CaptureAt(pre + lead + w + post, WordBetween(lead, ""), |pre|) == Some(w)
  {
    var s := pre + lead + (w + post);
    assert s == pre + lead + w + post;
    assert s[|pre|..] == lead + (w + post);
    var r := s[|pre| + |lead|..];
    assert r == w + post;
    WordRunOf(w, post);
    assert r[..|w|] == w;
    assert HasPrefix(r[|w|..], "");
  }

  /** Extract a required field: its capture, trimmed, or the pattern reported missing. */
  function Extract(content: string, p: Pattern): (r: Result<string, ParseError>)
    ensures r.Failure? <==> forall j :: 0 <= j <= |content| ==> CaptureAt(content, p, j).None?
  {
    match FindFrom(content, p, 0)
    case None => Failure(PatternMissing(p.lead))
    case Some((_, w)) => Success(TrimSpace(w))
  }

  /** regexp FindAllStringSubmatch for `lead(\w+)`: every capture, left to right, without overlap. */
  function AllWordsFrom(s: string, lead: string, k: nat): (r: seq<string>)
    requires k <= |s|
    ensures forall i :: 0 <= i < |r| ==> IsWord(r[i])
    ensures |r| == 0 <==> FindFrom(s, WordBetween(lead, ""), k).None?
    ensures |r| > 0 ==> r[0] == FindFrom(s, WordBetween(lead, ""), k).value.1
    decreases |s| - k
  {
    match FindFrom(s, WordBetween(lead, ""), k)
    case None => []
    case Some((j, w)) =>
      var rest := AllWordsFrom(s, lead, j + |lead| + |w|);
      assert forall i :: 0 < i < |[w] + rest| ==> ([w] + rest)[i] == rest[i - 1];
      [w] + rest
  }

  /**
   * The trimmed text between the first `start` marker and the first `end`
   * marker after it: missing markers and a blank text are errors.
   */
  function Section(content: string, start: string, end: string): (r: Result<string, ParseError>)
    ensures r.Success? ==> r.value != ""
  {
    match Index(content, start)
    case None => Failure(MarkerMissing(start))
    case Some(p) =>
      var after := content[p + |start|..];
      match Index(after, end)
      case None => Failure(MarkerMissing(end))
      case Some(e) =>
        var text := TrimSpace(after[..e]);
        if text == "" then Failure(EmptyDescription) else Success(text)
  }

  /** The section is the trimmed text laid out between the first occurrences of the markers. */
  lemma SectionOf(pre: string, start: string, body: string, end: string, post: string)
    requires FirstAt(pre + start + (body + end + post), start, |pre|)
    requires FirstAt(body + end + post, end, |body|)
    requires TrimSpace(body) != ""
    ensures Section(pre + start + (body + end + post), start, end) == Success(TrimSpace(body))
  {
    var after := body + end + post;
    var s := pre + start + after;
    IndexIsFirst(s, start, |pre|);
    assert s[|pre| + |start|..] == after;
    IndexIsFirst(after, end, |body|);
    assert after[..|body|] == body;
  }

  // ---------------------------------------------------------------------
  // parseMarkdownPrompt (gen-api)
  // ---------------------------------------------------------------------

  const EntityPattern := WordBetween("为 '", "' 实体的新方法")
  const MethodPattern := WordBetween("的新方法 '", "'")
  const VerbPattern := WordBetween("- **HTTP 方法**: ", "")
  const PathPattern := PathAfter("- **API 路径**: ")
  const DescriptionStart := "- **功能描述**:"
  const DescriptionEnd := "## 操作指令 (INSTRUCTIONS)"

  /** The route path a markdown prompt asks for: a path naming only the table is the root route. */
  function MarkdownRoutePath(fullPath: string): (r: string)
    ensures HasPrefix(r, "/")
  {
    match RoutePath(fullPath)
    case Some(path) => path
    case None => "/"
  }

  /** parseMarkdownPrompt: the ApiInfo and the description of a gen-api prompt file. */
  function ParseMarkdownPrompt(content: string): (r: Result<(ApiInfo, string), ParseError>)
    ensures r.Success? ==> r.value.1 != "" && HasPrefix(r.value.0.ApiPath, "/")
  {
    var entity :- Extract(content, EntityPattern);
    var methodName :- Extract(content, MethodPattern);
    var verb :- Extract(content, VerbPattern);
    var fullPath :- Extract(content, PathPattern);
    var description :- Section(content, DescriptionStart, DescriptionEnd);
    Success((BuildApiInfo(entity, methodName, verb, MarkdownRoutePath(fullPath)), description))
  }

  /** A prompt file asking for the full path buildApiInfo derives gives back the same route path. */
  lemma MarkdownRoutePathOfFullPath(entity: string, methodName: string, verb: string, path: string)
    requires IsWord(entity) && HasPrefix(path, "/")
    ensures MarkdownRoutePath(BuildApiInfo(entity, methodName, verb, path).FullApiPath) == path
  {
    RoutePathOfFullPath(entity, methodName, verb, path);
  }

  /** A prompt file without an entity line is refused before anything else is looked at. */
  lemma MarkdownPromptNeedsEntity(content: string)
    requires forall j :: 0 <= j <= |content| ==> CaptureAt(content, EntityPattern, j).None?
    ensures ParseMarkdownPrompt(content) == Failure(PatternMissing(EntityPattern.lead))
  {
  }

  // ---------------------------------------------------------------------
  // parseLogicMarkdownPrompt (gen-logic)
  // ---------------------------------------------------------------------

  const LogicEntityPattern := WordBetween("- **主要实体**: ", "")
  const LogicMethodPattern := WordBetween("- **目标方法**: ", "")
  const ExamplePattern := QuotedAtEnd("**参考示例代码 ")
  const AdditionalLead := "### 附加实体: "
  const GoalStart := "## 用户的目标 (USER'S GOAL)"
  const GoalEnd := "## 核心定义文件 (DEFINITIONS FOR"

  datatype LogicPrompt = LogicPrompt(
    entityName: string,
    methodName: string,
    userPrompt: string,
    exampleMethodName: string,
    additionalEntities: seq<string>)

  /** parseLogicMarkdownPrompt: the example method and the additional entities are optional. */
  function ParseLogicMarkdownPrompt(content: string): (r: Result<LogicPrompt, ParseError>)
    ensures r.Success? ==>
      && IsWord(r.value.entityName) && IsWord(r.value.methodName) && r.value.userPrompt != ""
      && (r.value.exampleMethodName == "" || IsWord(r.value.exampleMethodName))
      && forall i :: 0 <= i < |r.value.additionalEntities| ==> IsWord(r.value.additionalEntities[i])
  {
    match FindFrom(content, LogicEntityPattern, 0)
    case None => Failure(PatternMissing(LogicEntityPattern.lead))
    case Some((_, entity)) =>
      match FindFrom(content, LogicMethodPattern, 0)
      case None => Failure(PatternMissing(LogicMethodPattern.lead))
      case Some((_, methodName)) =>
        var example := (match FindFrom(content, ExamplePattern, 0)
          case None => ""
          case Some((_, w)) => w);
        var additional := AllWordsFrom(content, AdditionalLead, 0);
        match Section(content, GoalStart, GoalEnd)
        case Failure(e) => Failure(e)
        case Success(goal) => Success(LogicPrompt(entity, methodName, goal, example, additional))
  }

  /**
   * The example method name is the quoted word that ends the first example
   * line: the lead at `k` (no `*` before it), then any text up to a
   * ` '<word>'` that closes the line at `hi`.
   */
  predicate ExampleLine(s: string, lead: string, k: nat, hi: nat, w: string) {
    && k + |lead| <= hi <= |s|
    && s[k..k + |lead|] == lead
    && QuoteClosesLine(s, k + |lead|, hi, w)
  }

  /** From `i` the line runs without a break to ` '<w>'` at `hi`, which ends it. */
  predicate QuoteClosesLine(s: string, i: nat, hi: nat, w: string) {
    && IsWord(w) && i <= hi && hi + |w| + 3 <= |s|
    && Lacks(s[i..hi], '\n')
    && s[hi..hi + |w| + 3] == " '" + w + "'"
    && (hi + |w| + 3 == |s| || s[hi + |w| + 3] == '\n')
  }

  lemma ExampleIsLastQuoted(s: string, lead: string, k: nat, hi: nat, w: string)
    requires ExampleLine(s, lead, k, hi, w) && |lead| > 0 && Lacks(s[..k], lead[0])
    ensures FindFrom(s, QuotedAtEnd(lead), 0) == Some((k, w))
  {
    ExampleAt(s, lead, k, k + |lead|, hi, w);
    FirstLeadFound(s, QuotedAtEnd(lead), k);
  }

  /** A match at the first occurrence of its lead's first character is the one reported. */
  lemma FirstLeadFound(s: string, p: Pattern, k: nat)
    requires k <= |s| && |p.lead| > 0 && Lacks(s[..k], p.lead[0])
    requires CaptureAt(s, p, k).Some?
    ensures FindFrom(s, p, 0) == Some((k, CaptureAt(s, p, k).value))
  {
    forall q | 0 <= q < k
      ensures CaptureAt(s, p, q).None?
    {
      assert s[..k][q] == s[q];
      NoLeadAt(s, p.lead, q);
    }
    FindFromLeftmost(s, p, 0, k);
  }

  /** No match can start where the first character of the lead is missing. */
  lemma NoLeadAt(s: string, lead: string, q: nat)
    requires q < |s| && |lead| > 0 && s[q] != lead[0]
    ensures !HasPrefix(s[q..], lead)
  {
    assert s[q..][0] == s[q];
  }

  /**
   * The example pattern at `k`, with the line's last quoted word at `hi`;
   * `i` names the offset where the lead ends.
   */
  lemma ExampleAt(s: string, lead: string, k: nat, i: nat, hi: nat, w: string)
    requires i == k + |lead| <= |s| && s[k..i] == lead
    requires QuoteClosesLine(s, i, hi, w)
    ensures CaptureAt(s, QuotedAtEnd(lead), k) == Some(w)
  {
    LeadAt(s, lead, k);
    LastQuoteOnLine(s, i, hi, w);
  }

  /** The lead laid out at `k` is a prefix of the text from `k`. */
  lemma LeadAt(s: string, lead: string, k: nat)
    requires k + |lead| <= |s| && s[k..k + |lead|] == lead
    ensures HasPrefix(s[k..], lead)
  {
    assert s[k..][..|lead|] == s[k..k + |lead|];
  }

  /** The greedy `.*` from `i` stops before the quoted word that closes the line. */
  lemma LastQuoteOnLine(s: string, i: nat, hi: nat, w: string)
    requires QuoteClosesLine(s, i, hi, w)
    ensures LastQuoted(s, i, LineEnd(s, i)) == Some((hi, w))
  {
    var e := hi + |w| + 3;
    QuoteEndsLine(s, hi, w);
    forall j | i <= j < hi
      ensures s[j] != '\n'
    {
      assert s[j] == s[i..hi][j - i];
    }
    LineEndAt(s, i, e);
    LastQuotedFrom(s, i, hi, e);
  }

  /** A quoted word at `hi` followed by a line break or the end: no quote starts after `hi` on that line. */
  lemma QuoteEndsLine(s: string, hi: nat, w: string)
    requires IsWord(w)
    requires hi + |w| + 3 <= |s| && s[hi..hi + |w| + 3] == " '" + w + "'"
    requires hi + |w| + 3 == |s| || s[hi + |w| + 3] == '\n'
    ensures QuotedWordAt(s, hi) == Some(w)
    ensures forall j :: hi <= j < hi + |w| + 3 ==> s[j] != '\n'
    ensures forall j :: hi < j <= hi + |w| + 3 ==> QuotedWordAt(s, j).None?
  {
    var e := hi + |w| + 3;
    QuoteChars(s, hi, w);
    assert s[hi..][..2] == " '";
    assert s[hi + 2..] == w + "'" + s[e..];
    WordThenOf(w, "'", s[e..]);
    forall j | hi < j <= e
      ensures QuotedWordAt(s, j).None?
    {
      if j < e {
        assert s[j] != ' ';
      }
    }
  }

  /** The characters of ` '<w>'` laid out at `hi`. */
  lemma QuoteChars(s: string, hi: nat, w: string)
    requires IsWord(w)
    requires hi + |w| + 3 <= |s| && s[hi..hi + |w| + 3] == " '" + w + "'"
    ensures s[hi] == ' ' && s[hi + 1] == '\'' && s[hi + 2 + |w|] == '\''
    ensures forall j :: hi + 2 <= j < hi + 2 + |w| ==> s[j] == w[j - hi - 2] && IsWordChar(s[j])
  {
    var q := s[hi..hi + |w| + 3];
    assert s[hi] == q[0] && s[hi + 1] == q[1] && s[hi + 2 + |w|] == q[2 + |w|];
    forall j | hi + 2 <= j < hi + 2 + |w|
      ensures s[j] == w[j - hi - 2]
    {
      assert s[j] == q[j - hi];
    }
  }

  lemma {:induction false} LineEndAt(s: string, i: nat, e: nat)
    requires i <= e <= |s|
    requires forall j :: i <= j < e ==> s[j] != '\n'
    requires e == |s| || s[e] == '\n'
    ensures LineEnd(s, i) == e
    decreases e - i
  {
    if i < e {
      LineEndAt(s, i + 1, e);
    }
  }

  lemma LastQuotedFrom(s: string, lo: nat, j: nat, hi: nat)
    requires lo <= j <= hi <= |s|
    requires QuotedWordAt(s, j).Some?
    requires forall q :: j < q <= hi ==> QuotedWordAt(s, q).None?
    ensures LastQuoted(s, lo, hi) == Some((j, QuotedWordAt(s, j).value))
  {
    var r := LastQuoted(s, lo, hi);
    assert r.Some?;
    assert r.value.0 <= j;
    assert r.value.0 >= j;
  }

  // ---------------------------------------------------------------------
  // Cleaning an LLM reply
  // ---------------------------------------------------------------------

  const JsonFence := "```json"
  const Fence := "```"

  /** The reply with surrounding space, a leading ```json and a trailing ``` removed. */
  function CleanResponse(reply: string): (r: string)
    ensures |r| <= |TrimSpace(reply)|
    ensures !HasPrefix(TrimSpace(reply), JsonFence) && !HasSuffix(TrimSpace(reply), Fence) ==> r == TrimSpace(reply)
    ensures HasPrefix(TrimSpace(reply), JsonFence) ==> |r| <= |TrimSpace(reply)| - |JsonFence|
  {
    TrimSuffix(TrimPrefix(TrimSpace(reply), JsonFence), Fence)
  }

  /** A fenced JSON reply, padded with space, cleans to the JSON inside the fence. */
  lemma CleanFencedResponse(pre: string, json: string, post: string)
    requires forall i :: 0 <= i < |pre| ==> IsSpace(pre[i])
    requires forall i :: 0 <= i < |post| ==> IsSpace(post[i])
    ensures CleanResponse(pre + JsonFence + json + Fence + post) == json
  {
    var fenced := JsonFence + (json + Fence);
    assert pre + JsonFence + json + Fence + post == pre + fenced + post;
    FencedTrimmed(pre, fenced, post);
    assert TrimPrefix(fenced, JsonFence) == json + Fence;
  }

  lemma FencedTrimmed(pre: string, fenced: string, post: string)
    requires forall i :: 0 <= i < |pre| ==> IsSpace(pre[i])
    requires forall i :: 0 <= i < |post| ==> IsSpace(post[i])
    requires |fenced| > 0 && fenced[0] == '`' && fenced[|fenced| - 1] == '`'
    ensures TrimSpace(pre + fenced + post) == fenced
  {
    TrimSpacePadding(pre, fenced, post);
  }

  /** A reply without fences that is already trimmed is passed on unchanged. */
  lemma CleanBareResponse(json: string)
    requires TrimSpace(json) == json
    requires !HasPrefix(json, JsonFence) && !HasSuffix(json, Fence)
    ensures CleanResponse(json) == json
  {
  }
}
