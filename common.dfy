/**
 * The shared records of the generator and its naming helpers: snake case,
 * plural snake case (the table name), lower camel case, and the choice
 * between the two supported project layouts.
 */
module Common {
  import opened Wrappers
  import opened Strings

  /** Everything a new API endpoint is generated from. */
  datatype ApiInfo = ApiInfo(
    EntityName: string,
    LowerEntityName: string,
    TableName: string,
    MethodName: string,
    HttpVerb: string,
    ApiPath: string,
    FiberApiPath: string,
    FullApiPath: string,
    CapitalizedHttpVerb: string)

  /** Where each layer of the target project lives. */
  datatype ProjectPathConfig = ProjectPathConfig(
    RepoInterfaceDir: string,
    RepoImplDir: string,
    ServiceDir: string,
    HandlerDir: string,
    RouterFile: string)

  /** How a snippet is placed into a file. */
  datatype InsertionMode = AppendToEnd | InsertAfterBrace | InsertAfterLine

  // ---------------------------------------------------------------------
  // Project layout
  // ---------------------------------------------------------------------

  const ApplicationProbe := "internal/application"
  const UsecaseProbe := "internal/usecase"

  /** The domain-driven layout, recognised by an `internal/application` directory. */
  const DddLayout := ProjectPathConfig(
    "internal/domain/repository",
    "internal/infrastructure/persistence",
    "internal/application/service",
    "internal/interfaces/handler",
    "internal/infrastructure/router/router.go")

  /** The clean-architecture layout, recognised by an `internal/usecase` directory. */
  const CleanLayout := ProjectPathConfig(
    "internal/domain/ports",
    "internal/adapter/repository",
    "internal/usecase/service",
    "internal/adapter/handler",
    "internal/adapter/router/router.go")

  const UnknownLayoutError := "无法识别的项目结构，请确保在项目根目录运行"

  /**
   * The layout of the project in the working directory, given whether the
   * two probe directories exist. The domain-driven probe is tried first.
   */
  function GetProjectPaths(hasApplication: bool, hasUsecase: bool): (r: Result<ProjectPathConfig, string>)
    ensures hasApplication ==> r == Success(DddLayout)
    ensures !hasApplication && hasUsecase ==> r == Success(CleanLayout)
    ensures r.Failure? <==> !hasApplication && !hasUsecase
  {
    if hasApplication then Success(DddLayout)
    else if hasUsecase then Success(CleanLayout)
    else Failure(UnknownLayoutError)
  }

  /** None of the paths of a layout holds a `%`, so each can serve as a format string. */
  predicate LayoutPlain(paths: ProjectPathConfig) {
    && Lacks(paths.RepoInterfaceDir, '%') && Lacks(paths.RepoImplDir, '%') && Lacks(paths.ServiceDir, '%')
    && Lacks(paths.HandlerDir, '%') && Lacks(paths.RouterFile, '%')
  }

  lemma DddLayoutPlain()
    ensures LayoutPlain(DddLayout)
  {
    DddPlainA();
    DddPlainB();
  }

  lemma DddPlainA()
    ensures Lacks(DddLayout.RepoInterfaceDir, '%') && Lacks(DddLayout.RepoImplDir, '%')
  {
  }

  lemma DddPlainB()
    ensures Lacks(DddLayout.ServiceDir, '%') && Lacks(DddLayout.HandlerDir, '%') && Lacks(DddLayout.RouterFile, '%')
  {
  }

  lemma CleanLayoutPlain()
    ensures LayoutPlain(CleanLayout)
  {
    CleanPlainA();
    CleanPlainB();
  }

  lemma CleanPlainA()
    ensures Lacks(CleanLayout.RepoInterfaceDir, '%') && Lacks(CleanLayout.RepoImplDir, '%')
  {
  }

  lemma CleanPlainB()
    ensures Lacks(CleanLayout.ServiceDir, '%') && Lacks(CleanLayout.HandlerDir, '%') && Lacks(CleanLayout.RouterFile, '%')
  {
  }

  /** Both recognised layouts are plain. */
  lemma GetProjectPathsPlain(hasApplication: bool, hasUsecase: bool)
    requires GetProjectPaths(hasApplication, hasUsecase).Success?
    ensures LayoutPlain(GetProjectPaths(hasApplication, hasUsecase).value)
  {
    if hasApplication {
      DddLayoutPlain();
    } else {
      CleanLayoutPlain();
    }
  }

  /** The service layer of a recognised layout lies inside the directory whose presence selected it. */
  lemma ServiceDirUnderProbe(hasApplication: bool, hasUsecase: bool)
    requires GetProjectPaths(hasApplication, hasUsecase).Success?
    ensures var paths := GetProjectPaths(hasApplication, hasUsecase).value;
            HasPrefix(paths.ServiceDir, (if hasApplication then ApplicationProbe else UsecaseProbe) + "/")
  {
    if hasApplication {
      assert DddLayout.ServiceDir == ApplicationProbe + "/" + "service";
    } else {
      assert CleanLayout.ServiceDir == UsecaseProbe + "/" + "service";
    }
  }

  // ---------------------------------------------------------------------
  // Snake case
  // ---------------------------------------------------------------------

  /**
   * An underscore goes in front of the upper-case letter at `i` when it is
   * not the first character and the character before or after it is lower case.
   */
  predicate BreaksBefore(s: string, i: nat)
    requires i < |s|
  {
    IsUpper(s[i]) && i > 0 && (IsLower(s[i - 1]) || (i + 1 < |s| && IsLower(s[i + 1])))
  }

  /** What the character at `i` contributes to the snake-case form. */
  function SnakePiece(s: string, i: nat): string
    requires i < |s|
  {
    if IsUpper(s[i]) then (if BreaksBefore(s, i) then "_" else "") + [LowerChar(s[i])]
    else [s[i]]
  }

  /** The snake-case form of the first `n` characters, seen in the context of the whole of `s`. */
  function SnakePrefix(s: string, n: nat): string
    requires n <= |s|
  {
    if n == 0 then "" else SnakePrefix(s, n - 1) + SnakePiece(s, n - 1)
  }

  function SnakeCase(s: string): string {
    SnakePrefix(s, |s|)
  }

  /** ToSnakeCase (and the identical toSnakeCase of the code generator). */
  method ToSnakeCase(s: string) returns (result: string)
    ensures result == SnakeCase(s)
  {
    result := [];
    var i := 0;
    while i < |s|
      invariant 0 <= i <= |s|
      invariant result == SnakePrefix(s, i)
    {
      var r := s[i];
      if IsUpper(r) {
        if i > 0 && (IsLower(s[i - 1]) || (i + 1 < |s| && IsLower(s[i + 1]))) {
          result := result + ['_'];
        }
        result := result + [LowerChar(r)];
      } else {
        result := result + [r];
      }
      i := i + 1;
    }
  }

  /** Number of underscores inserted among the first `n` characters. */
  function Breaks(s: string, n: nat): nat
    requires n <= |s|
  {
    if n == 0 then 0 else Breaks(s, n - 1) + (if BreaksBefore(s, n - 1) then 1 else 0)
  }

  lemma {:induction false} SnakePrefixNoUpper(s: string, n: nat)
    requires n <= |s|
    ensures forall k :: 0 <= k < |SnakePrefix(s, n)| ==> !IsUpper(SnakePrefix(s, n)[k])
  {
    if n > 0 {
      SnakePrefixNoUpper(s, n - 1);
    }
  }

  /** The snake-case form holds no upper-case letter. */
  lemma SnakeCaseNoUpper(s: string)
    ensures forall k :: 0 <= k < |SnakeCase(s)| ==> !IsUpper(SnakeCase(s)[k])
  {
    SnakePrefixNoUpper(s, |s|);
  }

  lemma {:induction false} SnakePrefixIdentity(s: string, n: nat)
    requires n <= |s|
    requires forall k :: 0 <= k < |s| ==> !IsUpper(s[k])
    ensures SnakePrefix(s, n) == s[..n]
  {
    if n > 0 {
      SnakePrefixIdentity(s, n - 1);
      assert s[..n] == s[..n - 1] + [s[n - 1]];
    }
  }

  /** A string without upper-case letters is its own snake-case form. */
  lemma SnakeCaseIdentity(s: string)
    requires forall k :: 0 <= k < |s| ==> !IsUpper(s[k])
    ensures SnakeCase(s) == s
  {
    SnakePrefixIdentity(s, |s|);
  }

  /** Converting twice is converting once. */
  lemma SnakeCaseIdempotent(s: string)
    ensures SnakeCase(SnakeCase(s)) == SnakeCase(s)
  {
    SnakeCaseNoUpper(s);
    SnakeCaseIdentity(SnakeCase(s));
  }

  lemma {:induction false} SnakePrefixLength(s: string, n: nat)
    requires n <= |s|
    ensures |SnakePrefix(s, n)| == n + Breaks(s, n)
  {
    if n > 0 {
      SnakePrefixLength(s, n - 1);
    }
  }

  /** The output is the input plus one character per inserted underscore. */
  lemma SnakeCaseLength(s: string)
    ensures |SnakeCase(s)| == |s| + Breaks(s, |s|)
  {
    SnakePrefixLength(s, |s|);
  }

  lemma {:induction false} SnakePrefixStart(s: string, n: nat)
    requires 0 < n <= |s|
    ensures |SnakePrefix(s, n)| > 0 && SnakePrefix(s, n)[0] == LowerChar(s[0])
  {
    if n > 1 {
      SnakePrefixStart(s, n - 1);
    } else {
      assert SnakePrefix(s, 1) == "" + SnakePiece(s, 0);
    }
  }

  /** No underscore is put in front: the output starts with the lowered first character. */
  lemma SnakeCaseStart(s: string)
    requires |s| > 0
    ensures |SnakeCase(s)| > 0 && SnakeCase(s)[0] == LowerChar(s[0])
  {
    SnakePrefixStart(s, |s|);
  }

  /** `s` with every underscore removed. */
  function WithoutUnderscores(s: string): string {
    if |s| == 0 then ""
    else (if s[0] == '_' then "" else [s[0]]) + WithoutUnderscores(s[1..])
  }

  lemma {:induction false} WithoutUnderscoresAppend(a: string, b: string)
    ensures WithoutUnderscores(a + b) == WithoutUnderscores(a) + WithoutUnderscores(b)
    decreases |a|
  {
    if |a| == 0 {
      assert a + b == b;
    } else {
      assert (a + b)[1..] == a[1..] + b;
      WithoutUnderscoresAppend(a[1..], b);
    }
  }

  lemma {:induction false} SnakePrefixLetters(s: string, n: nat)
    requires n <= |s|
    requires forall k :: 0 <= k < |s| ==> s[k] != '_'
    ensures WithoutUnderscores(SnakePrefix(s, n)) == ToLower(s[..n])
  {
    if n > 0 {
      SnakePrefixLetters(s, n - 1);
      WithoutUnderscoresAppend(SnakePrefix(s, n - 1), SnakePiece(s, n - 1));
      SnakePieceLetters(s, n - 1);
      ToLowerSnoc(s, n);
    } else {
      assert ToLower(s[..0]) == "";
    }
  }

  /** Without its underscore, the piece of a character that is not itself an underscore is that character lowered. */
  lemma SnakePieceLetters(s: string, i: nat)
    requires i < |s| && s[i] != '_'
    ensures WithoutUnderscores(SnakePiece(s, i)) == [LowerChar(s[i])]
  {
    var l := LowerChar(s[i]);
    assert l != '_';
    assert WithoutUnderscores([l]) == [l] by {
      assert [l][1..] == [];
    }
    if IsUpper(s[i]) && BreaksBefore(s, i) {
      assert SnakePiece(s, i) == "_" + [l];
      assert ("_" + [l])[1..] == [l];
    }
  }

  /**
   * Apart from the inserted underscores, the output is the input lowered
   * character by character, in order (for an input without underscores of its own).
   */
  lemma SnakeCaseLetters(s: string)
    requires forall k :: 0 <= k < |s| ==> s[k] != '_'
    ensures WithoutUnderscores(SnakeCase(s)) == ToLower(s)
  {
    SnakePrefixLetters(s, |s|);
    assert s[..|s|] == s;
  }

  /** A word boundary inside a name gets an underscore; a lower-case name is kept. */
  lemma SnakeCaseExamples()
    ensures SnakeCase("UserID") == "user_id"
    ensures SnakeCase("user") == "user"
  {
    var a := "UserID";
    assert SnakePrefix(a, 1) == "u";
    assert SnakePrefix(a, 2) == "us";
    assert SnakePrefix(a, 3) == "use";
    assert SnakePrefix(a, 4) == "user";
    assert SnakePrefix(a, 5) == "user_i";
    assert SnakePrefix(a, 6) == "user_id";
    SnakeCaseIdentity("user");
  }

  /** An acronym stays in one piece and is split from the word after it. */
  lemma SnakeCaseAcronym()
    ensures SnakeCase("HTTPServer") == "http_server"
  {
    var b := "HTTPServer";
    assert SnakePrefix(b, 1) == "h";
    assert SnakePrefix(b, 2) == "ht";
    assert SnakePrefix(b, 3) == "htt";
    assert SnakePrefix(b, 4) == "http";
    assert SnakePrefix(b, 5) == "http_s";
    assert SnakePrefix(b, 6) == "http_se";
    assert SnakePrefix(b, 7) == "http_ser";
    assert SnakePrefix(b, 8) == "http_serv";
    assert SnakePrefix(b, 9) == "http_serve";
    assert SnakePrefix(b, 10) == "http_server";
  }

  // ---------------------------------------------------------------------
  // Plural snake case and lower camel case
  // ---------------------------------------------------------------------

  /** ToPluralSnakeCase: the table name of an entity. */
  function PluralSnakeCase(s: string): (r: string)
    ensures HasSuffix(r, "s")
  {
    var snake := SnakeCase(s);
    if HasSuffix(snake, "y") then TrimSuffix(snake, "y") + "ies"
    else if HasSuffix(snake, "s") then snake + "es"
    else snake + "s"
  }

  /** The table name is the snake-case name (without a final "y") followed by a plural ending. */
  lemma PluralSnakeCaseStem(s: string)
    ensures var snake := SnakeCase(s);
            var r := PluralSnakeCase(s);
            if HasSuffix(snake, "y") then r == TrimSuffix(snake, "y") + "ies"
            else (HasPrefix(r, snake) && r[|snake|..] in {"s", "es"}
                  && (r[|snake|..] == "es" <==> HasSuffix(snake, "s")))
  {
    var snake := SnakeCase(s);
    var r := PluralSnakeCase(s);
    if !HasSuffix(snake, "y") {
      if HasSuffix(snake, "s") {
        assert r == snake + "es";
        assert r[|snake|..] == "es";
      } else {
        assert r == snake + "s";
        assert r[|snake|..] == "s";
      }
    }
  }

  /** The table name holds no upper-case letter. */
  lemma PluralSnakeCaseNoUpper(s: string)
    ensures forall k :: 0 <= k < |PluralSnakeCase(s)| ==> !IsUpper(PluralSnakeCase(s)[k])
  {
    SnakeCaseNoUpper(s);
  }

  lemma PluralSnakeCaseCategory()
    ensures SnakeCase("Category") == "category"
    ensures PluralSnakeCase("Category") == "categories"
  {
    var c := "Category";
    assert SnakePrefix(c, 1) == "c";
    assert SnakePrefix(c, 2) == "ca";
    assert SnakePrefix(c, 3) == "cat";
    assert SnakePrefix(c, 4) == "cate";
    assert SnakePrefix(c, 5) == "categ";
    assert SnakePrefix(c, 6) == "catego";
    assert SnakePrefix(c, 7) == "categor";
    assert SnakePrefix(c, 8) == "category";
    assert HasSuffix("category", "y");
    assert TrimSuffix("category", "y") == "categor";
  }

  lemma PluralSnakeCaseBus()
    ensures PluralSnakeCase("Bus") == "buses"
  {
    var b := "Bus";
    assert SnakePrefix(b, 1) == "b";
    assert SnakePrefix(b, 2) == "bu";
    assert SnakePrefix(b, 3) == "bus";
    assert !HasSuffix("bus", "y");
    assert HasSuffix("bus", "s");
  }

  lemma PluralSnakeCaseUser()
    ensures PluralSnakeCase("User") == "users"
  {
    var u := "User";
    assert SnakePrefix(u, 1) == "u";
    assert SnakePrefix(u, 2) == "us";
    assert SnakePrefix(u, 3) == "use";
    assert SnakePrefix(u, 4) == "user";
    assert !HasSuffix("user", "y");
    assert !HasSuffix("user", "s");
  }

  lemma {:induction false} SnakePrefixWordChars(s: string, n: nat)
    requires n <= |s|
    requires forall k :: 0 <= k < |s| ==> IsWordChar(s[k])
    ensures forall k :: 0 <= k < |SnakePrefix(s, n)| ==> IsWordChar(SnakePrefix(s, n)[k])
  {
    if n > 0 {
      SnakePrefixWordChars(s, n - 1);
    }
  }

  /** The table name of a word is a word: it holds no `/` and no space. */
  lemma PluralSnakeCaseWord(s: string)
    requires IsWord(s)
    ensures IsWord(PluralSnakeCase(s))
  {
    var snake := SnakeCase(s);
    SnakePrefixWordChars(s, |s|);
    assert forall k :: 0 <= k < |snake| ==> IsWordChar(snake[k]);
    var stem := TrimSuffix(snake, "y");
    assert forall k :: 0 <= k < |stem| ==> IsWordChar(stem[k]) by {
      if HasSuffix(snake, "y") {
        forall k | 0 <= k < |stem|
          ensures IsWordChar(stem[k])
        {
          assert stem[k] == (stem + "y")[k] == snake[k];
        }
      }
    }
    WordCharsAppend(stem, "ies");
    WordCharsAppend(snake, "es");
    WordCharsAppend(snake, "s");
  }

  /** Word characters followed by a word make a word. */
  lemma WordCharsAppend(a: string, b: string)
    requires forall k :: 0 <= k < |a| ==> IsWordChar(a[k])
    requires IsWord(b)
    ensures IsWord(a + b)
  {
    forall k | 0 <= k < |a + b|
      ensures IsWordChar((a + b)[k])
    {
      if k < |a| {
        assert (a + b)[k] == a[k];
      } else {
        assert (a + b)[k] == b[k - |a|];
      }
    }
  }

  /** ToLowerCamel as a value: the first character lowered. */
  function LowerCamel(s: string): (r: string)
    ensures |r| == |s|
    ensures |s| > 0 ==> r[0] == LowerChar(s[0]) && r[1..] == s[1..]
  {
    if s == "" then "" else [LowerChar(s[0])] + s[1..]
  }

  /** ToLowerCamel: overwrites the first rune of a copy of the input. */
  method ToLowerCamel(s: string) returns (out: string)
    ensures out == LowerCamel(s)
  {
    if s == "" {
      return "";
    }
    var r := new char[|s|](i requires 0 <= i < |s| => s[i]);
    r[0] := LowerChar(r[0]);
    out := r[..];
    assert out == [LowerChar(s[0])] + s[1..];
  }

  lemma LowerCamelExamples()
    ensures LowerCamel("UserHandler") == "userHandler"
    ensures LowerCamel("") == ""
  {
  }
}
