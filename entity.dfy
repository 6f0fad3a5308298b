/**
 * The `generate` command: reading an entity descriptor out of a Go model
 * file (struct fields, gorm tags, primary key, table name), and deciding
 * which of the four generated files are written.
 */
module Entity {
  import opened Wrappers
  import opened Strings
  import opened Common
  import opened Workspace

  /** One field of the entity, as the templates see it. */
  datatype FieldInfo = FieldInfo(Name: string, Type: string, GormName: string, LowerName: string)

  const NoField := FieldInfo("", "", "", "")

  /** Everything the CRUD templates are rendered from. */
  datatype EntityInfo = EntityInfo(
    ProjectModule: string,
    EntityName: string,
    LowerEntityName: string,
    TableName: string,
    PrimaryKey: FieldInfo,
    Fields: seq<FieldInfo>)

  // ---------------------------------------------------------------------
  // The syntax the descriptor is read from
  // ---------------------------------------------------------------------

  /**
   * A struct field: its names, the source text of its type, and the raw
   * text of its tag literal when it has one.
   */
  datatype FieldNode = FieldNode(names: seq<string>, typeText: string, tag: Option<string>)

  /**
   * The nodes of the file the descriptor depends on, in the order the
   * traversal visits them. `TableNameFunc(Some(v))` is a function named
   * TableName whose first statement returns the basic literal `v`.
   */
  datatype EntityNode =
    | StructSpec(name: string, fields: seq<FieldNode>)
    | TableNameFunc(returned: Option<string>)
    | OtherNode

  // ---------------------------------------------------------------------
  // gorm tags
  // ---------------------------------------------------------------------

  const GormKey := "gorm:\""
  const ColumnKey := "column:"
  const PrimaryKeyPart := "primaryKey"

  /** What the `;`-separated parts of a gorm tag say: the column named last, and whether any part is `primaryKey`. */
  function GormParts(parts: seq<string>): (r: (string, bool))
    ensures r.1 <==> exists i :: 0 <= i < |parts| && parts[i] == PrimaryKeyPart
  {
    if |parts| == 0 then ("", false)
    else
      var init := GormParts(parts[..|parts| - 1]);
      var last := parts[|parts| - 1];
      assert forall i :: 0 <= i < |parts| - 1 ==> parts[..|parts| - 1][i] == parts[i];
      (if HasPrefix(last, ColumnKey) then ColumnValue(last) else init.0,
       init.1 || last == PrimaryKeyPart)
  }

  /** The column a `column:` part names: the text after its first `:` up to the next one. */
  function ColumnValue(part: string): (r: string)
    requires HasPrefix(part, ColumnKey)
    ensures !Contains(r, ":")
    ensures HasPrefix(part[|ColumnKey|..], r)
  {
    assert part[6..7] == part[..7][6..7] == ":";
    assert OccursAt(part, ":", 6);
    var pieces := Split(part, ":");
    assert pieces == [part[..6]] + Split(part[7..], ":") by {
      forall j: nat | j < 6
        ensures !OccursAt(part, ":", j)
      {
        assert part[j..j + 1][0] == part[..7][j] == ColumnKey[j];
      }
      IndexIsFirst(part, ":", 6);
    }
    var r := Split(part[7..], ":")[0];
    JoinSplit(part[7..], ":");
    r
  }

  /** The column of the last `column:` part wins over every earlier one. */
  lemma {:induction false} GormPartsLastColumn(parts: seq<string>, i: nat)
    requires i < |parts| && HasPrefix(parts[i], ColumnKey)
    requires forall j :: i < j < |parts| ==> !HasPrefix(parts[j], ColumnKey)
    ensures GormParts(parts).0 == ColumnValue(parts[i])
    decreases |parts|
  {
    if i < |parts| - 1 {
      GormPartsLastColumn(parts[..|parts| - 1], i);
    }
  }

  /** Without a `column:` part the column is empty. */
  lemma {:induction false} GormPartsNoColumn(parts: seq<string>)
    requires forall j :: 0 <= j < |parts| ==> !HasPrefix(parts[j], ColumnKey)
    ensures GormParts(parts).0 == ""
    decreases |parts|
  {
    if |parts| > 0 {
      GormPartsNoColumn(parts[..|parts| - 1]);
    }
  }

  /** The gorm settings of a raw tag literal: the text between `gorm:"` and the next `"`, cut at `;`. */
  function GormTag(tagValue: string): (r: (string, bool))
    ensures !Contains(TrimChar(tagValue, '`'), GormKey) ==> r == ("", false)
  {
    var tag := TrimChar(tagValue, '`');
    if !Contains(tag, GormKey) then ("", false)
    else
      var gormTag := Split(Split(tag, GormKey)[1], "\"")[0];
      GormParts(Split(gormTag, ";"))
  }

  /** A field with a name as the descriptor records it, and whether it is tagged as the primary key. */
  function FieldOf(f: FieldNode): (r: (FieldInfo, bool))
    requires |f.names| > 0
    ensures r.0.Name == f.names[0] && r.0.Type == f.typeText && r.0.LowerName == LowerCamel(f.names[0])
    ensures f.tag.None? ==> r.0.GormName == SnakeCase(f.names[0]) && !r.1
    ensures f.tag.Some? ==> r.1 == GormTag(f.tag.value).1
    ensures f.tag.Some? && GormTag(f.tag.value).0 != "" ==> r.0.GormName == GormTag(f.tag.value).0
    ensures f.tag.Some? && GormTag(f.tag.value).0 == "" ==> r.0.GormName == SnakeCase(f.names[0])
  {
    var name := f.names[0];
    var settings := if f.tag.Some? then GormTag(f.tag.value) else ("", false);
    var column := if settings.0 == "" then SnakeCase(name) else settings.0;
    (FieldInfo(name, f.typeText, column, LowerCamel(name)), settings.1)
  }

  // ---------------------------------------------------------------------
  // parseEntityFile
  // ---------------------------------------------------------------------

  /** The descriptor while the traversal runs. */
  datatype Scan = Scan(entityName: string, lowerName: string, fields: seq<FieldInfo>,
                       primaryKey: FieldInfo, tableName: string)

  const EmptyScan := Scan("", "", [], NoField, "")

  /** The fields of one struct appended to a scan; a tagged field becomes the primary key. */
  function ScanFields(s: Scan, fields: seq<FieldNode>): (r: Scan)
    ensures r.entityName == s.entityName && r.lowerName == s.lowerName && r.tableName == s.tableName
    ensures |s.fields| <= |r.fields| <= |s.fields| + |fields|
    ensures r.fields[..|s.fields|] == s.fields
  {
    if |fields| == 0 then s
    else
      var init := ScanFields(s, fields[..|fields| - 1]);
      var f := fields[|fields| - 1];
      if |f.names| == 0 then init
      else
        var (info, pk) := FieldOf(f);
        assert (init.fields + [info])[..|s.fields|] == init.fields[..|s.fields|];
        init.(fields := init.fields + [info], primaryKey := if pk then info else init.primaryKey)
  }

  /** The effect of one visited node. */
  function Visit(s: Scan, n: EntityNode): Scan {
    match n
    case StructSpec(name, fields) => ScanFields(s.(entityName := name, lowerName := LowerCamel(name)), fields)
    case TableNameFunc(Some(lit)) => s.(tableName := TrimChar(lit, '"'))
    case _ => s
  }

  /** The scan after visiting the nodes in order. */
  function ScanNodes(nodes: seq<EntityNode>): Scan {
    if |nodes| == 0 then EmptyScan
    else Visit(ScanNodes(nodes[..|nodes| - 1]), nodes[|nodes| - 1])
  }

  datatype EntityError = EntityUnparsable | NoStruct | NoPrimaryKey

  /** The descriptor for a scanned file: a struct and a primary key are required, the table name defaults. */
  function Finish(s: Scan, projectModule: string): (r: Result<EntityInfo, EntityError>)
    ensures s.entityName == "" ==> r == Failure(NoStruct)
    ensures s.entityName != "" && s.primaryKey.Name == "" ==> r == Failure(NoPrimaryKey)
    ensures r.Success? ==> r.value.EntityName == s.entityName && r.value.Fields == s.fields
                           && r.value.PrimaryKey == s.primaryKey && r.value.PrimaryKey.Name != ""
    ensures r.Success? && s.tableName == "" ==> r.value.TableName == SnakeCase(s.entityName) + "s"
    ensures r.Success? && s.tableName != "" ==> r.value.TableName == s.tableName
  {
    if s.entityName == "" then Failure(NoStruct)
    else if s.primaryKey.Name == "" then Failure(NoPrimaryKey)
    else
      var table := if s.tableName == "" then SnakeCase(s.entityName) + "s" else s.tableName;
      Success(EntityInfo(projectModule, s.entityName, s.lowerName, table, s.primaryKey, s.fields))
  }

  /** parseEntityFile as a value. */
  function ParseEntitySpec(nodes: Option<seq<EntityNode>>, projectModule: string): Result<EntityInfo, EntityError> {
    match nodes
    case None => Failure(EntityUnparsable)
    case Some(ns) => Finish(ScanNodes(ns), projectModule)
  }

  /** The loop over a struct's fields: each named field is appended, and a tagged one becomes the primary key. */
  method ScanStructFields(start: Scan, fields: seq<FieldNode>) returns (scan: Scan)
    ensures scan == ScanFields(start, fields)
  {
    scan := start;
    var j := 0;
    while j < |fields|
      invariant j <= |fields|
      invariant scan == ScanFields(start, fields[..j])
    {
      assert fields[..j + 1][..j] == fields[..j];
      var f := fields[j];
      if |f.names| > 0 {
        var (info, pk) := FieldOf(f);
        scan := scan.(fields := scan.fields + [info]);
        if pk {
          scan := scan.(primaryKey := info);
        }
      }
      j := j + 1;
    }
    assert fields[..j] == fields;
  }

  /** One node of the traversal: a struct sets the names and appends its fields, TableName sets the table name. */
  method VisitNode(scan: Scan, n: EntityNode) returns (r: Scan)
    ensures r == Visit(scan, n)
  {
    r := scan;
    match n {
      case StructSpec(name, fields) =>
        r := ScanStructFields(scan.(entityName := name, lowerName := LowerCamel(name)), fields);
      case TableNameFunc(returned) =>
        if returned.Some? {
          r := scan.(tableName := TrimChar(returned.value, '"'));
        }
      case OtherNode =>
    }
  }

  /** parseEntityFile: the traversal assigns the descriptor's fields as it meets structs and TableName. */
  method ParseEntityFile(nodes: Option<seq<EntityNode>>, projectModule: string) returns (r: Result<EntityInfo, EntityError>)
    ensures r == ParseEntitySpec(nodes, projectModule)
  {
    if nodes.None? {
      return Failure(EntityUnparsable);
    }
    var ns := nodes.value;
    var scan := EmptyScan;
    var i := 0;
    while i < |ns|
      invariant i <= |ns|
      invariant scan == ScanNodes(ns[..i])
    {
      assert ns[..i + 1][..i] == ns[..i];
      scan := VisitNode(scan, ns[i]);
      i := i + 1;
    }
    assert ns[..i] == ns;
    r := Finish(scan, projectModule);
  }

  /** A file without a struct yields no descriptor. */
  lemma {:induction false} NoStructScan(nodes: seq<EntityNode>)
    requires forall i :: 0 <= i < |nodes| ==> !nodes[i].StructSpec?
    ensures ScanNodes(nodes).entityName == "" && ScanNodes(nodes).primaryKey == NoField
    decreases |nodes|
  {
    if |nodes| > 0 {
      NoStructScan(nodes[..|nodes| - 1]);
    }
  }

  lemma NoStructNoEntity(nodes: seq<EntityNode>, projectModule: string)
    requires forall i :: 0 <= i < |nodes| ==> !nodes[i].StructSpec?
    ensures ParseEntitySpec(Some(nodes), projectModule) == Failure(NoStruct)
  {
    NoStructScan(nodes);
  }

  /** Fields accumulate over every struct of the file, in order. */
  lemma {:induction false} ScanFieldsAppend(s: Scan, a: seq<FieldNode>, b: seq<FieldNode>)
    ensures ScanFields(s, a + b) == ScanFields(ScanFields(s, a), b)
    decreases |b|
  {
    if |b| == 0 {
      assert a + b == a;
    } else {
      assert (a + b)[..|a + b| - 1] == a + b[..|b| - 1];
      ScanFieldsAppend(s, a, b[..|b| - 1]);
    }
  }

  /** The entity is the last struct of the file; later nodes keep its name. */
  lemma {:induction false} LastStructNames(nodes: seq<EntityNode>, i: nat)
    requires i < |nodes| && nodes[i].StructSpec?
    requires forall j :: i < j < |nodes| ==> !nodes[j].StructSpec?
    ensures ScanNodes(nodes).entityName == nodes[i].name
    ensures ScanNodes(nodes).lowerName == LowerCamel(nodes[i].name)
    decreases |nodes|
  {
    if i < |nodes| - 1 {
      LastStructNames(nodes[..|nodes| - 1], i);
    }
  }

  /** Scanning a struct keeps the fields seen before and adds one per named field. */
  lemma {:induction false} ScanFieldsCount(s: Scan, fields: seq<FieldNode>)
    ensures |ScanFields(s, fields).fields| == |s.fields| + |NamedFields(fields)|
    decreases |fields|
  {
    if |fields| > 0 {
      ScanFieldsCount(s, fields[..|fields| - 1]);
      assert NamedFields(fields) == NamedFields(fields[..|fields| - 1]) +
        (if |fields[|fields| - 1].names| > 0 then [fields[|fields| - 1]] else []);
    }
  }

  /** The fields with names: embedded fields are skipped. */
  function NamedFields(fields: seq<FieldNode>): (r: seq<FieldNode>)
    ensures forall i :: 0 <= i < |r| ==> |r[i].names| > 0
  {
    if |fields| == 0 then []
    else
      var last := fields[|fields| - 1];
      NamedFields(fields[..|fields| - 1]) + (if |last.names| > 0 then [last] else [])
  }

  /** The primary key is the last tagged field: later untagged fields do not replace it. */
  lemma {:induction false} LastPrimaryKeyWins(s: Scan, fields: seq<FieldNode>, i: nat)
    requires i < |fields| && |fields[i].names| > 0 && FieldOf(fields[i]).1
    requires forall j :: i < j < |fields| && |fields[j].names| > 0 ==> !FieldOf(fields[j]).1
    ensures ScanFields(s, fields).primaryKey == FieldOf(fields[i]).0
    decreases |fields|
  {
    var init := fields[..|fields| - 1];
    var last := fields[|fields| - 1];
    if i < |fields| - 1 {
      assert init[i] == fields[i];
      forall j | i < j < |init| && |init[j].names| > 0
        ensures !FieldOf(init[j]).1
      {
        assert init[j] == fields[j];
      }
      LastPrimaryKeyWins(s, init, i);
      assert |last.names| > 0 ==> !FieldOf(last).1;
    } else {
      assert last == fields[i];
    }
  }

  /** Without a TableName function the table is the snake-case entity with an `s`, not the plural rule. */
  lemma DefaultTableName(s: Scan, projectModule: string)
    requires s.entityName != "" && s.primaryKey.Name != "" && s.tableName == ""
    ensures Finish(s, projectModule).Success?
    ensures HasSuffix(Finish(s, projectModule).value.TableName, "s")
    ensures Finish(s, projectModule).value.TableName == SnakeCase(s.entityName) + "s"
  {
    var t := SnakeCase(s.entityName) + "s";
    assert t[|t| - 1..] == "s";
  }

  /** The two table-name rules disagree for an entity ending in `y`: "Category" gives "categorys" here. */
  lemma DefaultTableNameNotPlural()
    ensures SnakeCase("Category") + "s" == "categorys"
    ensures PluralSnakeCase("Category") == "categories"
    ensures SnakeCase("Category") + "s" != PluralSnakeCase("Category")
  {
    PluralSnakeCaseCategory();
  }

  // ---------------------------------------------------------------------
  // generateCode
  // ---------------------------------------------------------------------

  /** The packages generate writes, one file each. */
  const GeneratedPackages := ["model", "repository", "service", "handler"]

  /** The file written for a package: the model file has no package suffix. */
  function TargetFile(pkg: string, entity: string): (r: string)
    ensures HasPrefix(r, "internal/" + pkg + "/")
  {
    var dir := "internal/" + pkg + "/";
    var r := if pkg == "model" then dir + SnakeCase(entity) + ".go"
             else dir + SnakeCase(entity) + "_" + pkg + ".go";
    assert r[..|dir|] == dir;
    r
  }

  /** The embedded template a package is rendered from. */
  function TemplateFile(pkg: string): string {
    "tmpl/generate/" + pkg + ".go.tmpl"
  }

  /**
   * The generated files over the working tree. An existing file is
   * skipped unless forced; a template that fails to render skips its file.
   */
  function GenerateSpec(d: Disk, entity: string, force: bool, pkgs: seq<string>,
                        render: string -> Option<string>): Disk
    decreases |pkgs|
  {
    if |pkgs| == 0 then d
    else
      var path := TargetFile(pkgs[0], entity);
      var text := render(TemplateFile(pkgs[0]));
      var d1 := if (d.Exists(path) && !force) || text.None? then d else d.Write(path, text.value);
      GenerateSpec(d1, entity, force, pkgs[1..], render)
  }

  /** generateCode: one pass over the four packages with skip-and-continue. */
  method GenerateCode(tree: Tree, entity: string, force: bool, render: string -> Option<string>)
    modifies tree
    ensures tree.State() == GenerateSpec(old(tree.State()), entity, force, GeneratedPackages, render)
  {
    var pkgs := GeneratedPackages;
    var i := 0;
    while i < |pkgs|
      invariant i <= |pkgs|
      invariant GenerateSpec(old(tree.State()), entity, force, pkgs, render)
             == GenerateSpec(tree.State(), entity, force, pkgs[i..], render)
    {
      assert pkgs[i..][1..] == pkgs[i + 1..];
      var path := TargetFile(pkgs[i], entity);
      if tree.State().Exists(path) && !force {
        i := i + 1;
        continue;
      }
      var text := render(TemplateFile(pkgs[i]));
      if text.None? {
        i := i + 1;
        continue;
      }
      tree.Write(path, text.value);
      i := i + 1;
    }
  }

  /** The generated packages name four distinct files, so the order they are visited in does not matter. */
  lemma GeneratedFilesDistinct(entity: string)
    ensures forall i, j :: 0 <= i < j < |GeneratedPackages| ==>
              TargetFile(GeneratedPackages[i], entity) != TargetFile(GeneratedPackages[j], entity)
  {
    forall i, j | 0 <= i < j < |GeneratedPackages|
      ensures TargetFile(GeneratedPackages[i], entity) != TargetFile(GeneratedPackages[j], entity)
    {
      var a := TargetFile(GeneratedPackages[i], entity);
      var b := TargetFile(GeneratedPackages[j], entity);
      assert a[9] == GeneratedPackages[i][0];
      assert b[9] == GeneratedPackages[j][0];
    }
  }

  /**
   * What generate leaves at one target file: the file as it was when it
   * exists and is not forced or its template fails, the rendered text otherwise.
   */
  lemma {:induction false} GenerateAt(d: Disk, entity: string, force: bool, pkgs: seq<string>,
                                      render: string -> Option<string>, k: nat)
    requires k < |pkgs|
    requires forall i, j :: 0 <= i < j < |pkgs| ==> TargetFile(pkgs[i], entity) != TargetFile(pkgs[j], entity)
    ensures var path := TargetFile(pkgs[k], entity);
            var text := render(TemplateFile(pkgs[k]));
            GenerateSpec(d, entity, force, pkgs, render).Read(path)
              == if (d.Exists(path) && !force) || text.None? then d.Read(path) else Content(text.value)
    decreases |pkgs|
  {
    var path := TargetFile(pkgs[0], entity);
    var text := render(TemplateFile(pkgs[0]));
    var d1 := if (d.Exists(path) && !force) || text.None? then d else d.Write(path, text.value);
    assert GenerateSpec(d, entity, force, pkgs, render) == GenerateSpec(d1, entity, force, pkgs[1..], render);
    DistinctTail(pkgs, entity);
    if k == 0 {
      GenerateUntouched(d1, entity, force, pkgs[1..], render, path);
    } else {
      var p := TargetFile(pkgs[k], entity);
      assert p != path;
      assert d1.Read(p) == d.Read(p) && d1.Exists(p) == d.Exists(p);
      assert pkgs[1..][k - 1] == pkgs[k];
      GenerateAt(d1, entity, force, pkgs[1..], render, k - 1);
    }
  }

  /** The packages after the first still name distinct files, none of them the first one's. */
  lemma DistinctTail(pkgs: seq<string>, entity: string)
    requires |pkgs| > 0
    requires forall i, j :: 0 <= i < j < |pkgs| ==> TargetFile(pkgs[i], entity) != TargetFile(pkgs[j], entity)
    ensures forall i, j :: 0 <= i < j < |pkgs[1..]| ==> TargetFile(pkgs[1..][i], entity) != TargetFile(pkgs[1..][j], entity)
    ensures forall i :: 0 <= i < |pkgs[1..]| ==> TargetFile(pkgs[1..][i], entity) != TargetFile(pkgs[0], entity)
  {
    forall i, j | 0 <= i < j < |pkgs[1..]|
      ensures TargetFile(pkgs[1..][i], entity) != TargetFile(pkgs[1..][j], entity)
    {
      assert pkgs[1..][i] == pkgs[i + 1] && pkgs[1..][j] == pkgs[j + 1];
    }
    forall i | 0 <= i < |pkgs[1..]|
      ensures TargetFile(pkgs[1..][i], entity) != TargetFile(pkgs[0], entity)
    {
      assert pkgs[1..][i] == pkgs[i + 1];
    }
  }

  /** A path none of the packages names is left alone. */
  lemma {:induction false} GenerateUntouched(d: Disk, entity: string, force: bool, pkgs: seq<string>,
                                             render: string -> Option<string>, path: string)
    requires forall i :: 0 <= i < |pkgs| ==> TargetFile(pkgs[i], entity) != path
    ensures GenerateSpec(d, entity, force, pkgs, render).Read(path) == d.Read(path)
    decreases |pkgs|
  {
    if |pkgs| > 0 {
      var p := TargetFile(pkgs[0], entity);
      var text := render(TemplateFile(pkgs[0]));
      var d1 := if (d.Exists(p) && !force) || text.None? then d else d.Write(p, text.value);
      GenerateUntouched(d1, entity, force, pkgs[1..], render, path);
    }
  }

  /** Without --force no existing file of the project is changed. */
  lemma GenerateKeepsExisting(d: Disk, entity: string, render: string -> Option<string>, k: nat)
    requires k < |GeneratedPackages| && d.Exists(TargetFile(GeneratedPackages[k], entity))
    ensures GenerateSpec(d, entity, false, GeneratedPackages, render).Read(TargetFile(GeneratedPackages[k], entity))
         == d.Read(TargetFile(GeneratedPackages[k], entity))
  {
    GeneratedFilesDistinct(entity);
    GenerateAt(d, entity, false, GeneratedPackages, render, k);
  }
}
