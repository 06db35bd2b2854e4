/**
 * Catalog paths (io/path.rs) and the relocation of a table file's path when the file is scheduled
 * for deletion. URLs are plain segment strings: no percent-encoding and no dot segments.
 */
module Paths {
  import opened Prelude

  /** A URL split as `scheme:` `//authority` `path`; printing concatenates the parts. */
  datatype Url = Url(scheme: string, authority: string, path: string) {
    function ToString(): string { scheme + authority + path }
  }

  datatype DucklakePath = Absolute(url: Url) | Relative(path: string) {
    /** `as_str`. */
    function AsStr(): string {
      match this
      case Absolute(url) => url.ToString()
      case Relative(path) => path
    }
  }

  /** The length of the longest prefix without the character `c`. */
  function Until(s: string, c: char): (n: nat)
    ensures n <= |s| && c !in s[..n] && (n < |s| ==> s[n] == c)
  {
    if s == [] || s[0] == c then 0 else 1 + Until(s[1..], c)
  }

  predicate IsSchemeStart(c: char) { 'a' <= c <= 'z' || 'A' <= c <= 'Z' }

  predicate IsSchemeChar(c: char) {
    IsSchemeStart(c) || '0' <= c <= '9' || c == '+' || c == '-' || c == '.'
  }

  /** The reference starts with `scheme:`, so it is a URL of its own (RFC 3986 section 4.2). */
  predicate HasScheme(s: string) {
    var n := Until(s, ':');
    0 < n < |s| && IsSchemeStart(s[0]) && forall i | 0 <= i < n :: IsSchemeChar(s[i])
  }

  predicate StartsWith(s: string, prefix: string) { |prefix| <= |s| && s[..|prefix|] == prefix }

  predicate EndsWithSlash(s: string) { s != [] && s[|s| - 1] == '/' }

  /** Split what follows the scheme into authority and path. */
  function ParseHierarchy(scheme: string, rest: string): (u: Url)
    ensures u.ToString() == scheme + rest
  {
    if StartsWith(rest, "//") then
      var n := 2 + Until(rest[2..], '/');
      assert rest == rest[..n] + rest[n..];
      assert scheme + rest[..n] + rest[n..] == scheme + rest;
      Url(scheme, rest[..n], rest[n..])
    else
      Url(scheme, "", rest)
  }

  /** The path up to and including its last slash. */
  function Directory(path: string): (d: string)
    ensures d <= path
    ensures EndsWithSlash(path) ==> d == path
  {
    if path == [] || EndsWithSlash(path) then path else Directory(path[..|path| - 1])
  }

  /** `Url::join`: the reference resolution of RFC 3986 section 5.2. */
  function UrlJoin(base: Url, reference: string): Url {
    if HasScheme(reference) then
      var n := Until(reference, ':') + 1;
      ParseHierarchy(reference[..n], reference[n..])
    else if StartsWith(reference, "//") then ParseHierarchy(base.scheme, reference)
    else if StartsWith(reference, "/") then base.(path := reference)
    else if reference == "" then base
    else base.(path := Directory(base.path) + reference)
  }

  /** `DucklakePath::join`; `None` is the failed assertion on a relative base that is no directory. */
  function Join(base: DucklakePath, other: DucklakePath): Option<DucklakePath> {
    match (base, other)
    case (_, Absolute(_)) => Some(other)
    case (Absolute(url), Relative(path)) => Some(Absolute(UrlJoin(url, path)))
    case (Relative(dir), Relative(path)) =>
      if EndsWithSlash(dir) then Some(Relative(dir + path)) else None
  }

  /** `ensure_directory`. */
  function EnsureDirectory(p: DucklakePath): (d: DucklakePath)
    ensures IsDirectory(d)
    ensures IsDirectory(p) ==> d == p
    ensures StartsWith(d.AsStr(), p.AsStr())
  {
    match p
    case Absolute(url) =>
      if EndsWithSlash(url.path) then p
      else
        var slashed := url.(path := url.path + "/");
        assert slashed.ToString() == url.ToString() + "/";
        Absolute(slashed)
    case Relative(path) => if EndsWithSlash(path) then p else Relative(path + "/")
  }

  predicate IsDirectory(p: DucklakePath) {
    match p
    case Absolute(url) => EndsWithSlash(url.path)
    case Relative(path) => EndsWithSlash(path)
  }

  /** `build_deletion_file_path` for a file of a table whose data lives under `tableDataPath`. */
  function BuildDeletionFilePath(path: DucklakePath, tableDataPath: DucklakePath, dataPath: DucklakePath)
    : Option<DucklakePath>
  {
    if path.Absolute? then Some(path)
    else
      match Join(tableDataPath, path)
      case None => None
      case Some(full) => Some(RelativeToCatalog(full, dataPath))
  }

  /** Strip the catalog's data path from a location that starts with it. */
  function RelativeToCatalog(full: DucklakePath, dataPath: DucklakePath): DucklakePath {
    if StartsWith(full.AsStr(), dataPath.AsStr()) then Relative(full.AsStr()[|dataPath.AsStr()|..]) else full
  }

  /** The reference resolves under the base's directory, whatever the base. */
  predicate IsPathReference(s: string) { s == "" || (s[0] != '/' && !HasScheme(s)) }

  /** The rest of the location after the data path, when it lies under the data path. */
  function SuffixUnder(full: DucklakePath, dataPath: DucklakePath): string {
    if StartsWith(full.AsStr(), dataPath.AsStr()) then full.AsStr()[|dataPath.AsStr()|..] else ""
  }

  /**
   * Clean-up resolves the scheduled path against the catalog's data path; this names the same
   * location as the table did exactly when what follows the data path is a plain path reference.
   */
  lemma ScheduledPathKeepsLocation(path: DucklakePath, dataPath: DucklakePath,
                                   schemaPath: DucklakePath, tablePath: DucklakePath)
    requires IsDirectory(dataPath)
    requires QueriedDataPath(dataPath, schemaPath, tablePath).Some?
    requires Join(QueriedDataPath(dataPath, schemaPath, tablePath).value, path).Some?
    ensures
      var tableDataPath := QueriedDataPath(dataPath, schemaPath, tablePath).value;
      var full := Join(tableDataPath, path).value;
      var scheduled := BuildDeletionFilePath(path, tableDataPath, dataPath);
      scheduled.Some?
      && Join(dataPath, scheduled.value).Some?
      && (Join(dataPath, scheduled.value).value.AsStr() == full.AsStr()
          <==> path.Absolute? || dataPath.Relative? || IsPathReference(SuffixUnder(full, dataPath)))
  {
    var tableDataPath := QueriedDataPath(dataPath, schemaPath, tablePath).value;
    var full := Join(tableDataPath, path).value;
    if path.Relative? {
      QueriedKind(dataPath, schemaPath, tablePath);
      if full.Relative? {
        assert full.path == tableDataPath.path + path.path;
        assert full.path[..|dataPath.path|] == tableDataPath.path[..|dataPath.path|];
      }
      RelativeToCatalogKeepsLocation(full, dataPath);
    }
  }

  /** A table directory is as absolute as the data path, and under it when both are relative. */
  lemma QueriedKind(dataPath: DucklakePath, schemaPath: DucklakePath, tablePath: DucklakePath)
    requires QueriedDataPath(dataPath, schemaPath, tablePath).Some?
    ensures
      var directory := QueriedDataPath(dataPath, schemaPath, tablePath).value;
      (dataPath.Absolute? ==> directory.Absolute?)
      && (directory.Relative? ==> StartsWith(directory.path, dataPath.path))
  {
    var directory := QueriedDataPath(dataPath, schemaPath, tablePath).value;
    if directory.Relative? {
      assert directory.path == dataPath.path + schemaPath.path + tablePath.path;
    }
  }

  lemma RelativeToCatalogKeepsLocation(full: DucklakePath, dataPath: DucklakePath)
    requires IsDirectory(dataPath)
    requires dataPath.Absolute? ==> full.Absolute?
    requires full.Relative? ==> StartsWith(full.path, dataPath.path)
    ensures
      var stored := RelativeToCatalog(full, dataPath);
      Join(dataPath, stored).Some?
      && (Join(dataPath, stored).value.AsStr() == full.AsStr()
          <==> dataPath.Relative? || IsPathReference(SuffixUnder(full, dataPath)))
  {
    if StartsWith(full.AsStr(), dataPath.AsStr()) {
      var suffix := SuffixUnder(full, dataPath);
      assert full.AsStr() == dataPath.AsStr() + suffix;
      if dataPath.Absolute? {
        UnderDirectory(dataPath.url, suffix);
      }
    }
  }

  /** Joining a reference to a directory appends it exactly when it is a path reference. */
  lemma UnderDirectory(base: Url, suffix: string)
    requires EndsWithSlash(base.path)
    ensures UrlJoin(base, suffix).ToString() == base.ToString() + suffix <==> IsPathReference(suffix)
  {
    hide ParseHierarchy, Until, IsSchemeChar, IsSchemeStart;
    if HasScheme(suffix) {
      var n := Until(suffix, ':') + 1;
      assert suffix[..n] + suffix[n..] == suffix;
      assert |UrlJoin(base, suffix).ToString()| == |suffix|;
    } else if StartsWith(suffix, "//") {
      assert |UrlJoin(base, suffix).ToString()| == |base.scheme| + |suffix|;
    } else if StartsWith(suffix, "/") {
      assert |UrlJoin(base, suffix).ToString()| == |base.scheme| + |base.authority| + |suffix|;
    } else if suffix == "" {
      assert base.ToString() + suffix == base.ToString();
    } else {
      assert base.scheme + base.authority + (base.path + suffix) == base.ToString() + suffix;
    }
  }

  /** A location with an empty segment right after the data path is scheduled under another name. */
  lemma ScheduledPathCanMove(rest: string)
    ensures
      var data := Absolute(Url("s3:", "//b", "/l/"));
      var full := Absolute(Url("s3:", "//b", "/l//" + rest));
      Join(data, RelativeToCatalog(full, data)).Some?
      && Join(data, RelativeToCatalog(full, data)).value.AsStr() != full.AsStr()
  {
    var data := Absolute(Url("s3:", "//b", "/l/"));
    var full := Absolute(Url("s3:", "//b", "/l//" + rest));
    assert full.AsStr() == data.AsStr() + ("/" + rest);
    assert full.AsStr()[..|data.AsStr()|] == data.AsStr();
    assert SuffixUnder(full, data) == "/" + rest;
    RelativeToCatalogKeepsLocation(full, data);
  }

  // ----- the two ways expiry learns where a table keeps its files -----

  /** `default_empty_string`: what loading the catalog puts in place of an empty stored path. */
  function OrNamed(path: DucklakePath, name: string): DucklakePath {
    if path == Relative("") then Relative(name + "/") else path
  }

  /** `TableView::data_path`: the directory of a table of the loaded catalog. */
  function CatalogDataPath(dataPath: DucklakePath, schemaName: string, schemaPath: DucklakePath,
                           tableName: string, tablePath: DucklakePath): Option<DucklakePath> {
    match Join(dataPath, OrNamed(schemaPath, schemaName))
    case None => None
    case Some(dir) => Join(dir, OrNamed(tablePath, tableName))
  }

  /** `query_table_data_path`: the directory of a table that the loaded catalog no longer has. */
  function QueriedDataPath(dataPath: DucklakePath, schemaPath: DucklakePath, tablePath: DucklakePath)
    : Option<DucklakePath>
  {
    match Join(dataPath, schemaPath)
    case None => None
    case Some(dir) => Join(dir, tablePath)
  }

  /**
   * The query forgets the default for empty stored paths: for paths kept as plain directories it
   * finds the table's directory exactly when the paths it needs are not empty.
   */
  lemma QueriedPathIsCatalogPath(dataPath: DucklakePath, schemaName: string, schemaPath: DucklakePath,
                                 tableName: string, tablePath: DucklakePath)
    requires IsDirectory(dataPath)
    requires schemaPath.Relative? ==>
               IsPathReference(schemaPath.path) && (schemaPath.path != "" ==> IsDirectory(schemaPath))
    requires schemaPath.Absolute? ==> IsDirectory(schemaPath)
    requires tablePath.Relative? ==> IsPathReference(tablePath.path)
    requires IsPathReference(schemaName + "/") && IsPathReference(tableName + "/")
    ensures QueriedDataPath(dataPath, schemaPath, tablePath).Some?
    ensures CatalogDataPath(dataPath, schemaName, schemaPath, tableName, tablePath).Some?
    ensures QueriedDataPath(dataPath, schemaPath, tablePath).value.AsStr()
              == CatalogDataPath(dataPath, schemaName, schemaPath, tableName, tablePath).value.AsStr()
       <==> tablePath.Absolute? || (schemaPath != Relative("") && tablePath != Relative(""))
  {
    var named := OrNamed(schemaPath, schemaName);
    var queried, loaded := Join(dataPath, schemaPath).value, Join(dataPath, named).value;
    JoinedDirectory(dataPath, schemaPath);
    JoinedDirectory(dataPath, named);
    if tablePath.Relative? {
      JoinedDirectory(queried, tablePath);
      JoinedDirectory(loaded, OrNamed(tablePath, tableName));
    }
  }

  /**
   * For paths kept as plain directories a table's files lie below the data path, then its schema's
   * directory, then its own; an empty stored path stands for the name, an absolute one for itself.
   */
  lemma TableDirectoryIs(dataPath: DucklakePath, schemaName: string, schemaPath: DucklakePath,
                         tableName: string, tablePath: DucklakePath)
    requires IsDirectory(dataPath)
    requires schemaPath.Relative? ==>
               IsPathReference(schemaPath.path) && (schemaPath.path != "" ==> IsDirectory(schemaPath))
    requires schemaPath.Absolute? ==> IsDirectory(schemaPath)
    requires tablePath.Relative? ==> IsPathReference(tablePath.path)
    requires IsPathReference(schemaName + "/") && IsPathReference(tableName + "/")
    ensures
      var schema := if schemaPath.Absolute? then schemaPath.AsStr()
                    else dataPath.AsStr() + if schemaPath.path == "" then schemaName + "/" else schemaPath.path;
      var directory := CatalogDataPath(dataPath, schemaName, schemaPath, tableName, tablePath);
      && directory.Some?
      && directory.value.AsStr() == if tablePath.Absolute? then tablePath.AsStr()
                                    else schema + if tablePath.path == "" then tableName + "/" else tablePath.path
  {
    var named := OrNamed(schemaPath, schemaName);
    JoinedDirectory(dataPath, named);
    var schema := Join(dataPath, named).value;
    if tablePath.Relative? {
      JoinedDirectory(schema, OrNamed(tablePath, tableName));
    }
  }

  /** A table whose stored path is empty is looked for in its schema's directory once the head no longer has it. */
  lemma QueriedPathCanDiffer(tableName: string)
    requires IsPathReference(tableName + "/")
    ensures
      var data, schema := Absolute(Url("s3:", "//b", "/l/")), Relative("main/");
      && QueriedDataPath(data, schema, Relative("")).Some?
      && CatalogDataPath(data, "main", schema, tableName, Relative("")).Some?
      && QueriedDataPath(data, schema, Relative("")).value.AsStr()
         != CatalogDataPath(data, "main", schema, tableName, Relative("")).value.AsStr()
  {
    var data, schema := Absolute(Url("s3:", "//b", "/l/")), Relative("main/");
    assert Until("main/", ':') == 5;
    QueriedPathIsCatalogPath(data, "main", schema, tableName, Relative(""));
  }

  lemma JoinedDirectory(base: DucklakePath, other: DucklakePath)
    requires IsDirectory(base)
    requires other.Relative? ==> IsPathReference(other.path)
    ensures Join(base, other).Some?
    ensures other.Relative? ==> Join(base, other).value.AsStr() == base.AsStr() + other.path
    ensures other.Relative? && (other.path == "" || IsDirectory(other)) ==> IsDirectory(Join(base, other).value)
  {
    if base.Absolute? && other.Relative? {
      UnderDirectory(base.url, other.path);
    }
  }
}
