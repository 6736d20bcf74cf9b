/**
 * Path normalisation and the scope check (`write_scope.py`).
 *
 * JSON input is modelled as a value tree, so that every malformed scope the
 * program rejects can be written down and is rejected here for the same reason.
 */
module WriteScope {
  import opened Common
  import opened Text

  datatype Json = JNull | JBool(flag: bool) | JString(text: string) | JList(items: seq<Json>) | JOther

  type RawScope = Option<map<string, Json>>

  datatype Scope = Scope(paths: seq<string>, allowNewFiles: bool, allowProtectedPaths: bool)

  datatype ChangedPath = ChangedPath(path: string, status: string, isNewFile: bool)

  datatype ScopeError =
    | EmptyPath
    | AbsolutePath
    | Traversal
    | InvalidPath
    | BadMode
    | BadPaths
    | NotAString
    | BadNewFilesFlag
    | BadProtectedFlag
    | Violation(paths: seq<string>)

  // ---------------------------------------------------------------- characters

  /** The characters `str.strip()` removes. */
  predicate IsSpace(c: char) {
    var n := c as int;
    || 0x09 <= n <= 0x0D
    || 0x1C <= n <= 0x20
    || n == 0x85 || n == 0xA0 || n == 0x1680
    || 0x2000 <= n <= 0x200A
    || n == 0x2028 || n == 0x2029 || n == 0x202F || n == 0x205F || n == 0x3000
  }

  function StripLeft(s: string): (r: string)
    ensures |r| <= |s| && (r != [] ==> !IsSpace(r[0]))
    ensures forall c :: c in r ==> c in s
  {
    if s == [] || !IsSpace(s[0]) then s else StripLeft(s[1..])
  }

  function StripRight(s: string): (r: string)
    ensures r <= s && (r != [] ==> !IsSpace(r[|r| - 1]))
  {
    if s == [] || !IsSpace(s[|s| - 1]) then s else StripRight(s[..|s| - 1])
  }

  function Strip(s: string): (r: string)
    ensures |r| <= |s|
    ensures forall c :: c in r ==> c in s
  {
    StripRight(StripLeft(s))
  }

  predicate OuterSpace(s: string) {
    s != [] && (IsSpace(s[0]) || IsSpace(s[|s| - 1]))
  }

  function Slashed(s: string): (r: string)
    ensures |r| == |s| && '\\' !in r
    ensures '\\' !in s ==> r == s
  {
    if s == [] then []
    else [if s[0] == '\\' then '/' else s[0]] + Slashed(s[1..])
  }

  predicate IsLetter(c: char) {
    'A' <= c <= 'Z' || 'a' <= c <= 'z'
  }

  /** `C:` alone or `C:/...`. */
  predicate LooksLikeDrive(s: string) {
    |s| >= 2 && IsLetter(s[0]) && s[1] == ':' && (|s| == 2 || s[2] == '/')
  }

  // ---------------------------------------------------------------- components

  function Kept(parts: seq<string>): (kept: seq<string>)
    ensures forall c :: c in kept ==> c in parts && c != "" && c != "."
  {
    if parts == [] then []
    else if parts[0] == "" || parts[0] == "." then Kept(parts[1..])
    else [parts[0]] + Kept(parts[1..])
  }

  /** `PurePosixPath(value).parts` for a value that does not start with a slash. */
  function Components(value: string): seq<string> {
    Kept(Split(value, '/'))
  }

  predicate Clean(cs: seq<string>) {
    Free(cs, '/') && forall i | 0 <= i < |cs| :: cs[i] != "" && cs[i] != "."
  }

  // ------------------------------------------------------------- normalisation

  function NormalizePath(raw: string): Result<string, ScopeError> {
    var value := Slashed(Strip(raw));
    if value == "" then Err(EmptyPath)
    else if value == "." then Ok(value)
    else if StartsWith(value, "/") || LooksLikeDrive(value) then Err(AbsolutePath)
    else
      var parts := Components(value);
      if ".." in parts then Err(Traversal)
      else if parts == [] then Err(InvalidPath)
      else Ok(Join(parts, '/') + if EndsWith(value, "/") then "/" else "")
  }

  function Get(raw: map<string, Json>, key: string): Option<Json> {
    if key in raw then Some(raw[key]) else None
  }

  /** The path list, entry by entry in order, each new result kept at its first place. */
  function NormalizeEntries(items: seq<Json>, done: seq<string>): Result<seq<string>, ScopeError>
    decreases |items|
  {
    if items == [] then Ok(done)
    else if !items[0].JString? then Err(NotAString)
    else
      var n :- NormalizePath(items[0].text);
      NormalizeEntries(items[1..], if n in done then done else done + [n])
  }

  function Flag(raw: map<string, Json>, key: string, error: ScopeError): Result<bool, ScopeError> {
    match Get(raw, key)
    case None => Ok(false)
    case Some(JBool(b)) => Ok(b)
    case Some(_) => Err(error)
  }

  const DEFAULT_SCOPE := Scope(["."], false, false)

  function NormalizeScope(raw: RawScope): Result<Scope, ScopeError> {
    if raw.None? then Ok(DEFAULT_SCOPE)
    else if Get(raw.value, "mode") != Some(JString("paths")) then Err(BadMode)
    else match Get(raw.value, "paths")
      case Some(JList(items)) =>
        if items == [] then Err(BadPaths)
        else
          var paths :- NormalizeEntries(items, []);
          var newFiles :- Flag(raw.value, "allow_new_files", BadNewFilesFlag);
          var protected :- Flag(raw.value, "allow_protected_paths", BadProtectedFlag);
          Ok(Scope(paths, newFiles, protected))
      case _ => Err(BadPaths)
  }

  /** `normalize_write_scope` as the loop it is. */
  method NormalizeWriteScope(raw: RawScope) returns (r: Result<Scope, ScopeError>)
    ensures r == NormalizeScope(raw)
  {
    if raw.None? { return Ok(DEFAULT_SCOPE); }
    if Get(raw.value, "mode") != Some(JString("paths")) { return Err(BadMode); }
    var listed := Get(raw.value, "paths");
    if listed.None? || !listed.value.JList? || listed.value.items == [] { return Err(BadPaths); }
    var items := listed.value.items;
    var paths: seq<string> := [];
    for i := 0 to |items|
      invariant NormalizeEntries(items, []) == NormalizeEntries(items[i..], paths)
    {
      if !items[i].JString? { return Err(NotAString); }
      var n := NormalizePath(items[i].text);
      if n.Err? { return Err(n.error); }
      if n.value !in paths { paths := paths + [n.value]; }
      assert items[i..][1..] == items[i + 1..];
    }
    assert items[|items|..] == [];
    var newFiles := Flag(raw.value, "allow_new_files", BadNewFilesFlag);
    if newFiles.Err? { return Err(newFiles.error); }
    var protected := Flag(raw.value, "allow_protected_paths", BadProtectedFlag);
    if protected.Err? { return Err(protected.error); }
    return Ok(Scope(paths, newFiles.value, protected.value));
  }

  // --------------------------------------------------------------- scope check

  function TrimSlashes(s: string): (r: string)
    ensures |r| <= |s|
    ensures r != [] ==> r[0] != '/' && r[|r| - 1] != '/'
    ensures '\\' !in s ==> '\\' !in r
  {
    if s == [] then []
    else if s[0] == '/' then TrimSlashes(s[1..])
    else if s[|s| - 1] == '/' then TrimSlashes(s[..|s| - 1])
    else s
  }

  function TrimRightSlashes(s: string): (r: string)
    ensures r <= s
  {
    if s == [] || s[|s| - 1] != '/' then s else TrimRightSlashes(s[..|s| - 1])
  }

  function NormalizeChanged(path: string): Result<string, ScopeError> {
    var trimmed := TrimSlashes(Slashed(path));
    if trimmed == "" || ".." in Components(trimmed) then Err(Violation([path]))
    else Ok(Join(Components(trimmed), '/'))
  }

  const SENSITIVE_DIRS := {"secrets", "artifacts", "credentials", "runtime-data"}

  predicate IsSensitive(path: string) {
    var parts := Split(path, '/');
    var filename := parts[|parts| - 1];
    || filename == ".env" || StartsWith(filename, ".env.")
    || (exists i | 0 <= i < |parts| :: parts[i] in SENSITIVE_DIRS)
    || EndsWith(filename, ".sqlite") || EndsWith(filename, ".db") || EndsWith(filename, ".key")
  }

  /** One turn of the loop over `scope["paths"]`, on the text of the entry. */
  predicate TextCovers(entry: string, path: string) {
    if entry == "." then true
    else if EndsWith(entry, "/") then
      var prefix := TrimRightSlashes(entry);
      path == prefix || StartsWith(path, prefix + "/")
    else path == entry
  }

  function IsPathAllowed(relative: string, scope: Scope, isNewFile: bool): Result<bool, ScopeError> {
    var path :- NormalizeChanged(relative);
    if IsSensitive(path) && !scope.allowProtectedPaths then Ok(false)
    else if isNewFile && !scope.allowNewFiles then Ok(false)
    else Ok(exists i | 0 <= i < |scope.paths| :: TextCovers(scope.paths[i], path))
  }

  /** The denied paths in order; an unsafe path stops the comprehension. */
  function Denied(changes: seq<ChangedPath>, scope: Scope): Result<seq<string>, ScopeError> {
    if changes == [] then Ok([])
    else
      var allowed :- IsPathAllowed(changes[0].path, scope, changes[0].isNewFile);
      var rest :- Denied(changes[1..], scope);
      Ok((if allowed then [] else [changes[0].path]) + rest)
  }

  function ValidateChangedPaths(changes: seq<ChangedPath>, raw: RawScope): Result<Scope, ScopeError> {
    var scope :- NormalizeScope(raw);
    var denied :- Denied(changes, scope);
    if denied != [] then Err(Violation(denied)) else Ok(scope)
  }
}
