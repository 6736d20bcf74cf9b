/**
 * The scope check, stated on path components instead of text: what is covered,
 * exactly when validation succeeds, and what widening a scope can do.
 */
module WriteScopeCoverage {
  import opened Common
  import opened Text
  import opened WriteScope
  import opened WriteScopeNormalForm

  /** `entry` covers the file whose components are `cs`. */
  predicate Under(entry: string, cs: seq<string>) {
    if entry == "." then true
    else if EndsWith(entry, "/") then Components(entry) <= cs
    else Components(entry) == cs
  }

  predicate Safe(path: string) {
    NormalizeChanged(path).Ok?
  }

  /** The components of a path git reported. */
  function FileOf(path: string): seq<string> {
    Components(TrimSlashes(Slashed(path)))
  }

  /** What lies in such a directory is protected, however deep. */
  predicate ProtectedDir(name: string) {
    name == "secrets" || name == "artifacts" || name == "credentials" || name == "runtime-data"
  }

  predicate ProtectedName(name: string) {
    || name == ".env" || StartsWith(name, ".env.")
    || EndsWith(name, ".sqlite") || EndsWith(name, ".db") || EndsWith(name, ".key")
  }

  /** A protected file, by its components: by a directory on its way, or by its own name. */
  predicate SensitiveFile(cs: seq<string>) {
    (exists c :: c in cs && ProtectedDir(c)) || (cs != [] && ProtectedName(cs[|cs| - 1]))
  }

  predicate Acceptable(change: ChangedPath, scope: Scope) {
    && Safe(change.path)
    && (exists e :: e in scope.paths && Under(e, FileOf(change.path)))
    && (SensitiveFile(FileOf(change.path)) ==> scope.allowProtectedPaths)
    && (change.isNewFile ==> scope.allowNewFiles)
  }

  predicate NormalScope(scope: Scope) {
    forall e :: e in scope.paths ==> IsNormal(e)
  }

  function Rejected(changes: seq<ChangedPath>, scope: Scope): seq<string> {
    if changes == [] then []
    else (if Acceptable(changes[0], scope) then [] else [changes[0].path]) + Rejected(changes[1..], scope)
  }

  // --------------------------------------------------------- text and components

  lemma PrefixSplits(p: seq<string>, q: seq<string>)
    requires Clean(p) && p != [] && Clean(q) && q != []
    ensures StartsWith(Join(q, '/'), Join(p, '/') + "/") <==> p < q
  {
    var jp, jq := Join(p, '/'), Join(q, '/');
    SplitJoin(p, '/');
    SplitJoin(q, '/');
    if jp + "/" <= jq {
      var rest := jq[|jp| + 1..];
      assert jq == jp + ['/'] + rest;
      SplitConcat(jp, rest, '/');
      assert q == p + Split(rest, '/');
    }
    if p < q {
      assert q == p + q[|p|..];
      JoinConcat(p, q[|p|..], '/');
    }
  }

  lemma JoinInjective(p: seq<string>, q: seq<string>)
    requires Clean(p) && p != [] && Clean(q)
    ensures Join(p, '/') == Join(q, '/') <==> p == q
  {
    SplitJoin(p, '/');
    JoinEnds(p);
    if q != [] {
      SplitJoin(q, '/');
    }
  }

  lemma TrimRightOne(s: string)
    requires s != "" && s[|s| - 1] != '/'
    ensures TrimRightSlashes(s + "/") == s
  {
    assert (s + "/")[..|s|] == s;
  }

  /**
   * The textual test of `is_path_allowed` is the component-wise one: `apps/server/`
   * covers `apps/server` and everything below it, and never `apps/serverX`.
   */
  lemma TextCoversIsUnder(entry: string, cs: seq<string>)
    requires IsNormal(entry) && Clean(cs)
    ensures TextCovers(entry, Join(cs, '/')) <==> Under(entry, cs)
  {
    if entry != "." {
      var es := Components(entry);
      TrailingSlash(entry);
      JoinEnds(es);
      JoinInjective(es, cs);
      if EndsWith(entry, "/") {
        TrimRightOne(Join(es, '/'));
        if cs != [] {
          PrefixSplits(es, cs);
        }
      }
    }
  }

  lemma SensitiveDirs(name: string)
    ensures name in SENSITIVE_DIRS <==> ProtectedDir(name)
  {
  }

  /** The textual test for protected files is the one on components. */
  lemma SensitiveIsTextual(cs: seq<string>)
    requires Clean(cs)
    ensures IsSensitive(Join(cs, '/')) <==> SensitiveFile(cs)
  {
    if cs == [] {
      RootIsNotSensitive();
    } else {
      SplitJoin(cs, '/');
      forall i | 0 <= i < |cs| ensures cs[i] in SENSITIVE_DIRS <==> ProtectedDir(cs[i]) {
        SensitiveDirs(cs[i]);
      }
    }
  }

  lemma RootIsNotSensitive()
    ensures !IsSensitive("")
  {
    assert Split("", '/') == [""];
    assert "" !in SENSITIVE_DIRS;
  }

  /** Moved below other directories, a protected file stays protected; another becomes so only by one of them. */
  lemma SensitiveAtEveryDepth(d: seq<string>, f: seq<string>)
    requires f != []
    ensures SensitiveFile(d + f) <==> SensitiveFile(f) || exists c :: c in d && ProtectedDir(c)
  {
    assert forall c :: c in d + f <==> c in d || c in f;
    assert (d + f)[|d + f| - 1] == f[|f| - 1];
  }

  lemma AllowedIsAcceptable(change: ChangedPath, scope: Scope)
    requires NormalScope(scope)
    ensures IsPathAllowed(change.path, scope, change.isNewFile) ==
            if Safe(change.path) then Ok(Acceptable(change, scope)) else Err(Violation([change.path]))
  {
    if Safe(change.path) {
      var cs := FileOf(change.path);
      ComponentsClean(TrimSlashes(Slashed(change.path)));
      var path := Join(cs, '/');
      assert NormalizeChanged(change.path) == Ok(path);
      SensitiveIsTextual(cs);
      forall i | 0 <= i < |scope.paths| ensures TextCovers(scope.paths[i], path) <==> Under(scope.paths[i], cs) {
        assert scope.paths[i] in scope.paths;
        TextCoversIsUnder(scope.paths[i], cs);
      }
      if i :| 0 <= i < |scope.paths| && TextCovers(scope.paths[i], path) {
        assert scope.paths[i] in scope.paths && Under(scope.paths[i], cs);
      }
    }
  }

  // ----------------------------------------------------------------- validation

  predicate AllSafe(changes: seq<ChangedPath>) {
    forall i | 0 <= i < |changes| :: Safe(changes[i].path)
  }

  function FirstUnsafe(changes: seq<ChangedPath>): string
    requires !AllSafe(changes)
  {
    if !Safe(changes[0].path) then changes[0].path else FirstUnsafe(changes[1..])
  }

  lemma {:induction false} DeniedIsRejected(changes: seq<ChangedPath>, scope: Scope)
    requires NormalScope(scope)
    ensures Denied(changes, scope) ==
            if AllSafe(changes) then Ok(Rejected(changes, scope)) else Err(Violation([FirstUnsafe(changes)]))
  {
    if changes != [] {
      AllowedIsAcceptable(changes[0], scope);
      DeniedIsRejected(changes[1..], scope);
      assert AllSafe(changes) <==> Safe(changes[0].path) && AllSafe(changes[1..]);
    }
  }

  lemma {:induction false} RejectedNone(changes: seq<ChangedPath>, scope: Scope)
    ensures Rejected(changes, scope) == [] <==> forall c :: c in changes ==> Acceptable(c, scope)
  {
    if changes != [] {
      RejectedNone(changes[1..], scope);
      assert forall c :: c in changes <==> c == changes[0] || c in changes[1..];
    }
  }

  /**
   * Validation succeeds exactly when the scope normalises and every changed path is
   * safe, lies under an entry, and respects both flags. When paths are denied, the
   * error lists exactly the unacceptable ones in order; an unsafe path is reported
   * alone, the first one first.
   */
  lemma ValidationExact(changes: seq<ChangedPath>, raw: RawScope)
    ensures ValidateChangedPaths(changes, raw).Ok? <==>
              NormalizeScope(raw).Ok? && forall c :: c in changes ==> Acceptable(c, NormalizeScope(raw).value)
    ensures NormalizeScope(raw).Ok? && AllSafe(changes) && ValidateChangedPaths(changes, raw).Err? ==>
              ValidateChangedPaths(changes, raw).error == Violation(Rejected(changes, NormalizeScope(raw).value))
    ensures NormalizeScope(raw).Ok? && !AllSafe(changes) ==>
              ValidateChangedPaths(changes, raw) == Err(Violation([FirstUnsafe(changes)]))
    ensures NormalizeScope(raw).Err? ==> ValidateChangedPaths(changes, raw) == Err(NormalizeScope(raw).error)
  {
    if NormalizeScope(raw).Ok? {
      NormalizedScope(raw);
      var scope := NormalizeScope(raw).value;
      DeniedIsRejected(changes, scope);
      RejectedNone(changes, scope);
      if !AllSafe(changes) {
        var i :| 0 <= i < |changes| && !Safe(changes[i].path);
        assert changes[i] in changes && !Acceptable(changes[i], scope);
      }
    }
  }

  // ------------------------------------------------------------------- widening

  /** Everything `e` covers, `f` covers, judged on the entries alone. */
  predicate Widens(f: string, e: string) {
    || f == "." || f == e
    || (e != "." && EndsWith(f, "/") && Components(f) <= Components(e))
  }

  predicate Wider(large: Scope, small: Scope) {
    && (small.allowNewFiles ==> large.allowNewFiles)
    && (small.allowProtectedPaths ==> large.allowProtectedPaths)
    && (forall e :: e in small.paths ==> exists f :: f in large.paths && Widens(f, e))
  }

  /** The components of a file: some, and each a proper name. */
  predicate IsFile(cs: seq<string>) {
    Clean(cs) && cs != []
  }

  /** What an entry covers: everything, what lies at or below a directory, or one file. */
  datatype Shape = All | Below(parts: seq<string>) | Exactly(parts: seq<string>)

  function ShapeOf(entry: string): Shape {
    if entry == "." then All
    else if EndsWith(entry, "/") then Below(Components(entry))
    else Exactly(Components(entry))
  }

  predicate Covers(shape: Shape, cs: seq<string>) {
    match shape
    case All => true
    case Below(parts) => parts <= cs
    case Exactly(parts) => parts == cs
  }

  predicate ShapeWidens(f: Shape, e: Shape) {
    f.All? || f == e || (!e.All? && f.Below? && f.parts <= e.parts)
  }

  /** A file that `e` covers and `f`, unless it is wider, does not. */
  function Witness(f: Shape, e: Shape): seq<string> {
    match e
    case All => if !f.All? && f.parts != [] && f.parts[0] == ['x'] then [['y']] else [['x']]
    case Exactly(parts) => parts
    case Below(parts) => if f.Exactly? && f.parts == parts then parts + [['x']] else parts
  }

  lemma WitnessEscapes(f: Shape, e: Shape)
    requires (!f.All? ==> IsFile(f.parts)) && (!e.All? ==> IsFile(e.parts)) && !ShapeWidens(f, e)
    ensures IsFile(Witness(f, e)) && Covers(e, Witness(f, e)) && !Covers(f, Witness(f, e))
  {
    if e.Below? && f.Exactly? && f.parts == e.parts {
      assert |Witness(f, e)| == |f.parts| + 1;
    }
  }

  lemma NormalShape(entry: string)
    requires IsNormal(entry)
    ensures ShapeOf(entry) == All || IsFile(ShapeOf(entry).parts)
  {
    ComponentsClean(entry);
  }

  lemma SameShape(f: string, e: string)
    requires IsNormal(f) && IsNormal(e)
    ensures ShapeOf(f) == ShapeOf(e) <==> f == e
  {
    if f != "." { TrailingSlash(f); }
    if e != "." { TrailingSlash(e); }
  }

  /** For normalised entries `Widens` misses nothing: it is inclusion of the files covered. */
  lemma WidensExact(f: string, e: string)
    requires IsNormal(e) && IsNormal(f)
    ensures Widens(f, e) <==> forall cs: seq<string> :: IsFile(cs) && Under(e, cs) ==> Under(f, cs)
  {
    SameShape(f, e);
    assert Widens(f, e) <==> ShapeWidens(ShapeOf(f), ShapeOf(e));
    if !Widens(f, e) {
      NormalShape(f);
      NormalShape(e);
      WitnessEscapes(ShapeOf(f), ShapeOf(e));
      var cs := Witness(ShapeOf(f), ShapeOf(e));
      assert IsFile(cs) && Under(e, cs) && !Under(f, cs);
    }
  }

  /** A wider scope never rejects a change the narrower one let through. */
  lemma WideningKeeps(changes: seq<ChangedPath>, large: Scope, small: Scope)
    requires Wider(large, small)
    ensures forall c :: c in changes && Acceptable(c, small) ==> Acceptable(c, large)
    ensures forall p :: p in Rejected(changes, large) ==> p in Rejected(changes, small)
    ensures |Rejected(changes, large)| <= |Rejected(changes, small)|
  {
    forall c: ChangedPath | Acceptable(c, small) ensures Acceptable(c, large) {
      var e :| e in small.paths && Under(e, FileOf(c.path));
      var f :| f in large.paths && Widens(f, e);
      assert Under(f, FileOf(c.path));
    }
    RejectedShrinks(changes, large, small);
  }

  /** So widening the scope of a task never makes a validation fail. */
  lemma ValidationWidens(changes: seq<ChangedPath>, large: RawScope, small: RawScope)
    requires NormalizeScope(large).Ok? && NormalizeScope(small).Ok?
    requires Wider(NormalizeScope(large).value, NormalizeScope(small).value)
    ensures ValidateChangedPaths(changes, small).Ok? ==> ValidateChangedPaths(changes, large).Ok?
  {
    ValidationExact(changes, small);
    ValidationExact(changes, large);
    WideningKeeps(changes, NormalizeScope(large).value, NormalizeScope(small).value);
  }

  lemma {:induction false} RejectedShrinks(changes: seq<ChangedPath>, large: Scope, small: Scope)
    requires forall c :: c in changes && Acceptable(c, small) ==> Acceptable(c, large)
    ensures forall p :: p in Rejected(changes, large) ==> p in Rejected(changes, small)
    ensures |Rejected(changes, large)| <= |Rejected(changes, small)|
  {
    if changes != [] {
      RejectedShrinks(changes[1..], large, small);
    }
  }
}
