/**
 * Adding a blank import to a Go source file (transform/transform.go).
 *
 * The parsed file is abstracted to what the transform reads and changes: the
 * `Imports` list of the syntax tree and its top-level declarations, where a
 * declaration is either an `import` group holding its import specs or any other
 * declaration. Parsing, printing, positions and comments are not modelled.
 */
module Transform {
  import opened Wrappers

  /** An import spec: the optional binding name and the path literal, quotes included. */
  datatype ImportSpec = ImportSpec(name: Option<string>, path: string)

  /** A top-level declaration: an `import` group, or anything else (func, const, type, var). */
  datatype Decl = ImportDecl(specs: seq<ImportSpec>) | OtherDecl(text: string)

  /** The parts of a parsed file the transform works on. */
  datatype SourceUnit = SourceUnit(imports: seq<ImportSpec>, decls: seq<Decl>)

  /** The Go string literal of an import path, compared and stored without escaping. */
  function Literal(importPath: string): (r: string)
    ensures |r| == |importPath| + 2 && r[0] == '"' && r[|r| - 1] == '"'
    ensures r[1..|r| - 1] == importPath
  {
    "\"" + importPath + "\""
  }

  /** The spec `_ "<importPath>"` the transform inserts. */
  function BlankImport(importPath: string): ImportSpec {
    ImportSpec(Some("_"), Literal(importPath))
  }

  /** Some spec of `specs` has exactly the literal of `importPath`. */
  predicate Imports(specs: seq<ImportSpec>, importPath: string) {
    exists i :: 0 <= i < |specs| && specs[i].path == Literal(importPath)
  }

  /** The number of specs whose literal is `lit`. */
  function Count(specs: seq<ImportSpec>, lit: string): nat {
    if specs == [] then 0
    else (if specs[0].path == lit then 1 else 0) + Count(specs[1..], lit)
  }

  /** Every import spec of every import group, in declaration order. */
  function AllSpecs(decls: seq<Decl>): seq<ImportSpec> {
    if decls == [] then []
    else (if decls[0].ImportDecl? then decls[0].specs else []) + AllSpecs(decls[1..])
  }

  /** The parser's invariant: `Imports` lists the specs of the import groups (here as a multiset). */
  predicate Consistent(u: SourceUnit) {
    multiset(u.imports) == multiset(AllSpecs(u.decls))
  }

  /** The index of the first import group, if there is one. */
  function FirstImportDecl(decls: seq<Decl>): (r: Option<nat>)
    ensures r.None? ==> forall i :: 0 <= i < |decls| ==> !decls[i].ImportDecl?
    ensures r.Some? ==> r.value < |decls| && decls[r.value].ImportDecl? &&
                        forall i :: 0 <= i < r.value ==> !decls[i].ImportDecl?
  {
    if decls == [] then None
    else if decls[0].ImportDecl? then Some(0)
    else match FirstImportDecl(decls[1..])
      case None => None
      case Some(k) => Some(k + 1)
  }

  /**
   * The declarations after `spec` is added: appended to the first import group,
   * or, when there is none, a new group holding only `spec` placed in front.
   */
  function InsertSpec(decls: seq<Decl>, spec: ImportSpec): seq<Decl> {
    match FirstImportDecl(decls)
    case Some(k) => decls[k := ImportDecl(decls[k].specs + [spec])]
    case None => [ImportDecl([spec])] + decls
  }

  /** The effect of `addImport` on the file. */
  function WithImport(u: SourceUnit, importPath: string): SourceUnit {
    SourceUnit(u.imports + [BlankImport(importPath)], InsertSpec(u.decls, BlankImport(importPath)))
  }

  /** The file as `AddImportToFile` leaves it when every step succeeds. */
  function Patched(u: SourceUnit, importPath: string): SourceUnit {
    if Imports(u.imports, importPath) then u else WithImport(u, importPath)
  }

  /** The parsed file, updated in place by `addImport`. */
  class File {
    var imports: seq<ImportSpec>
    var decls: seq<Decl>

    function Unit(): SourceUnit
      reads this
    {
      SourceUnit(imports, decls)
    }

    constructor (u: SourceUnit)
      ensures Unit() == u
    {
      imports, decls := u.imports, u.decls;
    }

    /** `hasImport`: a linear search of `Imports` for the exact literal. */
    method HasImport(importPath: string) returns (found: bool)
      ensures found <==> Imports(imports, importPath)
    {
      var lit := Literal(importPath);
      var i := 0;
      while i < |imports|
        invariant 0 <= i <= |imports|
        invariant forall j :: 0 <= j < i ==> imports[j].path != lit
      {
        if imports[i].path == lit {
          return true;
        }
        i := i + 1;
      }
      return false;
    }

    /**
     * `addImport`: append the blank spec to `Imports`, then to the first import
     * group found by scanning the declarations, or else put a new group in front.
     */
    method AddImport(importPath: string)
      modifies this
      ensures Unit() == WithImport(old(Unit()), importPath)
    {
      var spec := BlankImport(importPath);
      imports := imports + [spec];
      var i := 0;
      while i < |decls|
        invariant 0 <= i <= |decls|
        invariant forall j :: 0 <= j < i ==> !decls[j].ImportDecl?
        invariant imports == old(imports) + [spec] && decls == old(decls)
      {
        if decls[i].ImportDecl? {
          assert FirstImportDecl(decls) == Some(i) by { FirstImportDeclIs(decls, i); }
          decls := decls[i := ImportDecl(decls[i].specs + [spec])];
          return;
        }
        i := i + 1;
      }
      decls := [ImportDecl([spec])] + decls;
    }
  }

  /** The first import group is the one with no import group before it. */
  lemma {:induction false} FirstImportDeclIs(decls: seq<Decl>, k: nat)
    requires k < |decls| && decls[k].ImportDecl?
    requires forall j :: 0 <= j < k ==> !decls[j].ImportDecl?
    ensures FirstImportDecl(decls) == Some(k)
  {
    if k > 0 {
      FirstImportDeclIs(decls[1..], k - 1);
    }
  }

  /**
   * What the file on disk holds: the syntax tree it parses to, or after a write the
   * tree as it was last written (its `Imports` in the order the transform left them).
   */
  datatype Content = Unparsable | Source(unit: SourceUnit)

  datatype Error = ReadError | ParseError | PrintError | WriteError

  /** The file at the path given to `AddImportToFile`. */
  class Disk {
    var readable: bool
    var content: Content

    constructor (readable: bool, content: Content)
      ensures this.readable == readable && this.content == content
    {
      this.readable, this.content := readable, content;
    }
  }

  /**
   * `AddImportToFile`: read, parse, return early when the import is present, add it,
   * print and overwrite the file. `printFails` and `writeFails` stand for failures of
   * the printer and of `os.WriteFile`; `os.WriteFile` truncates before writing, so a
   * failed write leaves whatever `afterFailedWrite` says.
   */
  method AddImportToFile(disk: Disk, importPath: string, printFails: bool, writeFails: bool,
                         afterFailedWrite: Content)
    returns (err: Option<Error>)
    modifies disk
    ensures disk.readable == old(disk.readable)
    ensures !old(disk.readable) ==> err == Some(ReadError) && disk.content == old(disk.content)
    ensures old(disk.readable) && old(disk.content).Unparsable? ==>
              err == Some(ParseError) && disk.content == old(disk.content)
    ensures old(disk.readable) && old(disk.content).Source? ==>
              var u := old(disk.content).unit;
              if Imports(u.imports, importPath) then err == None && disk.content == old(disk.content)
              else if printFails then err == Some(PrintError) && disk.content == old(disk.content)
              else if writeFails then err == Some(WriteError) && disk.content == afterFailedWrite
              else err == None && disk.content == Source(WithImport(u, importPath))
    ensures err.None? ==> disk.content == Source(Patched(old(disk.content).unit, importPath))
  {
    if !disk.readable {
      return Some(ReadError);
    }
    if disk.content.Unparsable? {
      return Some(ParseError);
    }
    var node := new File(disk.content.unit);
    var present := node.HasImport(importPath);
    if present {
      return None;
    }
    node.AddImport(importPath);
    if printFails {
      return Some(PrintError);
    }
    if writeFails {
      disk.content := afterFailedWrite;
      return Some(WriteError);
    }
    disk.content := Source(node.Unit());
    return None;
  }

  // Properties of the transform

  lemma {:induction false} CountAppend(a: seq<ImportSpec>, b: seq<ImportSpec>, lit: string)
    ensures Count(a + b, lit) == Count(a, lit) + Count(b, lit)
    decreases |a|
  {
    if a == [] {
      assert a + b == b;
    } else {
      assert (a + b)[1..] == a[1..] + b;
      CountAppend(a[1..], b, lit);
    }
  }

  /** The search succeeds exactly when the literal occurs at least once. */
  lemma {:induction false} ImportsIffCounted(specs: seq<ImportSpec>, importPath: string)
    ensures Imports(specs, importPath) <==> Count(specs, Literal(importPath)) > 0
    decreases |specs|
  {
    if specs != [] {
      ImportsIffCounted(specs[1..], importPath);
      if Imports(specs[1..], importPath) {
        var i :| 0 <= i < |specs[1..]| && specs[1..][i].path == Literal(importPath);
        assert specs[i + 1].path == Literal(importPath);
      }
      if Imports(specs, importPath) && specs[0].path != Literal(importPath) {
        var i :| 0 <= i < |specs| && specs[i].path == Literal(importPath);
        assert specs[1..][i - 1].path == Literal(importPath);
      }
    }
  }

  /** After the transform the import is present. */
  lemma PatchedImports(u: SourceUnit, importPath: string)
    ensures Imports(Patched(u, importPath).imports, importPath)
  {
    if !Imports(u.imports, importPath) {
      var r := Patched(u, importPath).imports;
      assert r[|u.imports|].path == Literal(importPath);
    }
  }

  /** Running the transform a second time with the same path changes nothing. */
  lemma PatchedIdempotent(u: SourceUnit, importPath: string)
    ensures Patched(Patched(u, importPath), importPath) == Patched(u, importPath)
  {
    PatchedImports(u, importPath);
  }

  /**
   * The number of specs for the path: one more when it was absent, the same when
   * present; so the transform never creates a duplicate.
   */
  lemma PatchedCount(u: SourceUnit, importPath: string)
    ensures var lit := Literal(importPath);
            Count(Patched(u, importPath).imports, lit) ==
              if Count(u.imports, lit) == 0 then 1 else Count(u.imports, lit)
  {
    var lit := Literal(importPath);
    ImportsIffCounted(u.imports, importPath);
    if !Imports(u.imports, importPath) {
      CountAppend(u.imports, [BlankImport(importPath)], lit);
      assert Count([BlankImport(importPath)], lit) == 1;
    }
  }

  /** Existing specs keep their place and order; anything added is the blank import of the path. */
  lemma PatchedKeepsImports(u: SourceUnit, importPath: string)
    ensures var r := Patched(u, importPath).imports;
            |u.imports| <= |r| <= |u.imports| + 1 && r[..|u.imports|] == u.imports &&
            forall i :: |u.imports| <= i < |r| ==> r[i] == BlankImport(importPath)
  {
  }

  /**
   * Adding to declarations: with an import group, only the first group changes and
   * gains the spec at its end; without one, a new group with just the spec comes first.
   */
  lemma InsertSpecShape(decls: seq<Decl>, spec: ImportSpec)
    ensures var r := InsertSpec(decls, spec);
            if exists i :: 0 <= i < |decls| && decls[i].ImportDecl? then
              exists k :: 0 <= k < |decls| && decls[k].ImportDecl? &&
                (forall j :: 0 <= j < k ==> !decls[j].ImportDecl?) &&
                |r| == |decls| && r[k] == ImportDecl(decls[k].specs + [spec]) &&
                forall j :: 0 <= j < |decls| && j != k ==> r[j] == decls[j]
            else r == [ImportDecl([spec])] + decls
  {
    match FirstImportDecl(decls)
    case Some(k) =>
      assert decls[k].ImportDecl?;
    case None =>
  }

  lemma {:induction false} AllSpecsAppend(a: seq<Decl>, b: seq<Decl>)
    ensures AllSpecs(a + b) == AllSpecs(a) + AllSpecs(b)
    decreases |a|
  {
    if a == [] {
      assert a + b == b;
    } else {
      assert (a + b)[1..] == a[1..] + b;
      AllSpecsAppend(a[1..], b);
    }
  }

  /** The import groups together gain exactly the new spec. */
  lemma InsertSpecAllSpecs(decls: seq<Decl>, spec: ImportSpec)
    ensures multiset(AllSpecs(InsertSpec(decls, spec))) == multiset(AllSpecs(decls)) + multiset{spec}
  {
    match FirstImportDecl(decls)
    case None =>
      AllSpecsAppend([ImportDecl([spec])], decls);
    case Some(k) =>
      var r := InsertSpec(decls, spec);
      assert decls == decls[..k] + [decls[k]] + decls[k + 1..];
      assert r == decls[..k] + [r[k]] + decls[k + 1..];
      AllSpecsAppend(decls[..k] + [decls[k]], decls[k + 1..]);
      AllSpecsAppend(decls[..k], [decls[k]]);
      AllSpecsAppend(decls[..k] + [r[k]], decls[k + 1..]);
      AllSpecsAppend(decls[..k], [r[k]]);
      assert AllSpecs([r[k]]) == decls[k].specs + [spec];
      assert AllSpecs([decls[k]]) == decls[k].specs;
  }

  /** The transform keeps `Imports` and the import groups in agreement. */
  lemma PatchedConsistent(u: SourceUnit, importPath: string)
    requires Consistent(u)
    ensures Consistent(Patched(u, importPath))
  {
    if !Imports(u.imports, importPath) {
      InsertSpecAllSpecs(u.decls, BlankImport(importPath));
    }
  }

  /** A file with no import declaration ends up with exactly one group holding exactly the new spec. */
  lemma NoGroupGetsOne(u: SourceUnit, importPath: string)
    requires forall i :: 0 <= i < |u.decls| ==> !u.decls[i].ImportDecl?
    requires !Imports(u.imports, importPath)
    ensures var d := Patched(u, importPath).decls;
            |d| == |u.decls| + 1 && d[0] == ImportDecl([BlankImport(importPath)]) &&
            forall i :: 1 <= i < |d| ==> !d[i].ImportDecl?
  {
  }
}
