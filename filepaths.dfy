/**
 * The lexical part of Go's `path/filepath` package (on a system whose separator is '/'),
 * as the configuration and the build driver use it: `Clean`, `Join`, `Base`, `Dir`, `Abs`
 * and `IsAbs`. A path is kept in split form: whether it starts with '/' and the pieces
 * between the separators. `Split` and `Render` convert from and to the string form.
 */
module FilePaths {
  import opened Wrappers

  /** A path string split at every '/'; `absolute` records a leading '/'. */
  datatype Path = Path(absolute: bool, segments: seq<string>)

  /** The empty path string "". */
  const Empty := Path(false, [""])

  /** The path of the empty string "", which `Join` skips. */
  predicate IsEmpty(p: Path) {
    p == Empty
  }

  /** A piece that `Clean` keeps as it is. */
  predicate IsName(e: string) {
    e != "" && e != "." && e != ".."
  }

  /**
   * The pieces of a cleaned path: no empty piece and no "."; ".." only at the front,
   * and, below the root, no ".." at all.
   */
  predicate Normal(rooted: bool, s: seq<string>) {
    (forall i :: 0 <= i < |s| ==> s[i] != "" && s[i] != ".") &&
    (forall i :: 0 < i < |s| && s[i] == ".." ==> s[i - 1] == "..") &&
    (rooted ==> forall i :: 0 <= i < |s| ==> s[i] != "..")
  }

  /** What `filepath.Clean` returns: "/" plus names, ".", or a non-empty run of ".." then names. */
  predicate IsClean(p: Path) {
    if p.absolute then Normal(true, p.segments)
    else p.segments == ["."] || (p.segments != [] && Normal(false, p.segments))
  }

  /**
   * The lexical processing of `filepath.Clean`, one piece at a time: empty pieces and "."
   * vanish, ".." removes the last kept name, is dropped at the root, and is kept when
   * nothing can be removed on a relative path.
   */
  function CleanSegments(rooted: bool, out: seq<string>, rest: seq<string>): seq<string>
    decreases |rest|
  {
    if rest == [] then out
    else if rest[0] == "" || rest[0] == "." then CleanSegments(rooted, out, rest[1..])
    else if rest[0] == ".." then
      if out != [] && out[|out| - 1] != ".." then CleanSegments(rooted, out[..|out| - 1], rest[1..])
      else if rooted then CleanSegments(rooted, out, rest[1..])
      else CleanSegments(rooted, out + [".."], rest[1..])
    else CleanSegments(rooted, out + [rest[0]], rest[1..])
  }

  /** `filepath.Clean`: an empty relative result becomes ".". */
  function Clean(p: Path): (r: Path)
    ensures r.absolute == p.absolute
  {
    var s := CleanSegments(p.absolute, [], p.segments);
    if !p.absolute && s == [] then Path(false, ["."]) else Path(p.absolute, s)
  }

  /** What `Clean` returns is clean. */
  lemma CleanIsClean(p: Path)
    ensures IsClean(Clean(p))
  {
    CleanSegmentsNormal(p.absolute, [], p.segments);
  }

  /** Cleaning keeps a normal prefix normal. */
  lemma {:induction false} CleanSegmentsNormal(rooted: bool, out: seq<string>, rest: seq<string>)
    requires Normal(rooted, out)
    ensures Normal(rooted, CleanSegments(rooted, out, rest))
    decreases |rest|
  {
    if rest == [] {
    } else if rest[0] == "" || rest[0] == "." {
      CleanSegmentsNormal(rooted, out, rest[1..]);
    } else if rest[0] == ".." {
      if out != [] && out[|out| - 1] != ".." {
        CleanSegmentsNormal(rooted, out[..|out| - 1], rest[1..]);
      } else if rooted {
        CleanSegmentsNormal(rooted, out, rest[1..]);
      } else {
        CleanSegmentsNormal(rooted, out + [".."], rest[1..]);
      }
    } else {
      var next := out + [rest[0]];
      assert Normal(rooted, next) by {
        assert forall i :: 0 <= i < |out| ==> next[i] == out[i];
      }
      CleanSegmentsNormal(rooted, next, rest[1..]);
    }
  }

  /** Cleaning a concatenation is cleaning the second part after the first. */
  lemma {:induction false} CleanSegmentsAppend(rooted: bool, out: seq<string>, a: seq<string>, b: seq<string>)
    ensures CleanSegments(rooted, out, a + b) == CleanSegments(rooted, CleanSegments(rooted, out, a), b)
    decreases |a|
  {
    if a == [] {
      assert a + b == b;
    } else {
      assert (a + b)[0] == a[0];
      assert (a + b)[1..] == a[1..] + b;
      if a[0] == "" || a[0] == "." {
        CleanSegmentsAppend(rooted, out, a[1..], b);
      } else if a[0] == ".." {
        if out != [] && out[|out| - 1] != ".." {
          CleanSegmentsAppend(rooted, out[..|out| - 1], a[1..], b);
        } else if rooted {
          CleanSegmentsAppend(rooted, out, a[1..], b);
        } else {
          CleanSegmentsAppend(rooted, out + [".."], a[1..], b);
        }
      } else {
        CleanSegmentsAppend(rooted, out + [a[0]], a[1..], b);
      }
    }
  }

  /** Pieces that are already normal pass through cleaning unchanged. */
  lemma {:induction false} CleanSegmentsOfNormal(rooted: bool, out: seq<string>, s: seq<string>)
    requires Normal(rooted, out + s)
    ensures CleanSegments(rooted, out, s) == out + s
    decreases |s|
  {
    if s != [] {
      var all := out + s;
      assert all[|out|] == s[0];
      assert s[0] == ".." ==> out == [] || out[|out| - 1] == ".." by {
        if s[0] == ".." && out != [] {
          assert all[|out| - 1] == out[|out| - 1];
        }
      }
      assert out + [s[0]] + s[1..] == all;
      CleanSegmentsOfNormal(rooted, out + [s[0]], s[1..]);
    }
  }

  /** A relative path of names, with or without a leading ".", cleans to the names. */
  lemma CleanOfNames(names: seq<string>)
    requires names != [] && forall i :: 0 <= i < |names| ==> IsName(names[i])
    ensures Clean(Path(false, names)) == Path(false, names)
    ensures Clean(Path(false, ["."] + names)) == Path(false, names)
  {
    assert [] + names == names;
    CleanSegmentsOfNormal(false, [], names);
    assert (["."] + names)[1..] == names;
  }

  /** A clean path is its own cleaning, hence `Clean` is idempotent. */
  lemma CleanOfClean(p: Path)
    requires IsClean(p)
    ensures Clean(p) == p
  {
    if p.segments == ["."] && !p.absolute {
      assert CleanSegments(false, [], ["."]) == CleanSegments(false, [], []);
    } else {
      assert [] + p.segments == p.segments;
      CleanSegmentsOfNormal(p.absolute, [], p.segments);
    }
  }

  lemma CleanIdempotent(p: Path)
    ensures Clean(Clean(p)) == Clean(p)
  {
    CleanIsClean(p);
    CleanOfClean(Clean(p));
  }

  /**
   * An absolute clean directory followed by more pieces cleans as if cleaning
   * only started after the directory.
   */
  lemma CleanUnder(dir: Path, rest: seq<string>)
    requires dir.absolute && IsClean(dir)
    ensures Clean(Path(true, dir.segments + rest)) == Path(true, CleanSegments(true, dir.segments, rest))
  {
    CleanSegmentsAppend(true, [], dir.segments, rest);
    assert [] + dir.segments == dir.segments;
    CleanSegmentsOfNormal(true, [], dir.segments);
  }

  /**
   * `filepath.Join` of two elements: leading empty elements are skipped, the rest
   * are joined with '/' and cleaned; two empty elements give "".
   */
  function Join(a: Path, b: Path): (r: Path)
    ensures !IsEmpty(a) ==> r.absolute == a.absolute
  {
    if IsEmpty(a) then (if IsEmpty(b) then Empty else Clean(b))
    else Clean(Path(a.absolute, a.segments + b.segments))
  }

  /** Joining onto a non-empty path keeps whether it is absolute, and is clean. */
  lemma JoinIsClean(a: Path, b: Path)
    requires !IsEmpty(a)
    ensures Join(a, b).absolute == a.absolute && IsClean(Join(a, b))
  {
    CleanIsClean(Path(a.absolute, a.segments + b.segments));
  }

  /** A relative path made of the given names, such as "eth/tracers/native". */
  function Rel(names: seq<string>): Path {
    Path(false, names)
  }

  /** The pieces with the trailing empty ones removed (trailing separators). */
  function TrimTrailingEmpty(s: seq<string>): (r: seq<string>)
    ensures r <= s
    ensures r != [] ==> r[|r| - 1] != ""
  {
    if s == [] || s[|s| - 1] != "" then s else TrimTrailingEmpty(s[..|s| - 1])
  }

  /**
   * `filepath.Base`: the last element after trailing separators are removed;
   * "." for the empty path and "/" for a path of separators only.
   */
  function Base(p: Path): (r: Path)
    ensures !r.absolute ==> |r.segments| == 1 && r.segments[0] != ""
    ensures r.absolute ==> p.absolute && r.segments == []
    ensures p.segments != [] && p.segments[|p.segments| - 1] != "" ==>
              r == Path(false, [p.segments[|p.segments| - 1]])
  {
    var t := TrimTrailingEmpty(p.segments);
    if t == [] then (if p.absolute then Path(true, []) else Path(false, ["."]))
    else Path(false, [t[|t| - 1]])
  }

  /** `TrimTrailingEmpty` stops at the last non-empty piece. */
  lemma {:induction false} TrimTrailingEmptyAt(s: seq<string>, i: nat)
    requires i < |s| && s[i] != ""
    requires forall j :: i < j < |s| ==> s[j] == ""
    ensures TrimTrailingEmpty(s) == s[..i + 1]
    decreases |s|
  {
    if s[|s| - 1] != "" {
      assert s[..i + 1] == s;
    } else {
      TrimTrailingEmptyAt(s[..|s| - 1], i);
      assert s[..|s| - 1][..i + 1] == s[..i + 1];
    }
  }

  /** `TrimTrailingEmpty` leaves nothing exactly when every piece is empty. */
  lemma {:induction false} TrimTrailingEmptyNone(s: seq<string>)
    ensures TrimTrailingEmpty(s) == [] <==> forall j :: 0 <= j < |s| ==> s[j] == ""
    decreases |s|
  {
    if s != [] && s[|s| - 1] == "" {
      var s' := s[..|s| - 1];
      TrimTrailingEmptyNone(s');
      assert forall j :: 0 <= j < |s'| ==> s'[j] == s[j];
    }
  }

  /** The base is the last non-empty piece, whatever empty pieces follow it. */
  lemma BaseIsLastName(p: Path, i: nat)
    requires i < |p.segments| && p.segments[i] != ""
    requires forall j :: i < j < |p.segments| ==> p.segments[j] == ""
    ensures Base(p) == Path(false, [p.segments[i]])
  {
    TrimTrailingEmptyAt(p.segments, i);
  }

  /** The base is "/" exactly for an absolute path of separators only, and "." for a relative one. */
  lemma BaseOfSeparators(p: Path)
    ensures Base(p).absolute <==> p.absolute && forall j :: 0 <= j < |p.segments| ==> p.segments[j] == ""
    ensures Base(p).absolute ==> Base(p).segments == []
    ensures !p.absolute && (forall j :: 0 <= j < |p.segments| ==> p.segments[j] == "") ==>
              Base(p) == Path(false, ["."])
  {
    TrimTrailingEmptyNone(p.segments);
  }

  /** `filepath.Dir`: everything before the last element, cleaned. */
  function Dir(p: Path): (r: Path)
    ensures r.absolute == p.absolute
  {
    Clean(Path(p.absolute, if p.segments == [] then [] else p.segments[..|p.segments| - 1]))
  }

  /**
   * `filepath.Abs`: an absolute path is cleaned; a relative one is joined onto the
   * working directory, which is `None` when the process cannot obtain it.
   */
  function Abs(p: Path, cwd: Option<Path>): (r: Option<Path>)
    requires cwd.Some? ==> cwd.value.absolute
    ensures p.absolute ==> r == Some(Clean(p))
    ensures r.Some? ==> r.value.absolute
  {
    if p.absolute then Some(Clean(p))
    else if cwd.None? then None
    else Some(Join(cwd.value, p))
  }

  /** What `Dir` returns is clean. */
  lemma DirIsClean(p: Path)
    ensures IsClean(Dir(p))
  {
    CleanIsClean(Path(p.absolute, if p.segments == [] then [] else p.segments[..|p.segments| - 1]));
  }

  /** What `Abs` returns is clean. */
  lemma AbsIsClean(p: Path, cwd: Option<Path>)
    requires cwd.Some? ==> cwd.value.absolute
    requires Abs(p, cwd).Some?
    ensures IsClean(Abs(p, cwd).value)
  {
    if p.absolute {
      CleanIsClean(p);
    } else {
      JoinIsClean(cwd.value, p);
    }
  }

  /** The pieces of a string between its '/' separators. */
  function Split(s: string): (r: seq<string>)
    ensures |r| >= 1
  {
    if s == [] then [""]
    else
      var rest := Split(s[1..]);
      if s[0] == '/' then [""] + rest else [[s[0]] + rest[0]] + rest[1..]
  }

  /** The pieces joined back with '/' between them. */
  function Intercalate(s: seq<string>): string {
    if s == [] then "" else if |s| == 1 then s[0] else s[0] + "/" + Intercalate(s[1..])
  }

  function FromString(s: string): Path {
    if s != [] && s[0] == '/' then Path(true, Split(s[1..])) else Path(false, Split(s))
  }

  function Render(p: Path): string {
    (if p.absolute then "/" else "") + Intercalate(p.segments)
  }

  /** Splitting and joining with '/' lose nothing. */
  lemma {:induction false} IntercalateSplit(s: string)
    ensures Intercalate(Split(s)) == s
    decreases |s|
  {
    if s != [] {
      IntercalateSplit(s[1..]);
      var rest := Split(s[1..]);
      if s[0] == '/' {
        assert Intercalate([""] + rest) == "" + "/" + Intercalate(rest) by {
          assert ([""] + rest)[1..] == rest;
        }
      } else {
        var r := [[s[0]] + rest[0]] + rest[1..];
        if |rest| == 1 {
          assert r == [[s[0]] + rest[0]];
        } else {
          assert r[1..] == rest[1..];
          assert Intercalate(rest) == rest[0] + "/" + Intercalate(rest[1..]);
        }
        assert s == [s[0]] + s[1..];
      }
    }
  }

  lemma RenderFromString(s: string)
    ensures Render(FromString(s)) == s
  {
    if s != [] && s[0] == '/' {
      IntercalateSplit(s[1..]);
      assert s == "/" + s[1..];
    } else {
      IntercalateSplit(s);
    }
  }
}
