/**
 * Finding archive file names in the archive command's standard output
 * (builder/builder.go): `regexp.MustCompile(`geth-.*\.(zip|tar.gz)`).FindAllString(out, -1)`.
 *
 * The matcher itself is not modelled; what it returns is specified over strings.
 * Go's regexp picks the leftmost match and, within it, the first alternative in
 * backtracking order: the greedy `.*` takes as much of the line as it can (`.` does
 * not match '\n'), `zip` is tried before `tar.gz`, and the '.' inside `tar.gz` is
 * unescaped, so it stands for any character but '\n'. Successive matches do not
 * overlap: the search resumes where the previous match ended.
 */
module ArchiveMatch {
  import opened Wrappers

  const Prefix: string := "geth-"

  /** `geth-` starts at position `i`. */
  predicate PrefixAt(s: string, i: nat) {
    i + 5 <= |s| && s[i] == 'g' && s[i + 1] == 'e' && s[i + 2] == 't' && s[i + 3] == 'h' && s[i + 4] == '-'
  }

  /** Where the line containing position `k` ends: the next '\n' from `k` on, or the end. */
  function LineEnd(s: string, k: nat): (r: nat)
    requires k <= |s|
    ensures k <= r <= |s| && (r < |s| ==> s[r] == '\n')
    ensures forall i :: k <= i < r ==> s[i] != '\n'
    decreases |s| - k
  {
    if k == |s| || s[k] == '\n' then k else LineEnd(s, k + 1)
  }

  /** The length of `\.(zip|tar.gz)` matched at `j`, trying `zip` first. */
  function ExtensionAt(s: string, j: nat): (r: Option<nat>)
    ensures r.Some? ==> (r.value == 4 || r.value == 7) && j + r.value <= |s| && s[j] == '.'
  {
    if j + 4 <= |s| && s[j] == '.' && s[j + 1] == 'z' && s[j + 2] == 'i' && s[j + 3] == 'p' then Some(4)
    else if j + 7 <= |s| && s[j] == '.' && s[j + 1] == 't' && s[j + 2] == 'a' && s[j + 3] == 'r' &&
            s[j + 4] != '\n' && s[j + 5] == 'g' && s[j + 6] == 'z' then Some(7)
    else None
  }

  /** An extension never spans a line break. */
  lemma ExtensionInLine(s: string, j: nat)
    requires ExtensionAt(s, j).Some?
    ensures forall i :: j <= i < j + ExtensionAt(s, j).value ==> s[i] != '\n'
  {
    var n := ExtensionAt(s, j).value;
    forall i | j <= i < j + n ensures s[i] != '\n' {
      assert i == j || i == j + 1 || i == j + 2 || i == j + 3 || i == j + 4 || i == j + 5 || i == j + 6;
    }
  }

  /**
   * The greedy choice: the end of the match whose extension starts at the largest
   * `j` in `lo..hi`, or `None` when the extension matches nowhere in that range.
   */
  function LastExtension(s: string, lo: nat, hi: nat): (r: Option<nat>)
    requires lo <= hi <= |s|
    ensures r.Some? ==> lo + 4 <= r.value <= |s|
    decreases hi - lo
  {
    match ExtensionAt(s, hi)
    case Some(n) => Some(hi + n)
    case None => if hi == lo then None else LastExtension(s, lo, hi - 1)
  }

  /** `LastExtension` finds the largest position with an extension, and `None` only when there is none. */
  lemma {:induction false} LastExtensionIsLast(s: string, lo: nat, hi: nat)
    requires lo <= hi <= |s|
    ensures LastExtension(s, lo, hi).None? ==> forall j :: lo <= j <= hi ==> ExtensionAt(s, j).None?
    ensures LastExtension(s, lo, hi).Some? ==>
              exists j :: lo <= j <= hi && ExtensionAt(s, j).Some? &&
                LastExtension(s, lo, hi).value == j + ExtensionAt(s, j).value &&
                forall j' :: j < j' <= hi ==> ExtensionAt(s, j').None?
    decreases hi - lo
  {
    if ExtensionAt(s, hi).None? && hi > lo {
      LastExtensionIsLast(s, lo, hi - 1);
    }
  }

  /** The end of the match that starts at `i`, if one does. */
  function MatchAt(s: string, i: nat): (r: Option<nat>)
    requires i <= |s|
    ensures r.Some? ==> i + |Prefix| + 4 <= r.value <= |s|
  {
    if PrefixAt(s, i) then
      var e := LineEnd(s, i + |Prefix|);
      LastExtension(s, i + |Prefix|, e)
    else None
  }

  /** The positions of the successive matches, searching from `k`: in the text, in order, without overlap. */
  function Spans(s: string, k: nat): (r: seq<(nat, nat)>)
    requires k <= |s|
    ensures forall i :: 0 <= i < |r| ==> k <= r[i].0 <= r[i].1 <= |s|
    decreases |s| - k
  {
    if k == |s| then []
    else match MatchAt(s, k)
      case Some(e) => [(k, e)] + Spans(s, e)
      case None => Spans(s, k + 1)
  }

  /** Every span is a match found at its start, and each starts where the previous ended or later. */
  lemma {:induction false} SpansValid(s: string, k: nat)
    requires k <= |s|
    ensures forall i :: 0 <= i < |Spans(s, k)| ==> MatchAt(s, Spans(s, k)[i].0) == Some(Spans(s, k)[i].1)
    ensures forall i :: 0 < i < |Spans(s, k)| ==> Spans(s, k)[i - 1].1 <= Spans(s, k)[i].0
    decreases |s| - k
  {
    if k < |s| {
      match MatchAt(s, k)
      case Some(e) =>
        SpansValid(s, e);
        var rest := Spans(s, e);
        var r := Spans(s, k);
        assert r == [(k, e)] + rest;
        forall i | 0 <= i < |r| ensures MatchAt(s, r[i].0) == Some(r[i].1) {
          if i > 0 {
            assert r[i] == rest[i - 1];
          }
        }
        forall i | 0 < i < |r| ensures r[i - 1].1 <= r[i].0 {
          if i > 1 {
            assert r[i - 1] == rest[i - 2] && r[i] == rest[i - 1];
          } else {
            assert r[1] == rest[0];
          }
        }
      case None =>
        SpansValid(s, k + 1);
        assert Spans(s, k) == Spans(s, k + 1);
    }
  }

  /** `FindAllString(out, -1)`: the matched texts, left to right. */
  function FindAll(s: string): seq<string> {
    var spans := Spans(s, 0);
    seq(|spans|, i requires 0 <= i < |spans| => s[spans[i].0..spans[i].1])
  }

  /** What every match looks like. */
  predicate IsArchiveName(m: string) {
    |m| >= |Prefix| + 4 && m[..|Prefix|] == Prefix && '\n' !in m &&
    (m[|m| - 4..] == ".zip" || (m[|m| - 7..|m| - 3] == ".tar" && m[|m| - 2..] == "gz"))
  }

  // Properties of the extraction

  /** No match starts at any position from `a` up to `b`. */
  predicate NoMatchIn(s: string, a: nat, b: nat) {
    forall p :: a <= p < b && p <= |s| ==> MatchAt(s, p).None?
  }

  /** The first position from `k` on where a match starts, or the end of the text. */
  function FirstStart(s: string, r: seq<(nat, nat)>): nat {
    if r == [] then |s| else r[0].0
  }

  /** Leftmost: no match starts before the first one found. */
  lemma {:induction false} SpansLeftmost(s: string, k: nat)
    requires k <= |s|
    ensures FirstStart(s, Spans(s, k)) <= |s|
    ensures NoMatchIn(s, k, FirstStart(s, Spans(s, k)))
    decreases |s| - k
  {
    SpansValid(s, k);
    if k < |s| && MatchAt(s, k).None? {
      SpansLeftmost(s, k + 1);
      var first := FirstStart(s, Spans(s, k + 1));
      assert Spans(s, k) == Spans(s, k + 1);
      forall p | k <= p < first ensures MatchAt(s, p).None? {
        if p > k {
          assert k + 1 <= p < first;
        }
      }
    }
  }

  /** Nor does a match start between two found ones. */
  lemma {:induction false} SpansNoneBetween(s: string, k: nat)
    requires k <= |s|
    ensures forall i :: 0 < i < |Spans(s, k)| ==> NoMatchIn(s, Spans(s, k)[i - 1].1, Spans(s, k)[i].0)
    decreases |s| - k
  {
    if k < |s| {
      match MatchAt(s, k)
      case Some(e) =>
        SpansNoneBetween(s, e);
        SpansLeftmost(s, e);
        var rest := Spans(s, e);
        assert Spans(s, k) == [(k, e)] + rest;
        NoneBetweenCons(s, (k, e), rest);
      case None =>
        SpansNoneBetween(s, k + 1);
        var r := Spans(s, k + 1);
        assert Spans(s, k) == r;
        forall i | 0 < i < |r| ensures NoMatchIn(s, r[i - 1].1, r[i].0) {
        }
    }
  }

  /** No match starts after the last span found: every later archive name is found. */
  lemma {:induction false} SpansComplete(s: string, k: nat)
    requires k <= |s|
    ensures var r := Spans(s, k);
            var last := if r == [] then k else r[|r| - 1].1;
            last <= |s| && NoMatchIn(s, last, |s|)
    decreases |s| - k
  {
    if k < |s| {
      match MatchAt(s, k)
      case Some(e) =>
        SpansComplete(s, e);
        assert Spans(s, k) == [(k, e)] + Spans(s, e);
      case None =>
        SpansComplete(s, k + 1);
        if Spans(s, k + 1) == [] {
          forall p | k <= p < |s|
            ensures MatchAt(s, p).None?
          {
            if p > k {
              assert k + 1 <= p;
            }
          }
        }
    }
  }

  /** The gaps of a list of spans, one more span in front. */
  lemma NoneBetweenCons(s: string, head: (nat, nat), rest: seq<(nat, nat)>)
    requires NoMatchIn(s, head.1, FirstStart(s, rest))
    requires forall i :: 0 < i < |rest| ==> NoMatchIn(s, rest[i - 1].1, rest[i].0)
    ensures var r := [head] + rest;
            forall i :: 0 < i < |r| ==> NoMatchIn(s, r[i - 1].1, r[i].0)
  {
    var r := [head] + rest;
    forall i | 0 < i < |r| ensures NoMatchIn(s, r[i - 1].1, r[i].0) {
      if i == 1 {
        assert r[0] == head && r[1] == rest[0];
      } else {
        assert r[i - 1] == rest[i - 2] && r[i] == rest[i - 1];
      }
    }
  }

  /** A match is the prefix, then the rest of a line, then one of the extensions. */
  lemma MatchIsArchiveName(s: string, i: nat)
    requires i <= |s| && MatchAt(s, i).Some?
    ensures IsArchiveName(s[i..MatchAt(s, i).value])
  {
    var e := MatchAt(s, i).value;
    var lo := i + |Prefix|;
    var hi := LineEnd(s, lo);
    assert PrefixAt(s, i) && MatchAt(s, i) == LastExtension(s, lo, hi);
    LastExtensionIsLast(s, lo, hi);
    var j :| lo <= j <= hi && ExtensionAt(s, j).Some? && e == j + ExtensionAt(s, j).value;
    SlicePrefix(s, i, e);
    SliceInLine(s, i, j, e);
    SliceExtension(s, i, j, e);
  }

  lemma SlicePrefix(s: string, i: nat, e: nat)
    requires PrefixAt(s, i) && i + |Prefix| <= e <= |s|
    ensures s[i..e][..|Prefix|] == Prefix
  {
    var m := s[i..e];
    assert m[0] == 'g' && m[1] == 'e' && m[2] == 't' && m[3] == 'h' && m[4] == '-';
  }

  lemma SliceInLine(s: string, i: nat, j: nat, e: nat)
    requires PrefixAt(s, i) && i + |Prefix| <= j <= LineEnd(s, i + |Prefix|)
    requires ExtensionAt(s, j).Some? && e == j + ExtensionAt(s, j).value
    ensures '\n' !in s[i..e]
  {
    var m := s[i..e];
    ExtensionInLine(s, j);
    forall t | 0 <= t < |m| ensures m[t] != '\n' {
      assert m[t] == s[i + t];
      if t < |Prefix| {
        assert t == 0 || t == 1 || t == 2 || t == 3 || t == 4;
      }
    }
  }

  lemma SliceExtension(s: string, i: nat, j: nat, e: nat)
    requires i + |Prefix| <= j && ExtensionAt(s, j).Some? && e == j + ExtensionAt(s, j).value
    ensures var m := s[i..e];
            m[|m| - 4..] == ".zip" || (m[|m| - 7..|m| - 3] == ".tar" && m[|m| - 2..] == "gz")
  {
    var m := s[i..e];
    var k := j - i;
    if ExtensionAt(s, j).value == 4 {
      assert m[|m| - 4..] == [m[k], m[k + 1], m[k + 2], m[k + 3]];
    } else {
      assert m[|m| - 7..|m| - 3] == [m[k], m[k + 1], m[k + 2], m[k + 3]];
      assert m[|m| - 2..] == [m[k + 5], m[k + 6]];
    }
  }

  /** Every string the extraction returns has the archive-name shape. */
  lemma FindAllNames(s: string)
    ensures forall m :: m in FindAll(s) ==> IsArchiveName(m)
  {
    var spans := Spans(s, 0);
    SpansValid(s, 0);
    forall m | m in FindAll(s) ensures IsArchiveName(m) {
      var i :| 0 <= i < |spans| && m == s[spans[i].0..spans[i].1];
      MatchIsArchiveName(s, spans[i].0);
    }
  }

  /** The extraction finds nothing exactly when no position of the text starts a match. */
  lemma FindAllEmpty(s: string)
    ensures FindAll(s) == [] <==> NoMatchIn(s, 0, |s|)
  {
    SpansLeftmost(s, 0);
    SpansValid(s, 0);
    var spans := Spans(s, 0);
    if spans != [] {
      assert MatchAt(s, spans[0].0).Some?;
    }
  }

  lemma {:induction false} LineEndAt(s: string, k: nat, l: nat)
    requires k <= l <= |s| && (l == |s| || s[l] == '\n')
    requires forall t :: k <= t < l ==> s[t] != '\n'
    ensures LineEnd(s, k) == l
    decreases l - k
  {
    if k < l {
      LineEndAt(s, k + 1, l);
    }
  }

  /** `.zip` ends just before `l`. */
  predicate ZipBefore(s: string, l: nat) {
    4 <= l <= |s| && s[l - 4] == '.' && s[l - 3] == 'z' && s[l - 2] == 'i' && s[l - 1] == 'p'
  }

  /** `.tar?gz` ends just before `l`. */
  predicate TarGzBefore(s: string, l: nat) {
    7 <= l <= |s| && s[l - 7] == '.' && s[l - 6] == 't' && s[l - 5] == 'a' && s[l - 4] == 'r' &&
    s[l - 3] != '\n' && s[l - 2] == 'g' && s[l - 1] == 'z'
  }

  /** What the archive-name shape of `s[i..l]` says about the characters of `s`. */
  lemma NameShape(s: string, i: nat, l: nat)
    requires i <= l <= |s| && IsArchiveName(s[i..l])
    ensures PrefixAt(s, i)
    ensures forall t :: i <= t < l ==> s[t] != '\n'
    ensures (i + |Prefix| + 4 <= l && ZipBefore(s, l)) || (i + |Prefix| + 7 <= l && TarGzBefore(s, l))
  {
    var m := s[i..l];
    var p := m[..|Prefix|];
    assert forall t :: 0 <= t < |m| ==> m[t] == s[i + t];
    assert p[0] == 'g' && p[1] == 'e' && p[2] == 't' && p[3] == 'h' && p[4] == '-';
    forall t | i <= t < l ensures s[t] != '\n' {
      assert s[t] == m[t - i];
    }
    if m[|m| - 4..] == ".zip" {
      var z := m[|m| - 4..];
      assert z[0] == '.' && z[1] == 'z' && z[2] == 'i' && z[3] == 'p';
      assert s[l - 4] == z[0] && s[l - 3] == z[1] && s[l - 2] == z[2] && s[l - 1] == z[3];
    } else {
      var t := m[|m| - 7..|m| - 3];
      var g := m[|m| - 2..];
      assert t[0] == '.' && t[1] == 't' && t[2] == 'a' && t[3] == 'r' && g[0] == 'g' && g[1] == 'z';
      assert s[l - 7] == t[0] && s[l - 6] == t[1] && s[l - 5] == t[2] && s[l - 4] == t[3];
      assert s[l - 2] == g[0] && s[l - 1] == g[1] && s[l - 3] == m[|m| - 3];
      assert |m| - 7 >= |Prefix|;
    }
  }

  /** The greedy search from the line end stops at a `.zip` that ends the line. */
  lemma ZipEndsLine(s: string, lo: nat, l: nat)
    requires lo + 4 <= l && ZipBefore(s, l) && (l == |s| || s[l] != '.')
    ensures LastExtension(s, lo, l) == Some(l)
  {
    assert ExtensionAt(s, l).None?;
    assert LastExtension(s, lo, l) == LastExtension(s, lo, l - 1);
    assert LastExtension(s, lo, l - 1) == LastExtension(s, lo, l - 2);
    assert LastExtension(s, lo, l - 2) == LastExtension(s, lo, l - 3);
    assert LastExtension(s, lo, l - 3) == LastExtension(s, lo, l - 4);
  }

  /** The greedy search from the line end stops at a `.tar?gz` that ends the line. */
  lemma TarGzEndsLine(s: string, lo: nat, l: nat)
    requires lo + 7 <= l && TarGzBefore(s, l) && (l == |s| || s[l] != '.')
    ensures LastExtension(s, lo, l) == Some(l)
  {
    assert ExtensionAt(s, l).None?;
    assert LastExtension(s, lo, l) == LastExtension(s, lo, l - 1);
    assert LastExtension(s, lo, l - 1) == LastExtension(s, lo, l - 2);
    assert LastExtension(s, lo, l - 2) == LastExtension(s, lo, l - 3);
    assert LastExtension(s, lo, l - 3) == LastExtension(s, lo, l - 4);
    assert LastExtension(s, lo, l - 4) == LastExtension(s, lo, l - 5);
    assert LastExtension(s, lo, l - 5) == LastExtension(s, lo, l - 6);
    assert LastExtension(s, lo, l - 6) == LastExtension(s, lo, l - 7);
  }

  /** A whole line from `i` on that has the archive-name shape is matched to its end, in one piece. */
  lemma NameAt(s: string, i: nat, l: nat)
    requires i <= l <= |s| && (l == |s| || s[l] == '\n')
    requires IsArchiveName(s[i..l])
    ensures MatchAt(s, i) == Some(l)
  {
    NameShape(s, i, l);
    var lo := i + |Prefix|;
    LineEndAt(s, lo, l);
    if ZipBefore(s, l) && lo + 4 <= l {
      ZipEndsLine(s, lo, l);
    } else {
      TarGzEndsLine(s, lo, l);
    }
  }

  /** Output holding a single archive name yields exactly that name. */
  lemma SingleName(m: string)
    requires IsArchiveName(m)
    ensures FindAll(m) == [m]
  {
    NameAt(m, 0, |m|);
    assert Spans(m, 0) == [(0, |m|)] + Spans(m, |m|);
    assert m[0..|m|] == m;
  }

  lemma SpansAfterMatch(s: string, k: nat, e: nat)
    requires k <= |s| && MatchAt(s, k) == Some(e)
    ensures Spans(s, k) == [(k, e)] + Spans(s, e)
  {
  }

  lemma SpansAfterMiss(s: string, k: nat)
    requires k < |s| && MatchAt(s, k).None?
    ensures Spans(s, k) == Spans(s, k + 1)
  {
  }

  lemma FirstLineMatch(a: string, b: string)
    requires IsArchiveName(a)
    ensures MatchAt(a + "\n" + b, 0) == Some(|a|)
  {
    var s := a + "\n" + b;
    assert s[0..|a|] == a && s[|a|] == '\n';
    NameAt(s, 0, |a|);
  }

  lemma SecondLineMatch(a: string, b: string)
    requires IsArchiveName(b)
    ensures MatchAt(a + "\n" + b, |a| + 1) == Some(|a| + 1 + |b|)
  {
    var s := a + "\n" + b;
    assert s[|a| + 1..|s|] == b;
    NameAt(s, |a| + 1, |s|);
  }

  lemma LineBreakNoMatch(a: string, b: string)
    ensures MatchAt(a + "\n" + b, |a|).None?
  {
    var s := a + "\n" + b;
    assert s[|a|] == '\n';
  }

  /** A match, one position without a match, and a match reaching the end give two spans. */
  lemma TwoSpans(s: string, a: nat)
    requires 0 < a && a + 1 <= |s|
    requires MatchAt(s, 0) == Some(a) && MatchAt(s, a).None? && MatchAt(s, a + 1) == Some(|s|)
    ensures Spans(s, 0) == [(0, a), (a + 1, |s|)]
  {
    SpansAfterMatch(s, 0, a);
    SpansAfterMiss(s, a);
    SpansAfterMatch(s, a + 1, |s|);
  }

  lemma SeparateLinesSpans(a: string, b: string)
    requires IsArchiveName(a) && IsArchiveName(b)
    ensures var s := a + "\n" + b; Spans(s, 0) == [(0, |a|), (|a| + 1, |s|)]
  {
    var s := a + "\n" + b;
    FirstLineMatch(a, b);
    SecondLineMatch(a, b);
    LineBreakNoMatch(a, b);
    TwoSpans(s, |a|);
  }

  /** Two archive names on separate lines are found separately, in order. */
  lemma NamesOnSeparateLines(a: string, b: string)
    requires IsArchiveName(a) && IsArchiveName(b)
    ensures FindAll(a + "\n" + b) == [a, b]
  {
    var s := a + "\n" + b;
    SeparateLinesSpans(a, b);
    assert s[0..|a|] == a && s[|a| + 1..|s|] == b;
    var r := FindAll(s);
    assert |r| == 2 && r[0] == s[0..|a|] && r[1] == s[|a| + 1..|s|];
  }

  /**
   * Two archive names on one line are returned as a single match running from the
   * first `geth-` to the last extension, because `.*` is greedy.
   */
  lemma NamesOnOneLineMerge(a: string, b: string)
    requires IsArchiveName(a) && IsArchiveName(b)
    ensures FindAll(a + " " + b) == [a + " " + b]
  {
    var m := a + " " + b;
    var x := a + " ";
    assert m == x + b;
    assert m[..|Prefix|] == a[..|Prefix|];
    SliceOfSuffix(x, b, |b| - 4, |b|);
    SliceOfSuffix(x, b, |b| - 7, |b| - 3);
    SliceOfSuffix(x, b, |b| - 2, |b|);
    SingleName(m);
  }

  lemma SliceOfSuffix(x: string, b: string, lo: nat, hi: nat)
    requires lo <= hi <= |b|
    ensures (x + b)[|x| + lo..|x| + hi] == b[lo..hi]
  {
    assert forall t :: 0 <= t < hi - lo ==> (x + b)[|x| + lo..|x| + hi][t] == b[lo..hi][t];
  }
}
