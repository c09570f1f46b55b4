/** The two path helpers the subtitle search uses, `FileInfo.Extension`
    (`Path.GetExtension`) and `Path.ChangeExtension`, reduced to their string
    rules: the extension starts at the last '.' that no directory separator
    follows. */
module Paths {
  import opened Basics

  predicate IsSeparator(c: char) {
    c == '/' || c == '\\'
  }

  /** No '.' and no directory separator anywhere in `s`. */
  predicate PlainSegment(s: string) {
    forall j :: 0 <= j < |s| ==> s[j] != '.' && !IsSeparator(s[j])
  }

  /** The index of the dot that starts the extension of `p`, if any: the
      last '.' that no directory separator follows. */
  function DotIndex(p: string): (r: Option<nat>)
    ensures r.Some? ==> r.value < |p|
  {
    DotIndexBelow(p, |p|)
  }

  /** The scan of `DotIndex`, from index `n - 1` down to the start of the path. */
  function DotIndexBelow(p: string, n: nat): (r: Option<nat>)
    requires n <= |p|
    ensures r.Some? ==> r.value < n
  {
    if n == 0 then None
    else if p[n - 1] == '.' then Some(n - 1)
    else if IsSeparator(p[n - 1]) then None
    else DotIndexBelow(p, n - 1)
  }

  /** Some directory separator lies strictly between `j` and `n`. */
  predicate SeparatorBetween(p: string, j: nat, n: nat)
    requires n <= |p|
  {
    exists k :: j < k < n && IsSeparator(p[k])
  }

  /** The dot found is a dot and only plain characters follow it; when none is
      found, every dot of the path is followed by a separator. */
  lemma DotIndexCorrect(p: string)
    ensures var r := DotIndex(p);
            r.Some? ==> p[r.value] == '.' && PlainSegment(p[r.value + 1..])
    ensures DotIndex(p).None? ==>
              forall j :: 0 <= j < |p| && p[j] == '.' ==> exists k :: j < k < |p| && IsSeparator(p[k])
  {
    var r := DotIndex(p);
    if r.Some? {
      DotFoundCorrect(p, |p|);
      assert p[r.value + 1..] == p[r.value + 1..|p|];
    } else {
      NoDotFoundCorrect(p, |p|);
      forall j | 0 <= j < |p| && p[j] == '.'
        ensures exists k :: j < k < |p| && IsSeparator(p[k])
      {
        assert SeparatorBetween(p, j, |p|);
      }
    }
  }

  lemma {:induction false} DotFoundCorrect(p: string, n: nat)
    requires n <= |p| && DotIndexBelow(p, n).Some?
    ensures var d := DotIndexBelow(p, n).value;
            p[d] == '.' && PlainSegment(p[d + 1..n])
    decreases n
  {
    if p[n - 1] != '.' {
      DotFoundCorrect(p, n - 1);
      var d := DotIndexBelow(p, n - 1).value;
      assert p[d + 1..n] == p[d + 1..n - 1] + [p[n - 1]];
    }
  }

  lemma {:induction false} NoDotFoundCorrect(p: string, n: nat)
    requires n <= |p| && DotIndexBelow(p, n).None?
    ensures forall j :: 0 <= j < n && p[j] == '.' ==> SeparatorBetween(p, j, n)
    decreases n
  {
    if n > 0 && !IsSeparator(p[n - 1]) {
      NoDotFoundCorrect(p, n - 1);
      forall j | 0 <= j < n && p[j] == '.'
        ensures SeparatorBetween(p, j, n)
      {
        var k :| j < k < n - 1 && IsSeparator(p[k]);
        assert j < k < n && IsSeparator(p[k]);
      }
    } else if n > 0 {
      forall j | 0 <= j < n && p[j] == '.'
        ensures SeparatorBetween(p, j, n)
      {
        assert j < n - 1 && IsSeparator(p[n - 1]);
      }
    }
  }

  /** `Path.GetExtension`: from the extension's dot to the end; empty when
      there is no dot or the dot is the last character. */
  function Extension(p: string): string {
    match DotIndex(p)
    case None => ""
    case Some(i) => if i == |p| - 1 then "" else p[i..]
  }

  /** The extension `ChangeExtension` puts on: `ext`, with a dot in front
      when it has none. */
  function Dotted(ext: string): (r: string)
    ensures |r| > 0 && r[0] == '.'
    ensures |ext| > 0 && ext[0] == '.' ==> r == ext
  {
    if |ext| > 0 && ext[0] == '.' then ext else "." + ext
  }

  /** `Path.ChangeExtension`: the path without its extension, then the new
      extension, with a dot put in front of it when it has none. */
  function ChangeExtension(p: string, ext: string): string
  {
    var stem := match DotIndex(p) case None => p case Some(i) => p[..i];
    stem + Dotted(ext)
  }

  /** A dot followed by a plain segment is where the extension starts. */
  lemma DotBeforePlainSegment(s: string, q: string)
    requires PlainSegment(q)
    ensures DotIndex(s + "." + q) == Some(|s|)
  {
    var p := s + "." + q;
    DotScanSkipsPlain(p, |s|, |p|);
  }

  lemma {:induction false} DotScanSkipsPlain(p: string, d: nat, n: nat)
    requires d < n <= |p| && p[d] == '.'
    requires forall j :: d < j < n ==> p[j] != '.' && !IsSeparator(p[j])
    ensures DotIndexBelow(p, n) == Some(d)
    decreases n
  {
    if n - 1 > d {
      DotScanSkipsPlain(p, d, n - 1);
    }
  }

  /** Appending an extension of the form ".xyz" makes it the path's extension. */
  lemma AppendedExtension(s: string, ext: string)
    requires |ext| >= 2 && ext[0] == '.' && PlainSegment(ext[1..])
    ensures Extension(s + ext) == ext
  {
    assert s + ext == s + "." + ext[1..];
    DotBeforePlainSegment(s, ext[1..]);
  }

  /** Changing the extension keeps everything before the old extension: for a
      path that does not end in a dot, the result is the path without
      `Extension(p)`, then the new extension. */
  lemma ChangeExtensionKeepsStem(p: string, ext: string)
    requires p == [] || p[|p| - 1] != '.'
    ensures |Extension(p)| <= |p|
    ensures ChangeExtension(p, ext) == p[..|p| - |Extension(p)|] + Dotted(ext)
  {
    DotIndexCorrect(p);
    if DotIndex(p).None? {
      assert p[..|p|] == p;
    }
  }

  /** A path ending in a dot has no extension, yet that dot is the one
      `ChangeExtension` replaces. */
  lemma TrailingDotReplaced(s: string, ext: string)
    ensures Extension(s + ".") == ""
    ensures ChangeExtension(s + ".", ext) == s + Dotted(ext)
  {
    assert (s + ".")[..|s|] == s;
  }

  /** Changing the extension to ".xyz" makes ".xyz" the extension. */
  lemma ChangedExtension(p: string, ext: string)
    requires |ext| >= 2 && ext[0] == '.' && PlainSegment(ext[1..])
    ensures Extension(ChangeExtension(p, ext)) == ext
  {
    var stem := match DotIndex(p) case None => p case Some(i) => p[..i];
    assert ChangeExtension(p, ext) == stem + ext;
    AppendedExtension(stem, ext);
  }
}
