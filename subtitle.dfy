/** The subtitle resource of a media item: the whitelist of subtitle
    extensions, the ordered search for a sidecar file, and the text exposed as a
    memoised UTF-8 byte stream. The subtitle converter (FFmpeg) and file
    existence are oracles handed in by the caller. */
module Subtitles {
  import opened Basics
  import opened Text
  import opened Paths

  /** The supported extensions, in search order; both cases are listed because
      the comparison is ordinal. */
  const Exts: seq<string> :=
    [".srt", ".SRT", ".ass", ".ASS", ".ssa", ".SSA", ".sub", ".SUB", ".vtt", ".VTT"]

  /** `SubtitleFormatSupported(string)`. */
  predicate SubtitleFormatSupported(ext: string) {
    ext in Exts
  }

  /** `SubtitleFormatSupported(FileInfo)`: the test on the file's extension. */
  predicate FileFormatSupported(path: string) {
    SubtitleFormatSupported(Extension(path))
  }

  /** The whitelist holds exactly the ten spellings, compared case-sensitively. */
  lemma SupportedExactly(ext: string)
    ensures SubtitleFormatSupported(ext) <==>
      ext == ".srt" || ext == ".SRT" || ext == ".ass" || ext == ".ASS" || ext == ".ssa" ||
      ext == ".SSA" || ext == ".sub" || ext == ".SUB" || ext == ".vtt" || ext == ".VTT"
    ensures !SubtitleFormatSupported(".Srt") && !SubtitleFormatSupported("srt")
  {
    assert ".Srt" != ".srt" && ".Srt" != ".SRT" by { assert ".Srt"[1] == 'S' && ".Srt"[2] == 'r'; }
  }

  /** Every whitelisted extension is a dot followed by a plain name. */
  lemma ExtsArePlain(k: nat)
    requires k < |Exts|
    ensures |Exts[k]| >= 2 && Exts[k][0] == '.' && PlainSegment(Exts[k][1..])
  {
    var e := Exts[k];
    assert |e| == 4 && e[0] == '.';
    assert e[1..] == [e[1], e[2], e[3]];
  }

  /** What `FFmpeg.GetSubtitleSubrip` does with one file: the SubRip text it
      returns (possibly null), a NotSupportedException, or another exception. */
  datatype ConvOutcome = Converted(text: Option<string>) | ConvNotSupported | ConvFailed

  type Converter = string -> ConvOutcome

  /** The sidecar file tried for one extension: the path with its extension
      replaced when that file exists, otherwise the path with the extension
      appended when that one exists. */
  function Candidate(path: string, ext: string, files: set<string>): (r: Option<string>)
    ensures r.Some? ==> r.value in files
    ensures r.None? <==> ChangeExtension(path, ext) !in files && path + ext !in files
    ensures ChangeExtension(path, ext) in files ==> r == Some(ChangeExtension(path, ext))
    ensures ChangeExtension(path, ext) !in files && path + ext in files ==> r == Some(path + ext)
  {
    var replaced := ChangeExtension(path, ext);
    if replaced in files then Some(replaced)
    else if path + ext in files then Some(path + ext)
    else None
  }

  /** A conversion that ends the search: it returned a non-empty string. */
  predicate Yields(conv: Converter, file: string) {
    conv(file).Converted? && !IsNullOrEmpty(conv(file).text)
  }

  /** The candidates of all whitelisted extensions, in search order. */
  function CandidateList(path: string, files: set<string>): (r: seq<Option<string>>)
    ensures |r| == |Exts|
    ensures forall k {:trigger r[k]} :: 0 <= k < |Exts| ==> r[k] == Candidate(path, Exts[k], files)
  {
    seq(|Exts|, k requires 0 <= k < |Exts| => Candidate(path, Exts[k], files))
  }

  /** Candidate `k` exists and yields text. */
  predicate Hit(cands: seq<Option<string>>, conv: Converter, k: nat)
    requires k < |cands|
  {
    cands[k].Some? && Yields(conv, cands[k].value)
  }

  /** The text a search ends with, and the files handed to the converter, in order. */
  datatype LoadRun = LoadRun(text: Option<string>, consulted: seq<string>)

  function Prepend(files: seq<string>, run: LoadRun): LoadRun {
    LoadRun(run.text, files + run.consulted)
  }

  /** The sidecar search from candidate `i` on; `text` is the winning text, or
      `None` when every candidate was missing, failed or gave nothing. A
      candidate always passes the loop's format check (`CandidateSupported`),
      so the check does not appear here. */
  function SearchFrom(cands: seq<Option<string>>, conv: Converter, i: nat): LoadRun
    decreases |cands| - i
  {
    if i >= |cands| then LoadRun(None, [])
    else
      match cands[i]
      case None => SearchFrom(cands, conv, i + 1)
      case Some(c) =>
        if Yields(conv, c) then LoadRun(conv(c).text, [c])
        else Prepend([c], SearchFrom(cands, conv, i + 1))
  }

  /** What is left when no sidecar wins: the empty string, or the conversion
      of the media file itself when its own extension is a subtitle one. */
  function FallbackText(path: string, conv: Converter): Option<string> {
    if !FileFormatSupported(path) then Some("")
    else match conv(path)
      case Converted(t) => t
      case _ => Some("")
  }

  /** The whole of `Load`: the sidecar search, then the fallback. */
  function LoadSpec(path: string, files: set<string>, conv: Converter): LoadRun {
    var search := SearchFrom(CandidateList(path, files), conv, 0);
    if search.text.Some? then search
    else LoadRun(FallbackText(path, conv),
                 search.consulted + (if FileFormatSupported(path) then [path] else []))
  }

  /** The existing candidates among `cands[lo..hi]`, in order: an independent
      description of the files a search visits. */
  function ExistingCandidates(cands: seq<Option<string>>, lo: nat, hi: nat): seq<string>
    requires hi <= |cands|
    decreases hi - lo
  {
    if lo >= hi then []
    else (if cands[lo].Some? then [cands[lo].value] else []) + ExistingCandidates(cands, lo + 1, hi)
  }

  /** Every candidate is a file that exists, and it always passes the format
      check: the check in the loop can never skip a candidate. */
  lemma CandidateSupported(path: string, files: set<string>, k: nat)
    requires k < |Exts|
    ensures var c := Candidate(path, Exts[k], files);
            c.Some? ==> c.value in files && FileFormatSupported(c.value)
  {
    ExtsArePlain(k);
    ChangedExtension(path, Exts[k]);
    AppendedExtension(path, Exts[k]);
  }

  /** The search returns text exactly when some candidate yields; the first
      yielding candidate wins and the converter never sees a later one. */
  lemma {:induction false} SearchFirstHit(cands: seq<Option<string>>, conv: Converter, i: nat)
    requires i <= |cands|
    ensures SearchFrom(cands, conv, i).text.Some? <==> exists k :: i <= k < |cands| && Hit(cands, conv, k)
    ensures forall k :: i <= k < |cands| && Hit(cands, conv, k) &&
                        (forall j :: i <= j < k ==> !Hit(cands, conv, j)) ==>
              SearchFrom(cands, conv, i) == LoadRun(conv(cands[k].value).text, ExistingCandidates(cands, i, k + 1))
    ensures (forall k :: i <= k < |cands| ==> !Hit(cands, conv, k)) ==>
              SearchFrom(cands, conv, i) == LoadRun(None, ExistingCandidates(cands, i, |cands|))
    decreases |cands| - i
  {
    if i < |cands| {
      SearchFirstHit(cands, conv, i + 1);
      if Hit(cands, conv, i) {
        assert ExistingCandidates(cands, i + 1, i + 1) == [];
      }
    }
  }

  lemma PrependTwice(files: seq<string>, file: string, run: LoadRun)
    ensures Prepend(files + [file], run) == Prepend(files, Prepend([file], run))
  {
    assert files + [file] + run.consulted == files + ([file] + run.consulted);
  }

  /** One turn of `Load`'s loop: how the rest of the search continues from
      candidate `i`, given the files already handed to the converter. */
  lemma LoadStep(path: string, files: set<string>, conv: Converter, i: nat, tried: seq<string>)
    requires i < |Exts|
    requires SearchFrom(CandidateList(path, files), conv, 0) ==
             Prepend(tried, SearchFrom(CandidateList(path, files), conv, i))
    ensures var c := CandidateList(path, files)[i];
            c.None? ==>
              SearchFrom(CandidateList(path, files), conv, 0) ==
              Prepend(tried, SearchFrom(CandidateList(path, files), conv, i + 1))
    ensures var c := CandidateList(path, files)[i];
            c.Some? ==> FileFormatSupported(c.value)
    ensures var c := CandidateList(path, files)[i];
            c.Some? && !Yields(conv, c.value) ==>
              SearchFrom(CandidateList(path, files), conv, 0) ==
              Prepend(tried + [c.value], SearchFrom(CandidateList(path, files), conv, i + 1))
    ensures var c := CandidateList(path, files)[i];
            c.Some? && Yields(conv, c.value) ==>
              SearchFrom(CandidateList(path, files), conv, 0) == LoadRun(conv(c.value).text, tried + [c.value])
  {
    var cands := CandidateList(path, files);
    CandidateSupported(path, files, i);
    if cands[i].Some? {
      PrependTwice(tried, cands[i].value, SearchFrom(cands, conv, i + 1));
    }
  }

  /** When candidate `k` is the first that yields, its text is loaded and the
      converter has seen exactly the existing candidates up to it. */
  lemma LoadFirstHit(path: string, files: set<string>, conv: Converter, k: nat)
    requires k < |Exts|
    requires Hit(CandidateList(path, files), conv, k)
    requires forall j :: 0 <= j < k ==> !Hit(CandidateList(path, files), conv, j)
    ensures var cands := CandidateList(path, files);
            LoadSpec(path, files, conv) == LoadRun(conv(cands[k].value).text, ExistingCandidates(cands, 0, k + 1))
    ensures LoadSpec(path, files, conv).text.Some? && LoadSpec(path, files, conv).text.value != ""
  {
    SearchFirstHit(CandidateList(path, files), conv, 0);
  }

  /** When no sidecar yields, the text is the fallback, and the media file
      itself is converted only when its extension is a subtitle extension. */
  lemma NoHitFallsBack(path: string, files: set<string>, conv: Converter)
    requires forall k :: 0 <= k < |Exts| ==> !Hit(CandidateList(path, files), conv, k)
    ensures LoadSpec(path, files, conv).text == FallbackText(path, conv)
    ensures !FileFormatSupported(path) ==> LoadSpec(path, files, conv).text == Some("")
    ensures LoadSpec(path, files, conv).consulted ==
            ExistingCandidates(CandidateList(path, files), 0, |Exts|) +
            (if FileFormatSupported(path) then [path] else [])
  {
    SearchFirstHit(CandidateList(path, files), conv, 0);
  }

  /** Every file handed to the converter exists: the existing candidates, and
      the media file itself (which exists whenever `Load` runs). */
  lemma {:induction false} ExistingCandidatesExist(path: string, files: set<string>, lo: nat, hi: nat)
    requires hi <= |Exts|
    ensures forall f :: f in ExistingCandidates(CandidateList(path, files), lo, hi) ==> f in files
    decreases hi - lo
  {
    if lo < hi {
      ExistingCandidatesExist(path, files, lo + 1, hi);
      CandidateSupported(path, files, lo);
    }
  }

  /** For `movie.mp4` with both `movie.srt` and `movie.mp4.srt` present,
      `movie.srt` is converted and, when it yields, nothing else is. */
  lemma MovieExample(conv: Converter, t: string)
    requires conv("movie.srt") == Converted(Some(t)) && t != ""
    ensures LoadSpec("movie.mp4", {"movie.srt", "movie.mp4.srt"}, conv) == LoadRun(Some(t), ["movie.srt"])
  {
    var p := "movie.mp4";
    assert p == "movie" + "." + "mp4";
    DotBeforePlainSegment("movie", "mp4");
    assert ChangeExtension(p, ".srt") == "movie.srt";
    ExtsArePlain(0);
    ChangedExtension(p, ".srt");
    assert FileFormatSupported("movie.srt");
  }

  /** A read-only `MemoryStream` over a byte buffer. */
  class ReadOnlyStream {
    const data: seq<byte>
    const writable: bool

    constructor (data: seq<byte>)
      ensures this.data == data && !writable
    {
      this.data := data;
      writable := false;
    }

    function Length(): nat {
      |data|
    }
  }

  class Subtitle {
    /** The SubRip text; `None` (null) when nothing was loaded. */
    var text: Option<string>
    /** The memoised UTF-8 form of `text`, filled by the first content stream. */
    var encodedText: Option<seq<byte>>
    /** The files handed to the converter while the text was loaded, in order. */
    ghost var consulted: seq<string>
    /** How many times `text` was encoded. */
    ghost var encodings: nat

    /** The memoised bytes, once present, are the encoding of the text. */
    ghost predicate Valid()
      reads this
    {
      encodedText.Some? ==> text.Some? && encodedText.value == Utf8(text.value)
    }

    /** `Subtitle()`: no text. */
    constructor Empty()
      ensures Valid() && text == None && encodedText == None
      ensures consulted == [] && encodings == 0
    {
      text, encodedText := None, None;
      consulted, encodings := [], 0;
    }

    /** `Subtitle(string)`: the text verbatim. */
    constructor FromText(txt: Option<string>)
      ensures Valid() && text == txt && encodedText == None
      ensures consulted == [] && encodings == 0
    {
      text, encodedText := txt, None;
      consulted, encodings := [], 0;
    }

    /** `Subtitle(FileInfo)`: loads only when the file exists. */
    constructor FromFile(path: string, files: set<string>, conv: Converter)
      ensures Valid() && encodedText == None && encodings == 0
      ensures path in files ==> text == LoadSpec(path, files, conv).text &&
                                 consulted == LoadSpec(path, files, conv).consulted
      ensures path !in files ==> text == None && consulted == []
    {
      text, encodedText := None, None;
      consulted, encodings := [], 0;
      new;
      if path in files {
        Load(path, files, conv);
      }
    }

    /** The first half of `Load`, the search for an external subtitle: each
        whitelisted extension in turn, the sidecar file with that extension
        converted when it exists. A conversion that throws is skipped; one
        that returns null or "" still overwrites the text before the search
        goes on. `found` says whether the search ended with text. The
        candidates are computed up front as `CandidateList`; because `files`
        does not change during the loop, `cands[i]` is the file the source
        computes for `Exts[i]` in turn. */
    method LoadExternal(path: string, files: set<string>, conv: Converter) returns (found: bool)
      modifies this`text, this`consulted
      ensures found <==> SearchFrom(CandidateList(path, files), conv, 0).text.Some?
      ensures found ==> text == SearchFrom(CandidateList(path, files), conv, 0).text
      ensures consulted == old(consulted) + SearchFrom(CandidateList(path, files), conv, 0).consulted
    {
      var cands := CandidateList(path, files);
      ghost var whole := SearchFrom(cands, conv, 0);
      ghost var tried: seq<string> := [];
      for i := 0 to |Exts|
        invariant consulted == old(consulted) + tried
        invariant whole == Prepend(tried, SearchFrom(cands, conv, i))
      {
        var candidate := cands[i];
        LoadStep(path, files, conv, i, tried);
        if candidate.None? {
          continue;
        }
        var sti := candidate.value;
        if !FileFormatSupported(sti) {
          continue;
        }
        var result := conv(sti);
        consulted, tried := consulted + [sti], tried + [sti];
        if result.Converted? {
          text := result.text;
          if !IsNullOrEmpty(text) {
            return true;
          }
        }
      }
      assert tried + [] == tried;
      found := false;
    }

    /** `Load`: the search for an external subtitle, then the media file
        itself, converted only when its own extension is whitelisted. */
    method Load(path: string, files: set<string>, conv: Converter)
      modifies this`text, this`consulted
      ensures text == LoadSpec(path, files, conv).text
      ensures consulted == old(consulted) + LoadSpec(path, files, conv).consulted
    {
      var found := LoadExternal(path, files, conv);
      if found {
        return;
      }
      text := Some("");
      if FileFormatSupported(path) {
        var result := conv(path);
        consulted := consulted + [path];
        if result.Converted? {
          text := result.text;
        }
      }
    }

    /** `HasSubtitle`: the text holds a character that is not white space. */
    predicate HasSubtitle()
      reads this
      ensures HasSubtitle() <==>
        text.Some? && exists i :: 0 <= i < |text.value| && !IsWhiteSpace(text.value[i])
    {
      !IsNullOrWhiteSpace(text)
    }

    /** `CreateContentStream`: NotSupported without text; otherwise a fresh
        read-only stream over the UTF-8 bytes, encoded on the first call only. */
    method CreateContentStream() returns (r: Result<ReadOnlyStream>)
      requires Valid()
      modifies this`encodedText, this`encodings
      ensures Valid()
      ensures !HasSubtitle() ==> r == Failure(NotSupported)
      ensures HasSubtitle() ==> r.Success? && fresh(r.value) && !r.value.writable &&
                                r.value.data == Utf8(text.value)
      ensures encodedText == if HasSubtitle() then Some(Utf8(text.value)) else old(encodedText)
      ensures encodings == old(encodings) + if HasSubtitle() && old(encodedText).None? then 1 else 0
    {
      if !HasSubtitle() {
        return Failure(NotSupported);
      }
      if encodedText.None? {
        encodedText := Some(Utf8(text.value));
        encodings := encodings + 1;
      }
      var s := new ReadOnlyStream(encodedText.value);
      r := Success(s);
    }

    /** `InfoSize`: the length of a content stream, or none when creating one fails. */
    method InfoSize() returns (r: Option<nat>)
      requires Valid()
      modifies this`encodedText, this`encodings
      ensures Valid()
      ensures r == if HasSubtitle() then Some(|Utf8(text.value)|) else None
      ensures encodedText == if HasSubtitle() then Some(Utf8(text.value)) else old(encodedText)
      ensures encodings == old(encodings) + if HasSubtitle() && old(encodedText).None? then 1 else 0
    {
      var s := CreateContentStream();
      if s.Failure? {
        return None;
      }
      r := Some(s.value.Length());
    }

    /** `Path`: a fixed pseudo-location. */
    function Path(): string {
      "ad-hoc-subtitle:"
    }

    /** `Id` get. */
    function Id(): string {
      Path()
    }

    /** `Id` set: not implemented. */
    method SetId(id: string) returns (r: Outcome)
      ensures r == Fail(NotImplemented)
    {
      r := Fail(NotImplemented);
    }

    function Cover(): Result<()> {
      Failure(NotImplemented)
    }

    function MediaType(): Result<()> {
      Failure(NotImplemented)
    }

    function Title(): Result<string> {
      Failure(NotImplemented)
    }

    function CompareTo(other: Subtitle): Result<int> {
      Failure(NotImplemented)
    }

    function Equals(other: Subtitle): Result<bool> {
      Failure(NotImplemented)
    }

    function ToComparableTitle(): Result<string> {
      Failure(NotImplemented)
    }
  }

  /** Two content streams of one subtitle: the text is encoded at most once,
      and both streams are distinct objects over the same bytes. */
  method TwoStreams(s: Subtitle) returns (r1: Result<ReadOnlyStream>, r2: Result<ReadOnlyStream>)
    requires s.Valid()
    modifies s
    ensures s.encodings <= old(s.encodings) + 1
    ensures r1.Success? <==> r2.Success?
    ensures r1.Success? ==> r1.value != r2.value && r1.value.data == r2.value.data
  {
    r1 := s.CreateContentStream();
    r2 := s.CreateContentStream();
  }

  /** The members outside the subtitle's capability set fail whatever its
      text, and its identifier is the fixed pseudo-location. */
  lemma UnsupportedMembers(s: Subtitle, other: Subtitle)
    ensures s.Cover() == Failure(NotImplemented) && s.MediaType() == Failure(NotImplemented)
    ensures s.Title() == Failure(NotImplemented) && s.ToComparableTitle() == Failure(NotImplemented)
    ensures s.CompareTo(other) == Failure(NotImplemented) && s.Equals(other) == Failure(NotImplemented)
    ensures s.Id() == "ad-hoc-subtitle:"
  {
  }
}
