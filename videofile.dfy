/** A video entry of the file server: its metadata fields behind a one-way
    initialization latch, its bookmark, its lazily found subtitle and its
    persisted snapshot. The tag reader, the subtitle converter and file
    existence are handed in by the caller; every call of
    `Server.UpdateFileCache(this)` is counted in `cacheUpdates`. */
module VideoFiles {
  import opened Basics
  import opened Text
  import opened Paths
  import opened Subtitles
  import opened VideoMeta
  import opened Codec

  class VideoFile {
    /** `Item.FullName`. */
    const path: string
    var actors: Option<seq<string>>
    var bookmark: int64
    var description: Option<string>
    var director: Option<string>
    var duration: Option<int64>
    var genre: Option<string>
    var height: int32
    var initialized: bool
    var subTitle: Subtitle?
    var title: Option<string>
    var width: int32
    /** How often the tag reader was called. */
    ghost var readerCalls: nat
    /** How often the cache store was told about a change. */
    ghost var cacheUpdates: nat

    /** The metadata fields. */
    function Fields(): Meta
      reads this
    {
      Meta(actors, description, director, genre, title, duration, width, height)
    }

    /** Durations are never negative, and a subtitle keeps its bytes in step
        with its text. */
    ghost predicate Valid()
      reads this, subTitle
    {
      (duration.Some? ==> duration.value >= 0) &&
      (subTitle != null ==> subTitle.Valid())
    }

    /** The persisted fields, as `GetObjectData` writes them. */
    function Snap(): Snapshot
      reads this, subTitle
    {
      Snapshot(actors, description, director, genre, title, width, height, bookmark, duration,
               if subTitle == null then None else Some(subTitle.text))
    }

    /** A freshly scanned file: no metadata yet, and a subtitle only when the
        file with its extension changed to ".srt" exists. */
    constructor (path: string, files: set<string>, conv: Converter)
      ensures this.path == path && Fields() == EmptyMeta && bookmark == 0 && !initialized
      ensures readerCalls == 0 && cacheUpdates == 0 && Valid()
      ensures var srt := ChangeExtension(path, ".srt");
              (srt in files ==> subTitle != null && fresh(subTitle) &&
                                subTitle.text == LoadSpec(srt, files, conv).text) &&
              (srt !in files ==> subTitle == null)
    {
      this.path := path;
      actors, description, director, genre, title := None, None, None, None, None;
      duration, width, height, bookmark := None, 0, 0, 0;
      initialized, subTitle := false, null;
      readerCalls, cacheUpdates := 0, 0;
      new;
      var subtitleFile := ChangeExtension(path, ".srt");
      if subtitleFile in files {
        subTitle := new Subtitle.FromFile(subtitleFile, files, conv);
      }
    }

    /** One call of `MaybeInit` did what `MaybeInitSpec` says, and touched
        nothing else. */
    twostate predicate InitRan(o: TagReadOutcome)
      reads this
    {
      var r := MaybeInitSpec(old(Fields()), old(initialized), o);
      Fields() == r.meta && initialized == r.initialized &&
      readerCalls == old(readerCalls) + r.readerCalls &&
      cacheUpdates == old(cacheUpdates) + r.notifications &&
      bookmark == old(bookmark) && subTitle == old(subTitle)
    }

    /** `MaybeInit`, given what the tag reader does on this call. */
    method MaybeInit(o: TagReadOutcome)
      requires Valid()
      modifies this
      ensures Valid() && InitRan(o)
    {
      if initialized {
        return;
      }
      readerCalls := readerCalls + 1;
      match o
      case Opened(p, tag) =>
        TransposeProperties(p);
        TransposeTag(tag);
        initialized := true;
        cacheUpdates := cacheUpdates + 1;
      case CorruptFile =>
        initialized := true;
      case UnsupportedFormat =>
        initialized := true;
      case OtherFailure =>
    }

    /** The first try block of `MaybeInit`. */
    method TransposeProperties(p: MediaProperties)
      requires Valid()
      modifies this`duration, this`width, this`height
      ensures Valid()
      ensures Fields() == ReadProperties(old(Fields()), p)
    {
      PropertiesKeepDurationValid(Fields(), p);
      match p.duration
      case Threw =>
      case Got(d) =>
        duration := Some(d);
        if d < MinDurationTicks {
          duration := None;
        }
        match p.videoWidth
        case Threw =>
        case Got(w) =>
          width := w;
          match p.videoHeight
          case Threw =>
          case Got(h) =>
            height := h;
    }

    /** The second try block of `MaybeInit`. */
    method TransposeTag(tag: Access<MediaTag>)
      modifies this`genre, this`title, this`description, this`director, this`actors
      ensures Fields() == ReadTag(old(Fields()), tag)
    {
      match tag
      case Threw =>
      case Got(t) =>
        match t.firstGenre
        case Threw =>
        case Got(g) =>
          genre := g;
          match t.title
          case Threw =>
          case Got(ti) =>
            title := ti;
            match t.comment
            case Threw =>
            case Got(c) =>
              description := c;
              var running := TransposeDirector(t);
              if running {
                TransposeActors(t);
              }
    }

    method TransposeDirector(t: MediaTag) returns (running: bool)
      modifies this`director
      ensures TagRun(Fields(), running) == ReadDirector(old(Fields()), t)
    {
      match t.firstComposerSort
      case Threw =>
        return false;
      case Got(d) =>
        director := d;
        if IsNullOrWhiteSpace(director) {
          match t.firstComposer
          case Threw =>
            return false;
          case Got(c) =>
            director := c;
        }
        return true;
    }

    method TransposeActors(t: MediaTag)
      modifies this`actors
      ensures Fields() == ReadActors(old(Fields()), t)
    {
      match t.performersSort
      case Threw =>
      case Got(a) =>
        actors := a;
        if NoNames(actors) {
          match t.performersSort
          case Threw =>
          case Got(a2) =>
            actors := a2;
            if NoNames(actors) {
              match t.performers
              case Threw =>
              case Got(b) =>
                actors := b;
                if NoNames(actors) {
                  match t.albumArtists
                  case Threw =>
                  case Got(c) =>
                    actors := c;
                }
            }
        }
    }

    /** `MetaActors`. */
    method MetaActors(o: TagReadOutcome) returns (r: Option<seq<string>>)
      requires Valid()
      modifies this
      ensures Valid() && InitRan(o) && r == actors
    {
      MaybeInit(o);
      r := actors;
    }

    /** `MetaDescription`. */
    method MetaDescription(o: TagReadOutcome) returns (r: Option<string>)
      requires Valid()
      modifies this
      ensures Valid() && InitRan(o) && r == description
    {
      MaybeInit(o);
      r := description;
    }

    /** `MetaDirector`. */
    method MetaDirector(o: TagReadOutcome) returns (r: Option<string>)
      requires Valid()
      modifies this
      ensures Valid() && InitRan(o) && r == director
    {
      MaybeInit(o);
      r := director;
    }

    /** `MetaDuration`. */
    method MetaDuration(o: TagReadOutcome) returns (r: Option<int64>)
      requires Valid()
      modifies this
      ensures Valid() && InitRan(o) && r == duration
    {
      MaybeInit(o);
      r := duration;
    }

    /** `MetaGenre`: NotSupported for a blank genre. */
    method MetaGenre(o: TagReadOutcome) returns (r: Result<string>)
      requires Valid()
      modifies this
      ensures Valid() && InitRan(o) && r == GenreView(genre)
    {
      MaybeInit(o);
      if IsNullOrWhiteSpace(genre) {
        return Failure(NotSupported);
      }
      r := Success(genre.value);
    }

    /** `MetaHeight`: none for the 0 sentinel. */
    method MetaHeight(o: TagReadOutcome) returns (r: Option<int32>)
      requires Valid()
      modifies this
      ensures Valid() && InitRan(o) && r == DimensionView(height)
    {
      MaybeInit(o);
      if height == 0 {
        return None;
      }
      r := Some(height);
    }

    /** `MetaWidth`: none for the 0 sentinel. */
    method MetaWidth(o: TagReadOutcome) returns (r: Option<int32>)
      requires Valid()
      modifies this
      ensures Valid() && InitRan(o) && r == DimensionView(width)
    {
      MaybeInit(o);
      if width == 0 {
        return None;
      }
      r := Some(width);
    }

    /** `Bookmark` get. */
    function Bookmark(): (r: Option<int64>)
      reads this
      ensures r.None? <==> bookmark == 0
      ensures r.Some? ==> r.value == bookmark
    {
      BookmarkView(bookmark)
    }

    /** `Bookmark` set: a bookmark is stored and announced; clearing stores the
        0 sentinel and announces nothing. */
    method SetBookmark(v: Option<int64>)
      modifies this`bookmark, this`cacheUpdates
      ensures bookmark == StoredBookmark(v)
      ensures cacheUpdates == old(cacheUpdates) + if v.Some? then 1 else 0
    {
      if v.Some? {
        bookmark := v.value;
        cacheUpdates := cacheUpdates + 1;
      } else {
        bookmark := 0;
      }
    }

    /** `Properties`: the base properties, then this entry's own. */
    method Properties(o: TagReadOutcome, baseProperties: seq<(string, string)>, formatDuration: int64 -> string)
      returns (rv: seq<(string, string)>)
      requires Valid()
      modifies this
      ensures Valid() && InitRan(o)
      ensures rv == baseProperties + Headers(ExtraProperties(Fields(), formatDuration))
    {
      MaybeInit(o);
      rv := baseProperties + Headers(ExtraProperties(Fields(), formatDuration));
    }

    /** `Title`: composed from the base title and the tag title as it stands;
        it does not run the extraction. */
    function Title(baseTitle: string): (r: string)
      reads this
      ensures IsNullOrWhiteSpace(title) ==> r == baseTitle
      ensures !IsNullOrWhiteSpace(title) ==>
                r == baseTitle + " — " + title.value && r[..|baseTitle|] == baseTitle
    {
      DisplayTitle(baseTitle, title)
    }

    /** The `Subtitle` getter: the subtitle if there is one; otherwise a new
        one loaded from the entry's own file, which is then announced. */
    method GetSubtitle(files: set<string>, conv: Converter) returns (s: Subtitle)
      requires Valid()
      modifies this`subTitle, this`cacheUpdates
      ensures Valid() && subTitle == s
      ensures old(subTitle) != null ==> s == old(subTitle) && cacheUpdates == old(cacheUpdates)
      ensures old(subTitle) == null ==>
                fresh(s) && cacheUpdates == old(cacheUpdates) + 1 && s.encodedText == None &&
                s.text == (if path in files then LoadSpec(path, files, conv).text else None)
    {
      if subTitle == null {
        subTitle := new Subtitle.FromFile(path, files, conv);
        cacheUpdates := cacheUpdates + 1;
      }
      s := subTitle;
    }

    /** `GetObjectData`: a null target is refused before anything happens;
        otherwise the fields are extracted if need be and the ten members are
        added in order, the first refused one ending the run. */
    method GetObjectData(info: SerializationInfo?, o: TagReadOutcome) returns (r: Outcome)
      requires Valid() && (info != null ==> info.Valid())
      modifies this, info
      ensures info == null ==> r == Fail(ArgumentNull) && unchanged(this)
      ensures info != null ==>
                Valid() && InitRan(o) && info.Valid() &&
                AddRun(r, info.members) == AddAll(old(info.members), Encode(Snap()))
    {
      if info == null {
        return Fail(ArgumentNull);
      }
      MaybeInit(o);
      ghost var before := info.members;
      r := WriteSnapshot(info, Snap());
      AddAllKeepsUnique(before, Encode(Snap()));
    }

    /** The deserialising constructor's field assignments, after the file's own
        construction. */
    method Restore(d: Snapshot)
      requires Valid() && d.duration.Some? && d.duration.value >= 0
      modifies this
      ensures Valid() && initialized
      ensures Fields() == Meta(d.actors, d.description, d.director, d.genre, d.title, d.duration, d.width, d.height)
      ensures bookmark == d.bookmark
      ensures d.subtitle.None? ==> subTitle == old(subTitle)
      ensures d.subtitle.Some? ==> subTitle != null && fresh(subTitle) && subTitle.text == d.subtitle.value &&
                                   subTitle.encodedText == None
      ensures readerCalls == old(readerCalls) && cacheUpdates == old(cacheUpdates)
    {
      actors, description, director, genre, title := d.actors, d.description, d.director, d.genre, d.title;
      width, height := d.width, d.height;
      duration := d.duration;
      bookmark := d.bookmark;
      if d.subtitle.Some? {
        subTitle := new Subtitle.FromText(d.subtitle.value);
      }
      initialized := true;
    }
  }

  /** `VideoFile(SerializationInfo, DeserializeInfo)`: the file is set up as a
      fresh scan would (including the ".srt" probe), then the members present
      with a non-null value are read back; the entry is initialized. A member
      of the wrong type fails the whole reconstruction. */
  method Deserialize(path: string, files: set<string>, conv: Converter, info: SerializationInfo)
    returns (r: Result<VideoFile>)
    ensures r.Success? <==> DecodeInfo(info.members).Success?
    ensures r.Success? ==>
              var d := DecodeInfo(info.members).value;
              var v := r.value;
              fresh(v) && v.Valid() && v.initialized && v.path == path &&
              v.Fields() == Meta(d.actors, d.description, d.director, d.genre, d.title, d.duration, d.width, d.height) &&
              v.bookmark == d.bookmark && v.readerCalls == 0 && v.cacheUpdates == 0 &&
              (d.subtitle.Some? ==> v.subTitle != null && v.subTitle.text == d.subtitle.value) &&
              (d.subtitle.None? && ChangeExtension(path, ".srt") in files ==>
                 v.subTitle != null && v.subTitle.text == LoadSpec(ChangeExtension(path, ".srt"), files, conv).text) &&
              (d.subtitle.None? && ChangeExtension(path, ".srt") !in files ==> v.subTitle == null)
  {
    var v := new VideoFile(path, files, conv);
    var fields := PresentNames(info);
    var d :- Decode(info.members, fields);
    v.Restore(d);
    r := Success(v);
  }

  /** Two accessor calls in a row run the extraction at most once and notify
      the cache at most once, unless the first read failed in a way that is
      retried. */
  method TwoAccessesOneExtraction(v: VideoFile, o1: TagReadOutcome, o2: TagReadOutcome)
    requires v.Valid()
    modifies v
    ensures v.readerCalls <= old(v.readerCalls) + 1 || (!old(v.initialized) && o1.OtherFailure?)
    ensures v.cacheUpdates <= old(v.cacheUpdates) + 1
  {
    ghost var m := v.Fields();
    ghost var init := v.initialized;
    var d := v.MetaDirector(o1);
    var g := v.MetaGenre(o2);
    AtMostOneExtraction(m, init, o1, o2);
  }

  /** A fresh target receives exactly the encoding of the snapshot. */
  lemma FreshTargetGetsEncoding(s: Snapshot)
    ensures AddAll([], Encode(s)) == AddRun(Pass, Encode(s))
  {
    EncodeUnique(s);
    AddAllFresh([], Encode(s));
    assert [] + Encode(s) == Encode(s);
  }
}
