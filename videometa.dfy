/** The metadata of a video entry and the rules that fill and expose it: what
    one call of the extraction latch does with the outcome of the tag reader
    (TagLib), the sentinel-mapping accessors, the ordered property list and the
    composed title. */
module VideoMeta {
  import opened Basics
  import opened Text

  /** The descriptive and structural fields the extraction fills. Durations are
      TimeSpan tick counts (10^7 per second); `None` is the null `TimeSpan?`. */
  datatype Meta = Meta(
    actors: Option<seq<string>>,
    description: Option<string>,
    director: Option<string>,
    genre: Option<string>,
    title: Option<string>,
    duration: Option<int64>,
    width: int32,
    height: int32)

  /** The fields of a freshly constructed entry: null references and 0 sentinels. */
  const EmptyMeta := Meta(None, None, None, None, None, None, 0, 0)

  /** What the reader's `Properties` object answers: each read gives a value or
      throws. */
  datatype MediaProperties = MediaProperties(
    duration: Access<int64>,
    videoWidth: Access<int32>,
    videoHeight: Access<int32>)

  /** What the reader's `Tag` object answers, read by read. A read that is done
      twice gives the same answer both times. */
  datatype MediaTag = MediaTag(
    firstGenre: Access<Option<string>>,
    title: Access<Option<string>>,
    comment: Access<Option<string>>,
    firstComposerSort: Access<Option<string>>,
    firstComposer: Access<Option<string>>,
    performersSort: Access<Option<seq<string>>>,
    performers: Access<Option<seq<string>>>,
    albumArtists: Access<Option<seq<string>>>)

  /** What `TagLib.File.Create` does on one call: it opens the file (and then
      `Tag` itself may throw), or throws one of the recognised format
      exceptions, or throws anything else. */
  datatype TagReadOutcome =
    | Opened(properties: MediaProperties, tag: Access<MediaTag>)
    | CorruptFile
    | UnsupportedFormat
    | OtherFailure

  /** 0.1 s in ticks: shorter durations are noise. */
  const MinDurationTicks: int64 := 1_000_000

  /** A reported duration, or none when it is shorter than 0.1 s, with
      `TotalSeconds` computed as ticks divided by 10,000,000 (.NET Core and
      later .NET). */
  function NormalizeDuration(ticks: int64): (r: Option<int64>)
    ensures r.None? <==> ticks < MinDurationTicks
    ensures r.Some? ==> r.value == ticks
  {
    if ticks < MinDurationTicks then None else Some(ticks)
  }

  /** Exactly 0.1 s is kept; 0.09 s is dropped, and so is anything negative. */
  lemma DurationThreshold()
    ensures NormalizeDuration(1_000_000) == Some(1_000_000)
    ensures NormalizeDuration(900_000) == None
    ensures forall t: int64 :: t < 0 ==> NormalizeDuration(t) == None
  {
  }

  /** The same test as the .NET Framework runtime evaluates it. There
      `TotalSeconds` multiplies the ticks by the double nearest 1e-7, and
      1,000,000 ticks come out just below 0.1, so exactly 0.1 s is dropped
      too. The rest of the model uses `NormalizeDuration`. */
  function NormalizeDurationFramework(ticks: int64): (r: Option<int64>)
    ensures r.None? <==> ticks <= MinDurationTicks
    ensures r.Some? ==> r.value == ticks
  {
    if ticks <= MinDurationTicks then None else Some(ticks)
  }

  /** The two runtimes' rules disagree on exactly one tick count, 0.1 s. */
  lemma ThresholdRuntimes(t: int64)
    ensures NormalizeDuration(t) != NormalizeDurationFramework(t) <==> t == MinDurationTicks
    ensures NormalizeDurationFramework(MinDurationTicks) == None
  {
  }

  /** The first try block: duration, then width, then height; a read that
      throws ends the block and leaves the later fields as they were. Only the
      structural fields can change. */
  function ReadProperties(m: Meta, p: MediaProperties): (r: Meta)
    ensures r.(duration := m.duration, width := m.width, height := m.height) == m
    ensures p.duration.Threw? ==> r == m
    ensures p.videoWidth.Threw? ==> r.width == m.width && r.height == m.height
  {
    match p.duration
    case Threw => m
    case Got(d) =>
      var m := m.(duration := NormalizeDuration(d));
      match p.videoWidth
      case Threw => m
      case Got(w) =>
        var m := m.(width := w);
        match p.videoHeight
        case Threw => m
        case Got(h) => m.(height := h)
  }

  /** A structural read leaves no duration shorter than 0.1 s, and never a
      negative one. */
  lemma PropertiesKeepDurationValid(m: Meta, p: MediaProperties)
    requires m.duration.Some? ==> m.duration.value >= 0
    ensures var r := ReadProperties(m, p);
            r.duration.Some? ==> r.duration.value >= 0
    ensures p.duration.Got? ==> var r := ReadProperties(m, p);
            r.duration.Some? ==> r.duration.value >= MinDurationTicks
  {
  }

  /** When nothing throws, the three structural fields take the reader's values. */
  lemma PropertiesComplete(m: Meta, d: int64, w: int32, h: int32)
    ensures var r := ReadProperties(m, MediaProperties(Got(d), Got(w), Got(h)));
            r.duration == NormalizeDuration(d) && r.width == w && r.height == h
  {
  }

  /** An empty (or absent) list of names. */
  predicate NoNames(a: Option<seq<string>>) {
    a.None? || |a.value| == 0
  }

  /** How far the descriptive reads got: the fields so far and whether the
      block is still running. */
  datatype TagRun = TagRun(meta: Meta, running: bool)

  /** Director: the sorted composer, replaced by the plain composer when blank. */
  function ReadDirector(m: Meta, t: MediaTag): (r: TagRun)
    ensures r.meta == m.(director := r.meta.director)
    ensures t.firstComposerSort.Threw? ==> r == TagRun(m, false)
    ensures r.running <==>
              t.firstComposerSort.Got? &&
              (!IsNullOrWhiteSpace(t.firstComposerSort.value) || t.firstComposer.Got?)
  {
    match t.firstComposerSort
    case Threw => TagRun(m, false)
    case Got(d) =>
      var m := m.(director := d);
      if !IsNullOrWhiteSpace(d) then TagRun(m, true)
      else match t.firstComposer
        case Threw => TagRun(m, false)
        case Got(c) => TagRun(m.(director := c), true)
  }

  /** Actors: the sorted performers; when empty, the sorted performers once
      more, then the performers, then the album artists. */
  function ReadActors(m: Meta, t: MediaTag): (r: Meta)
    ensures r == m.(actors := r.actors)
    ensures t.performersSort.Threw? ==> r == m
    ensures t.performersSort.Got? && !NoNames(t.performersSort.value) ==> r.actors == t.performersSort.value
  {
    match t.performersSort
    case Threw => m
    case Got(a) =>
      var m := m.(actors := a);
      if !NoNames(a) then m
      else match t.performersSort
        case Threw => m
        case Got(a2) =>
          var m := m.(actors := a2);
          if !NoNames(a2) then m
          else match t.performers
            case Threw => m
            case Got(b) =>
              var m := m.(actors := b);
              if !NoNames(b) then m
              else match t.albumArtists
                case Threw => m
                case Got(c) => m.(actors := c)
  }

  /** The second try block: `Tag`, then genre, title, description, director and
      actors in that order; a read that throws ends the block. Only the
      descriptive fields can change. */
  function ReadTag(m: Meta, tag: Access<MediaTag>): (r: Meta)
    ensures r.duration == m.duration && r.width == m.width && r.height == m.height
    ensures tag.Threw? ==> r == m
  {
    match tag
    case Threw => m
    case Got(t) =>
      match t.firstGenre
      case Threw => m
      case Got(g) =>
        var m := m.(genre := g);
        match t.title
        case Threw => m
        case Got(ti) =>
          var m := m.(title := ti);
          match t.comment
          case Threw => m
          case Got(c) =>
            var m := m.(description := c);
            var run := ReadDirector(m, t);
            if run.running then ReadActors(run.meta, t) else run.meta
  }

  /** The tags, all readable. */
  predicate AllReadable(t: MediaTag) {
    t.firstGenre.Got? && t.title.Got? && t.comment.Got? && t.firstComposerSort.Got? &&
    t.firstComposer.Got? && t.performersSort.Got? && t.performers.Got? && t.albumArtists.Got?
  }

  /** With every tag readable: genre, title and description are the tags
      verbatim, the director is the sorted composer unless that is blank, and
      the actors are the first non-empty of sorted performers, performers and
      album artists (so repeating the sorted-performers read changes nothing). */
  lemma TagFallbacks(m: Meta, t: MediaTag)
    requires AllReadable(t)
    ensures var r := ReadTag(m, Got(t));
            r.genre == t.firstGenre.value && r.title == t.title.value &&
            r.description == t.comment.value
    ensures var r := ReadTag(m, Got(t));
            r.director == if IsNullOrWhiteSpace(t.firstComposerSort.value) then t.firstComposer.value
                          else t.firstComposerSort.value
    ensures var r := ReadTag(m, Got(t));
            r.actors == if !NoNames(t.performersSort.value) then t.performersSort.value
                        else if !NoNames(t.performers.value) then t.performers.value
                        else t.albumArtists.value
  {
  }

  /** A failing director read keeps the actors from being read at all. */
  lemma DirectorFailureStopsActors(m: Meta, t: MediaTag)
    requires t.firstGenre.Got? && t.title.Got? && t.comment.Got? && t.firstComposerSort.Threw?
    ensures ReadTag(m, Got(t)).actors == m.actors
    ensures ReadTag(m, Got(t)).director == m.director
    ensures ReadTag(m, Got(t)).description == t.comment.value
  {
  }

  /** The two blocks are isolated: whatever the structural reads do, the
      descriptive fields come out as if they alone had run, and the other way
      round. */
  lemma BlocksIsolated(m: Meta, p: MediaProperties, tag: Access<MediaTag>)
    ensures var r := ReadTag(ReadProperties(m, p), tag);
            var d := ReadTag(m, tag);
            r.genre == d.genre && r.title == d.title && r.description == d.description &&
            r.director == d.director && r.actors == d.actors
    ensures var r := ReadTag(ReadProperties(m, p), tag);
            var s := ReadProperties(m, p);
            r.duration == s.duration && r.width == s.width && r.height == s.height
  {
    var s := ReadProperties(m, p);
    TagOnlyDescriptive(m, s, tag);
  }

  /** The descriptive result depends on the descriptive fields of the input only. */
  lemma TagOnlyDescriptive(m: Meta, s: Meta, tag: Access<MediaTag>)
    requires m.(duration := s.duration, width := s.width, height := s.height) == s
    ensures var a := ReadTag(m, tag);
            var b := ReadTag(s, tag);
            a.(duration := s.duration, width := s.width, height := s.height) == b
  {
    match tag
    case Threw =>
    case Got(t) =>
      match t.firstGenre
      case Threw =>
      case Got(g) =>
        match t.title
        case Threw =>
        case Got(ti) =>
          match t.comment
          case Threw =>
          case Got(c) =>
            var m1 := m.(genre := g, title := ti, description := c);
            var s1 := s.(genre := g, title := ti, description := c);
            DirectorOnlyDescriptive(m1, s1, t);
  }

  lemma DirectorOnlyDescriptive(m: Meta, s: Meta, t: MediaTag)
    requires m.(duration := s.duration, width := s.width, height := s.height) == s
    ensures var a := ReadDirector(m, t);
            var b := ReadDirector(s, t);
            a.running == b.running &&
            a.meta.(duration := s.duration, width := s.width, height := s.height) == b.meta
    ensures var a := ReadDirector(m, t);
            var b := ReadDirector(s, t);
            a.running ==> ReadActors(a.meta, t).(duration := s.duration, width := s.width, height := s.height) ==
                          ReadActors(b.meta, t)
  {
  }

  /** What one call of `MaybeInit` does: the fields afterwards, the latch
      afterwards, and how often it called the reader and notified the cache. */
  datatype InitResult = InitResult(meta: Meta, initialized: bool, readerCalls: nat, notifications: nat)

  /** `MaybeInit`: nothing once initialized. Otherwise the reader is called; an
      opened file is read block by block, latched and announced to the cache;
      a corrupt or unsupported file is latched without being announced; any
      other failure leaves the entry to be retried. */
  function MaybeInitSpec(m: Meta, initialized: bool, o: TagReadOutcome): (r: InitResult)
    ensures r.readerCalls == if initialized then 0 else 1
    ensures r.initialized <==> initialized || !o.OtherFailure?
    ensures r.notifications == if !initialized && o.Opened? then 1 else 0
    ensures !(!initialized && o.Opened?) ==> r.meta == m
  {
    if initialized then InitResult(m, true, 0, 0)
    else match o
      case Opened(p, tag) => InitResult(ReadTag(ReadProperties(m, p), tag), true, 1, 1)
      case CorruptFile => InitResult(m, true, 1, 0)
      case UnsupportedFormat => InitResult(m, true, 1, 0)
      case OtherFailure => InitResult(m, false, 1, 0)
  }

  /** The latch: two calls in a row consult the reader at most once (unless the
      first one failed in a way that is retried) and notify the cache at most
      once; once set, the latch stays set. */
  lemma AtMostOneExtraction(m: Meta, initialized: bool, o1: TagReadOutcome, o2: TagReadOutcome)
    ensures var r1 := MaybeInitSpec(m, initialized, o1);
            var r2 := MaybeInitSpec(r1.meta, r1.initialized, o2);
            r1.readerCalls + r2.readerCalls <= 1 || (!initialized && o1.OtherFailure?)
    ensures var r1 := MaybeInitSpec(m, initialized, o1);
            var r2 := MaybeInitSpec(r1.meta, r1.initialized, o2);
            r1.notifications + r2.notifications <= 1
    ensures var r1 := MaybeInitSpec(m, initialized, o1);
            r1.initialized ==> MaybeInitSpec(r1.meta, true, o2) == InitResult(r1.meta, true, 0, 0)
  {
  }

  /** A corrupt or unsupported file is a cached negative: the fields stay as
      they were, the latch is set and later calls never reach the reader. */
  lemma NegativeCache(m: Meta, o: TagReadOutcome, later: TagReadOutcome)
    requires o.CorruptFile? || o.UnsupportedFormat?
    ensures MaybeInitSpec(m, false, o) == InitResult(m, true, 1, 0)
    ensures MaybeInitSpec(m, true, later).readerCalls == 0
  {
  }

  /** A run in which both blocks throw straight away still latches and
      notifies, and leaves every field as it was. */
  lemma BothBlocksThrow(m: Meta, w: Access<int32>, h: Access<int32>)
    ensures MaybeInitSpec(m, false, Opened(MediaProperties(Threw, w, h), Threw)) == InitResult(m, true, 1, 1)
  {
  }

  /** A full read of a 90-minute film by one director with one actor. */
  lemma ExtractionExample()
    ensures var t := MediaTag(Got(Some("Drama")), Got(Some("Heat")), Got(None), Got(Some("")),
                              Got(Some("Mann")), Got(Some([])), Got(Some(["Pacino"])), Got(None));
            var o := Opened(MediaProperties(Got(54_000_000_000), Got(1920), Got(1080)), Got(t));
            MaybeInitSpec(EmptyMeta, false, o) ==
              InitResult(Meta(Some(["Pacino"]), None, Some("Mann"), Some("Drama"), Some("Heat"),
                              Some(54_000_000_000), 1920, 1080), true, 1, 1)
  {
    assert !IsNullOrWhiteSpace(Some("Mann")) by { assert !IsWhiteSpace("Mann"[0]); }
  }

  /** `Bookmark` get: 0 means no bookmark. */
  function BookmarkView(stored: int64): (r: Option<int64>)
    ensures r.None? <==> stored == 0
    ensures r.Some? ==> r.value == stored
  {
    if stored == 0 then None else Some(stored)
  }

  /** `Bookmark` set: the value to store; no bookmark is stored as 0. */
  function StoredBookmark(v: Option<int64>): (r: int64)
    ensures v.None? ==> r == 0
    ensures v.Some? ==> r == v.value
  {
    match v
    case None => 0
    case Some(x) => x
  }

  /** Reading back what was set gives it back, except that a bookmark of 0 reads
      back as none; storing what was read changes nothing. */
  lemma BookmarkRoundTrip(v: Option<int64>, stored: int64)
    ensures BookmarkView(StoredBookmark(v)) == v <==> v != Some(0)
    ensures StoredBookmark(BookmarkView(stored)) == stored
  {
  }

  /** `MetaWidth`/`MetaHeight`: 0 means unknown. The dimension getters
      share the bookmark getter's 0-means-null convention, over `int32`. */
  function DimensionView(stored: int32): (r: Option<int32>)
    ensures r.None? <==> stored == 0
    ensures r.Some? ==> r.value == stored
  {
    if stored == 0 then None else Some(stored)
  }

  /** `MetaGenre`: a null, empty or blank genre is refused with NotSupported. */
  function GenreView(genre: Option<string>): (r: Result<string>)
    ensures r.Failure? <==> IsNullOrWhiteSpace(genre)
    ensures r.Failure? ==> r.error == NotSupported
    ensures r.Success? ==> Some(r.value) == genre &&
                           exists i :: 0 <= i < |r.value| && !IsWhiteSpace(r.value[i])
  {
    if IsNullOrWhiteSpace(genre) then Failure(NotSupported) else Success(genre.value)
  }

  /** "{0}x{1}" of a width and a height. */
  function ResolutionText(w: nat, h: nat): string {
    DecimalString(w) + "x" + DecimalString(h)
  }

  /** The resolution text reads back as the two dimensions: digits, one 'x',
      digits. */
  lemma ResolutionReadsBack(w: nat, h: nat)
    ensures var s := ResolutionText(w, h);
            var i := |DecimalString(w)|;
            0 < i < |s| && s[i] == 'x' && (forall j :: 0 <= j < |s| && j != i ==> '0' <= s[j] <= '9') &&
            DecimalValue(s[..i]) == w && DecimalValue(s[i + 1..]) == h
  {
    var s := ResolutionText(w, h);
    var dw, dh := DecimalString(w), DecimalString(h);
    var i := |dw|;
    assert s[..i] == dw;
    assert s[i + 1..] == dh;
    forall j | 0 <= j < |s| && j != i
      ensures '0' <= s[j] <= '9'
    {
      if j < i {
        assert s[j] == dw[j];
      } else {
        assert s[j] == dh[j - i - 1];
      }
    }
    DecimalRoundTrip(w);
    DecimalRoundTrip(h);
  }

  /** The keys `Properties` may add, declared in the order it adds them. */
  datatype PropertyKey = Description | Actors | Director | Duration | Genre | Resolution

  /** The position of a key in that order. */
  function Rank(k: PropertyKey): nat {
    match k
    case Description => 0
    case Actors => 1
    case Director => 2
    case Duration => 3
    case Genre => 4
    case Resolution => 5
  }

  /** The header name of a key. */
  function KeyName(k: PropertyKey): string {
    match k
    case Description => "Description"
    case Actors => "Actors"
    case Director => "Director"
    case Duration => "Duration"
    case Genre => "Genre"
    case Resolution => "Resolution"
  }

  /** No two keys share a header name. */
  lemma KeyNamesDistinct(a: PropertyKey, b: PropertyKey)
    ensures KeyName(a) == KeyName(b) <==> a == b
  {
    if a != b {
      assert |KeyName(a)| != |KeyName(b)| || KeyName(a)[1] != KeyName(b)[1];
    }
  }

  /** One entry of the property list, there when its value is. */
  function Entry(key: PropertyKey, value: Option<string>): seq<(PropertyKey, string)> {
    match value
    case None => []
    case Some(v) => [(key, v)]
  }

  /** The actors' entry: the names joined with ", ", when there are any. */
  function ActorsText(actors: Option<seq<string>>): Option<string> {
    if NoNames(actors) then None else Some(Join(", ", actors.value))
  }

  /** The duration's entry, when it is known. */
  function DurationText(duration: Option<int64>, formatDuration: int64 -> string): Option<string> {
    match duration
    case None => None
    case Some(d) => Some(formatDuration(d))
  }

  /** The resolution's entry, when both dimensions are positive. */
  function ResolutionOf(width: int32, height: int32): Option<string> {
    if width > 0 && height > 0 then Some(ResolutionText(width as nat, height as nat)) else None
  }

  /** The keys this entry adds to the base properties, in order, each with its
      text; `formatDuration` stands for `TimeSpan.ToString("g")`. */
  function ExtraProperties(m: Meta, formatDuration: int64 -> string): seq<(PropertyKey, string)> {
    SixEntries(m.description, ActorsText(m.actors), m.director,
               DurationText(m.duration, formatDuration), m.genre, ResolutionOf(m.width, m.height))
  }

  /** The header list: each key by its name. */
  function Headers(props: seq<(PropertyKey, string)>): (r: seq<(string, string)>)
    ensures |r| == |props|
    ensures forall i :: 0 <= i < |props| ==> r[i] == (KeyName(props[i].0), props[i].1)
  {
    if |props| == 0 then [] else [(KeyName(props[0].0), props[0].1)] + Headers(props[1..])
  }

  /** The value of the first pair with `key`, if any. */
  function ValueOf(props: seq<(PropertyKey, string)>, key: PropertyKey): Option<string> {
    if |props| == 0 then None
    else if props[0].0 == key then Some(props[0].1)
    else ValueOf(props[1..], key)
  }

  lemma {:induction false} ValueOfAppend(a: seq<(PropertyKey, string)>, b: seq<(PropertyKey, string)>, key: PropertyKey)
    ensures ValueOf(a + b, key) == if ValueOf(a, key).Some? then ValueOf(a, key) else ValueOf(b, key)
    decreases |a|
  {
    if |a| > 0 {
      assert (a + b)[0] == a[0];
      assert (a + b)[1..] == a[1..] + b;
      ValueOfAppend(a[1..], b, key);
    } else {
      assert a + b == b;
    }
  }

  /** Appending an entry to a list whose value for `key` is known. */
  lemma AppendEntry(x: seq<(PropertyKey, string)>, k: PropertyKey, o: Option<string>, key: PropertyKey)
    ensures ValueOf(x + Entry(k, o), key) ==
            if ValueOf(x, key).Some? then ValueOf(x, key) else if k == key then o else None
  {
    ValueOfAppend(x, Entry(k, o), key);
  }

  /** Keys in strictly increasing rank, all below `bound`. */
  predicate RanksBelow(r: seq<(PropertyKey, string)>, bound: nat) {
    (forall i :: 0 <= i < |r| ==> Rank(r[i].0) < bound) &&
    (forall i, j :: 0 <= i < j < |r| ==> Rank(r[i].0) < Rank(r[j].0))
  }

  lemma AppendRanked(x: seq<(PropertyKey, string)>, k: PropertyKey, o: Option<string>)
    requires RanksBelow(x, Rank(k))
    ensures RanksBelow(x + Entry(k, o), Rank(k) + 1)
  {
  }

  /** Six optional entries under the six keys, in the fixed order. */
  function SixEntries(d: Option<string>, a: Option<string>, di: Option<string>,
                      du: Option<string>, g: Option<string>, r: Option<string>): seq<(PropertyKey, string)> {
    Entry(Description, d) + Entry(Actors, a) + Entry(Director, di) +
    Entry(Duration, du) + Entry(Genre, g) + Entry(Resolution, r)
  }

  /** Their keys rise in rank. */
  lemma SixEntriesOrdered(d: Option<string>, a: Option<string>, di: Option<string>,
                          du: Option<string>, g: Option<string>, r: Option<string>)
    ensures var x := SixEntries(d, a, di, du, g, r);
            |x| <= 6 && RanksBelow(x, 6)
  {
    var e1 := Entry(Description, d);
    var e2 := Entry(Actors, a);
    var e3 := Entry(Director, di);
    var e4 := Entry(Duration, du);
    var e5 := Entry(Genre, g);
    assert RanksBelow(e1, 1);
    AppendRanked(e1, Actors, a);
    AppendRanked(e1 + e2, Director, di);
    AppendRanked(e1 + e2 + e3, Duration, du);
    AppendRanked(e1 + e2 + e3 + e4, Genre, g);
    AppendRanked(e1 + e2 + e3 + e4 + e5, Resolution, r);
  }

  /** Of six values, the one for `key`, in the fixed key order. */
  function Pick(key: PropertyKey, d: Option<string>, a: Option<string>, di: Option<string>,
                du: Option<string>, g: Option<string>, r: Option<string>): Option<string> {
    match key
    case Description => d
    case Actors => a
    case Director => di
    case Duration => du
    case Genre => g
    case Resolution => r
  }

  /** Each key maps to its own entry's value. */
  lemma SixEntriesValues(d: Option<string>, a: Option<string>, di: Option<string>,
                         du: Option<string>, g: Option<string>, r: Option<string>, key: PropertyKey)
    ensures ValueOf(SixEntries(d, a, di, du, g, r), key) == Pick(key, d, a, di, du, g, r)
  {
    var e1 := Entry(Description, d);
    var e2 := Entry(Actors, a);
    var e3 := Entry(Director, di);
    var e4 := Entry(Duration, du);
    var e5 := Entry(Genre, g);
    assert ValueOf(e1, key) == if key == Description then d else None;
    AppendEntry(e1, Actors, a, key);
    AppendEntry(e1 + e2, Director, di, key);
    AppendEntry(e1 + e2 + e3, Duration, du, key);
    AppendEntry(e1 + e2 + e3 + e4, Genre, g, key);
    AppendEntry(e1 + e2 + e3 + e4 + e5, Resolution, r, key);
  }

  /** The added keys come in the fixed order, so none comes twice. */
  lemma ExtraPropertiesOrdered(m: Meta, fmt: int64 -> string)
    ensures |ExtraProperties(m, fmt)| <= 6 && RanksBelow(ExtraProperties(m, fmt), 6)
  {
    SixEntriesOrdered(m.description, ActorsText(m.actors), m.director,
                      DurationText(m.duration, fmt), m.genre, ResolutionOf(m.width, m.height));
  }

  /** Each key is there exactly when its field qualifies, with the field's
      text: description, director and genre when not null, actors when not
      empty (joined with ", "), duration when known, resolution when both
      dimensions are positive. */
  lemma ExtraPropertiesValues(m: Meta, fmt: int64 -> string)
    ensures ValueOf(ExtraProperties(m, fmt), Description) == m.description
    ensures ValueOf(ExtraProperties(m, fmt), Actors) ==
              if NoNames(m.actors) then None else Some(Join(", ", m.actors.value))
    ensures ValueOf(ExtraProperties(m, fmt), Director) == m.director
    ensures ValueOf(ExtraProperties(m, fmt), Duration) ==
              if m.duration.None? then None else Some(fmt(m.duration.value))
    ensures ValueOf(ExtraProperties(m, fmt), Genre) == m.genre
    ensures ValueOf(ExtraProperties(m, fmt), Resolution) ==
              if m.width > 0 && m.height > 0 then Some(ResolutionText(m.width as nat, m.height as nat)) else None
  {
    var a, du, r := ActorsText(m.actors), DurationText(m.duration, fmt), ResolutionOf(m.width, m.height);
    SixEntriesValues(m.description, a, m.director, du, m.genre, r, Description);
    SixEntriesValues(m.description, a, m.director, du, m.genre, r, Actors);
    SixEntriesValues(m.description, a, m.director, du, m.genre, r, Director);
    SixEntriesValues(m.description, a, m.director, du, m.genre, r, Duration);
    SixEntriesValues(m.description, a, m.director, du, m.genre, r, Genre);
    SixEntriesValues(m.description, a, m.director, du, m.genre, r, Resolution);
  }

  /** `Title`: the base title, followed by " — " and the tag title when that is
      not blank. */
  function DisplayTitle(baseTitle: string, tagTitle: Option<string>): (r: string)
    ensures IsNullOrWhiteSpace(tagTitle) ==> r == baseTitle
    ensures !IsNullOrWhiteSpace(tagTitle) ==>
              |r| > |baseTitle| + 3 && r[..|baseTitle|] == baseTitle &&
              r[|baseTitle|..|baseTitle| + 3] == " — " && r[|baseTitle| + 3..] == tagTitle.value
  {
    if !IsNullOrWhiteSpace(tagTitle) then baseTitle + " — " + tagTitle.value else baseTitle
  }

  /** The title is composed exactly when the tag title is not blank. */
  lemma TitleComposedIff(baseTitle: string, tagTitle: Option<string>)
    ensures DisplayTitle(baseTitle, tagTitle) != baseTitle <==> !IsNullOrWhiteSpace(tagTitle)
  {
  }
}
