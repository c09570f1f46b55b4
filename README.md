# simpleDLNA video items and subtitles, modelled in Dafny

This project models two classes of the simpleDLNA media server:

- **`VideoFile`**: a video on disk as the file server publishes it.
  - Its metadata (actors, description, director, genre, title, duration,
    width, height) comes from the TagLib tag reader. The reader runs lazily,
    behind the `initialized` latch in `MaybeInit`. It runs at most once
    unless a read fails unexpectedly: the latch then stays open, and the next
    access reads again.
  - The accessors expose that metadata in DLNA form: null for a zero
    dimension, an exception for a blank genre, a property list, and a
    composed title.
  - The bookmark is stored as 0-means-none.
  - The object serialises itself into ten named members and is rebuilt from
    them by a deserialising constructor.
- **`Subtitle`**: the subtitle attached to a video.
  - Loading searches for a sidecar file with one of ten whitelisted
    extensions. When none yields text, it converts the media file itself,
    but only when the media file's own extension is whitelisted; otherwise
    the text is empty.
  - The SubRip text is served as a read-only UTF-8 stream. The encoded bytes
    are memoised on first use.

The modules follow the program:

| module | contents |
|---|---|
| `Basics` | `Option`, `Result`, `Outcome`, `Access` (a read that returned or threw), the error kinds, and `int32`/`int64`/`byte` |
| `Text` | `string.IsNullOrWhiteSpace`/`IsNullOrEmpty`, `string.Join`, decimal formatting, and `Encoding.UTF8` |
| `Paths` | `FileInfo.Extension` and `Path.ChangeExtension`, reduced to their string rules |
| `Subtitles` | the extension whitelist, the search specification `LoadSpec`, and the `Subtitle` class |
| `VideoMeta` | the metadata extraction as functions over what the tag reader yields, plus the value views, the property list and the title |
| `Codec` | the serialisation target (`SerializationInfo`), the ten-member encoding, and its decoding |
| `VideoFiles` | the `VideoFile` class: the latch, the accessors, the subtitle getter, `GetObjectData`, and deserialisation |

External services enter as parameters:

- **The tag reader.** TagLib is a `TagReadOutcome` passed to each call that
  may run `MaybeInit`. It says whether the file opened or failed as corrupt,
  as unsupported or otherwise. When the file opened, it gives what every
  property and tag getter returns or whether it throws.
- **FFmpeg's SubRip conversion.** This is a `Converter`, a function from a
  file path to converted text (possibly null), to "not supported", or to
  another failure.
- **The file system.** This is `files`, the set of existing paths.
- **What cannot be seen from the class.** `Server.UpdateFileCache` is counted
  in the ghost counter `cacheUpdates`. Each run of the tag reader is counted
  in `readerCalls`.

Durations are TimeSpan ticks, 10,000,000 per second. The 0.1-second
threshold is 1,000,000 ticks. Whether a duration of exactly 0.1 s is kept
depends on the .NET runtime (see "Left out"). The model keeps it, as .NET
Core and later .NET do.

## Model

| member | source | states |
|---|---|---|
| VideoMeta.NormalizeDuration | fsserver/Files/VideoFile.cs:272-275 | a duration read from the tag is dropped exactly when it is shorter than 0.1 s (1,000,000 ticks); otherwise it is kept unchanged (`TotalSeconds` as ticks divided by 10,000,000) |
| VideoMeta.DurationThreshold | fsserver/Files/VideoFile.cs:273-274 | under the division rule, exactly 0.1 s is kept, 0.09 s is dropped, and every negative duration is dropped |
| VideoMeta.NormalizeDurationFramework | fsserver/Files/VideoFile.cs:272-275 | the same test as .NET Framework computes it: a duration is dropped exactly when it is at most 1,000,000 ticks |
| VideoMeta.ThresholdRuntimes | fsserver/Files/VideoFile.cs:273 | the two runtimes' rules disagree on exactly one tick count, 1,000,000, which .NET Framework drops |
| VideoMeta.ReadProperties | fsserver/Files/VideoFile.cs:271-281 | the first try block changes only duration, width and height; a throwing duration read leaves everything as it was; a throwing width read leaves both dimensions |
| VideoMeta.PropertiesKeepDurationValid | fsserver/Files/VideoFile.cs:272-275 | after the first block a known duration is never negative, and one that was just read is at least 0.1 s |
| VideoMeta.PropertiesComplete | fsserver/Files/VideoFile.cs:272-277 | when all three reads succeed, the fields are the normalised duration, the width and the height |
| VideoMeta.ReadTag | fsserver/Files/VideoFile.cs:283-305 | the second try block never touches duration, width or height, and a throwing `Tag` read changes nothing |
| VideoMeta.ReadDirector | fsserver/Files/VideoFile.cs:288-291 | only the director changes; a throwing sorted-composer read changes nothing and stops the block; the block goes on exactly when the sorted composer was read and is not blank, or the plain composer was read |
| VideoMeta.ReadActors | fsserver/Files/VideoFile.cs:292-301 | only the actors change; a throwing sorted-performers read changes nothing; non-empty sorted performers are taken as they are |
| VideoMeta.TagFallbacks | fsserver/Files/VideoFile.cs:284-301 | with every tag readable: genre, title and description are the tags; the director is the sorted composer unless blank, else the composer; the actors are the first non-empty of sorted performers, performers and album artists |
| VideoMeta.DirectorFailureStopsActors | fsserver/Files/VideoFile.cs:283-305 | a throwing sorted-composer read ends the block: director and actors keep their old values, while the description already read stays |
| VideoMeta.BlocksIsolated | fsserver/Files/VideoFile.cs:269-306 | the two try blocks are independent: the tag block's fields do not depend on the properties block, and the numeric fields come from the properties block alone |
| VideoMeta.TagOnlyDescriptive | fsserver/Files/VideoFile.cs:283-305 | the tag block's effect on the descriptive fields does not depend on the numeric fields it starts from |
| VideoMeta.DirectorOnlyDescriptive | fsserver/Files/VideoFile.cs:288-301 | the same independence for the director step and for the actor fallbacks that follow it |
| VideoMeta.MaybeInitSpec | fsserver/Files/VideoFile.cs:263-327 | an initialised file runs no reader and changes nothing; otherwise the reader runs once; the latch closes unless the failure is an unexpected one; only an opened file notifies the cache, and only it can change fields |
| VideoMeta.AtMostOneExtraction | fsserver/Files/VideoFile.cs:263-267 | two successive calls run the reader at most once unless the first failed unexpectedly; the cache is notified at most once; once latched, a call is a no-op |
| VideoMeta.NegativeCache | fsserver/Files/VideoFile.cs:312-321 | a corrupt or unsupported file closes the latch without metadata and without a cache update, and is never read again |
| VideoMeta.BothBlocksThrow | fsserver/Files/VideoFile.cs:269-311 | when both inner blocks throw at their first read, the fields stay, the latch closes and the cache is notified once |
| VideoMeta.ExtractionExample | fsserver/Files/VideoFile.cs:269-311 | a concrete file: a blank sorted composer falls back to the composer, and empty sorted performers fall back to the performers |
| VideoMeta.BookmarkView | fsserver/Files/VideoFile.cs:110-116 | the bookmark reads as null exactly when 0 is stored, and otherwise as the stored value |
| VideoMeta.StoredBookmark | fsserver/Files/VideoFile.cs:117-128 | setting null stores 0; setting a value stores it |
| VideoMeta.BookmarkRoundTrip | fsserver/Files/VideoFile.cs:108-128 | a bookmark reads back as set exactly when it is not 0 (0 and null collide); a stored value survives get-then-set |
| VideoMeta.DimensionView | fsserver/Files/VideoFile.cs:179-201 | a dimension reads as null exactly when it is 0, otherwise as itself |
| VideoMeta.GenreView | fsserver/Files/VideoFile.cs:167-177 | the genre getter throws NotSupported exactly when the genre is null or blank; otherwise it returns the genre, which has a non-blank character |
| VideoMeta.ResolutionReadsBack | fsserver/Files/VideoFile.cs:224-228 | "{0}x{1}" is digits, one 'x', digits, and the two digit runs read back as the width and the height |
| VideoMeta.KeyNamesDistinct | fsserver/Files/VideoFile.cs:209-229 | the six header names added by `Properties` are pairwise distinct |
| VideoMeta.Headers | fsserver/Files/VideoFile.cs:209-229 | the headers are the entries in order, each under its key's name with its text |
| VideoMeta.SixEntriesOrdered | fsserver/Files/VideoFile.cs:209-229 | entries added in the fixed order come at most six, with strictly rising keys |
| VideoMeta.SixEntriesValues | fsserver/Files/VideoFile.cs:209-229 | each key's value in the list is its own optional entry |
| VideoMeta.ExtraProperties | fsserver/Files/VideoFile.cs:208-229 | no contract of its own: the optional entry per header that `ExtraPropertiesOrdered` and `ExtraPropertiesValues` describe |
| VideoMeta.ExtraPropertiesOrdered | fsserver/Files/VideoFile.cs:209-229 | `Properties` adds at most six headers, in the order Description, Actors, Director, Duration, Genre, Resolution, none twice |
| VideoMeta.ExtraPropertiesValues | fsserver/Files/VideoFile.cs:209-229 | description, director and genre appear exactly when not null; actors exactly when not empty, joined by ", "; duration exactly when known, formatted; resolution exactly when both dimensions are positive |
| VideoMeta.ValueOfAppend | fsserver/Files/VideoFile.cs:208-230 | looking a key up in a list with appended headers finds the earlier header first |
| VideoMeta.DisplayTitle | fsserver/Files/VideoFile.cs:252-261 | the base title alone when the tag title is null or blank; otherwise base title, " — ", tag title |
| VideoMeta.TitleComposedIff | fsserver/Files/VideoFile.cs:256-259 | the title differs from the base title exactly when the tag title is not blank |
| VideoFiles.VideoFile.constructor | fsserver/Files/VideoFile.cs:92-106 | a new file has no metadata, bookmark 0 and an open latch; it has a subtitle, loaded from the ".srt" sibling, exactly when that sibling exists |
| VideoFiles.VideoFile.MaybeInit | fsserver/Files/VideoFile.cs:263-327 | the fields, latch and counters become what `MaybeInitSpec` gives for this call's reader outcome; bookmark and subtitle are untouched |
| VideoFiles.VideoFile.TransposeProperties | fsserver/Files/VideoFile.cs:271-281 | the step-by-step assignments of the first block leave the fields `ReadProperties` specifies |
| VideoFiles.VideoFile.TransposeTag | fsserver/Files/VideoFile.cs:283-305 | the assignments of the second block leave the fields `ReadTag` specifies |
| VideoFiles.VideoFile.TransposeDirector | fsserver/Files/VideoFile.cs:288-291 | the director assignments, and whether the block goes on, as `ReadDirector` specifies |
| VideoFiles.VideoFile.TransposeActors | fsserver/Files/VideoFile.cs:292-301 | the actor assignments, including the repeated sorted-performers read, as `ReadActors` specifies |
| VideoFiles.VideoFile.MetaActors | fsserver/Files/VideoFile.cs:131-138 | runs the latch, then returns the actors |
| VideoFiles.VideoFile.MetaDescription | fsserver/Files/VideoFile.cs:140-147 | runs the latch, then returns the description |
| VideoFiles.VideoFile.MetaDirector | fsserver/Files/VideoFile.cs:149-156 | runs the latch, then returns the director |
| VideoFiles.VideoFile.MetaDuration | fsserver/Files/VideoFile.cs:158-165 | runs the latch, then returns the duration |
| VideoFiles.VideoFile.MetaGenre | fsserver/Files/VideoFile.cs:167-177 | runs the latch, then returns the genre or NotSupported, as `GenreView` states |
| VideoFiles.VideoFile.MetaHeight | fsserver/Files/VideoFile.cs:179-189 | runs the latch, then returns the height, null when 0 |
| VideoFiles.VideoFile.MetaWidth | fsserver/Files/VideoFile.cs:191-201 | runs the latch, then returns the width, null when 0 |
| VideoFiles.VideoFile.Bookmark | fsserver/Files/VideoFile.cs:110-116 | reads the field without running the latch: null exactly when 0 is stored, otherwise the stored value |
| VideoFiles.VideoFile.SetBookmark | fsserver/Files/VideoFile.cs:117-128 | stores the value, or 0 for null; only a non-null value notifies the cache |
| VideoFiles.VideoFile.Properties | fsserver/Files/VideoFile.cs:203-232 | runs the latch, then returns the base properties followed by the headers of `ExtraProperties` |
| VideoFiles.VideoFile.Title | fsserver/Files/VideoFile.cs:252-261 | reads the tag title as it stands, without running the latch: the base title alone when the tag title is null or blank, otherwise the base title, " — " and the tag title |
| VideoFiles.VideoFile.GetSubtitle | fsserver/Files/VideoFile.cs:234-250 | an existing subtitle is returned as is; otherwise one is loaded from the media file, remembered, and the cache notified once |
| VideoFiles.VideoFile.GetObjectData | fsserver/Files/VideoFile.cs:329-345 | a null target fails with ArgumentNull and changes nothing; otherwise the latch runs, the ten members of the snapshot are added in order as `AddAll` specifies, and the target's names stay unique |
| VideoFiles.VideoFile.Restore | fsserver/Files/VideoFile.cs:52-89 | each field, the bookmark and a carried subtitle come from the decoded snapshot; the latch closes; no reader runs and the cache is not notified |
| VideoFiles.Deserialize | fsserver/Files/VideoFile.cs:42-90 | reconstruction succeeds exactly when decoding succeeds; the file then holds the decoded fields with the latch closed; without a carried subtitle it keeps the one the ".srt" probe found |
| VideoFiles.TwoAccessesOneExtraction | fsserver/Files/VideoFile.cs:263-267 | two accessor calls in a row run the reader at most once, unless the first failed unexpectedly, and notify the cache at most once |
| VideoFiles.FreshTargetGetsEncoding | fsserver/Files/VideoFile.cs:335-344 | into an empty target all ten members go through, in order |
| Codec.SerializationInfo.AddValue | fsserver/Files/VideoFile.cs:335 | adding a member refuses a duplicate name and otherwise appends it |
| Codec.AddOne | fsserver/Files/VideoFile.cs:335 | a single addition fails, changing nothing, exactly when the name is present; otherwise the member is appended |
| Codec.AddAllFresh | fsserver/Files/VideoFile.cs:335-344 | members with distinct, new names are all appended in order |
| Codec.AddAllClash | fsserver/Files/VideoFile.cs:335-344 | a run with a name already present fails with DuplicateMember |
| Codec.AddAllKeepsUnique | fsserver/Files/VideoFile.cs:335-344 | a run of additions keeps the target's names unique |
| Codec.AddAllSplit | fsserver/Files/VideoFile.cs:335-344 | a run over two lists is the run over the first, continued over the second only if the first went through |
| Codec.WriteSnapshot | fsserver/Files/VideoFile.cs:335-344 | the ten `AddValue` calls leave exactly the outcome and members of `AddAll` over the encoding |
| Codec.WriteTexts | fsserver/Files/VideoFile.cs:335-339 | the first five calls leave exactly the run of `AddAll` over the first five members |
| Codec.WriteNumbers | fsserver/Files/VideoFile.cs:340-344 | the last five calls leave exactly the run of `AddAll` over the last five members |
| Codec.Encode | fsserver/Files/VideoFile.cs:335-344 | the members are named a, de, di, g, t, w, h, b, du, st, in that order |
| Codec.KeysDistinct | fsserver/Files/VideoFile.cs:335-344 | the ten member names are pairwise distinct |
| Codec.EncodeUnique | fsserver/Files/VideoFile.cs:335-344 | an encoding never repeats a name |
| Codec.NonNullNamesExactly | fsserver/Files/VideoFile.cs:45-50 | a name is collected exactly when some member of that name has a non-null value |
| Codec.PresentNames | fsserver/Files/VideoFile.cs:45-50 | the loop collects exactly the names with non-null values |
| Codec.Lookup | fsserver/Files/VideoFile.cs:52-87 | no contract of its own: it finds the first member of that name, as `LookupFinds` and `LookupFirst` prove |
| Codec.GetStrings | fsserver/Files/VideoFile.cs:52-53 | no contract of its own: reads a `string[]` member back; `EncodedStrings` proves it returns what the encoding wrote, null as null |
| Codec.GetString | fsserver/Files/VideoFile.cs:55-65 | no contract of its own: reads a string member back; `EncodedStrings` proves it returns what the encoding wrote, null as null |
| Codec.GetInt32 | fsserver/Files/VideoFile.cs:67-71 | no contract of its own: reads a width or height back; `EncodedNumbers` proves it returns what was written |
| Codec.GetInt64 | fsserver/Files/VideoFile.cs:73-84 | no contract of its own: reads the ticks or the bookmark back; `EncodedNumbers` proves it returns what was written |
| Codec.GetSubtitle | fsserver/Files/VideoFile.cs:86-87 | no contract of its own: reads the subtitle back; `EncodedNumbers` proves the carried text returns, null as null |
| Codec.LookupFinds | fsserver/Files/VideoFile.cs:52-87 | a lookup finds a value exactly when a member of that name exists, and the value is such a member's |
| Codec.LookupFirst | fsserver/Files/VideoFile.cs:52-87 | a lookup returns the first member of that name |
| Codec.KeyLookup | fsserver/Files/VideoFile.cs:45-87 | in a list named like an encoding, each name finds its member, and it is collected as a field exactly when not null |
| Codec.Decode | fsserver/Files/VideoFile.cs:52-89 | a failure is always a type mismatch; on success the duration is known and never negative, and every field whose name is not among the collected names keeps the constructor's default (null, 0, the zero duration, no subtitle) |
| Codec.DecodeInfo | fsserver/Files/VideoFile.cs:42-90 | an info without any members decodes to the defaults: null texts, 0 numbers, the zero duration, no subtitle |
| Codec.EncodedStrings | fsserver/Files/VideoFile.cs:52-65 | the actor and text members of an encoding read back as the snapshot's, null as null |
| Codec.EncodedNumbers | fsserver/Files/VideoFile.cs:67-87 | the width, height, ticks, bookmark and subtitle members of an encoding read back as written |
| Codec.DecodeReads | fsserver/Files/VideoFile.cs:52-87 | decoding assembles the ten reads, mapping a non-positive tick count to the zero duration |
| Codec.RoundTrip | fsserver/Files/VideoFile.cs:42-90 | decoding an encoding gives every field back except the duration, which comes back as its ticks when positive and as zero otherwise |
| Codec.DurationLossy | fsserver/Files/VideoFile.cs:343 | an unknown and a zero-length duration encode, and so decode, alike |
| Codec.DecodeStable | fsserver/Files/VideoFile.cs:42-90 | a decoded snapshot re-encodes and decodes to itself; with non-negative ticks, encode, decode, encode gives the first encoding |
| Subtitles.SupportedExactly | server/Types/SubTitle.cs:21-39 | exactly the ten spellings are supported, case-sensitively (".Srt" and "srt" are not) |
| Subtitles.ExtsArePlain | server/Types/SubTitle.cs:21-27 | every whitelisted extension is a dot followed by plain characters |
| Paths.DotIndexCorrect | server/Types/SubTitle.cs:31-34 | the extension starts at a dot followed only by plain characters; when there is none, every dot has a separator after it |
| Paths.DotFoundCorrect | server/Types/SubTitle.cs:31-34 | the scan from the end stops at a dot with only plain characters after it |
| Paths.NoDotFoundCorrect | server/Types/SubTitle.cs:31-34 | when the scan finds no dot, every dot before the scanned end has a separator after it |
| Paths.DotBeforePlainSegment | server/Types/SubTitle.cs:169-173 | a dot followed by a plain segment is where the extension starts |
| Paths.DotScanSkipsPlain | server/Types/SubTitle.cs:169-173 | the scan passes over plain characters to the last dot |
| Paths.AppendedExtension | server/Types/SubTitle.cs:173 | appending ".xyz" to a name makes ".xyz" its extension |
| Paths.ChangedExtension | server/Types/SubTitle.cs:169 | changing the extension to ".xyz" makes ".xyz" the extension |
| Paths.Extension | server/Types/SubTitle.cs:31-34 | no contract of its own: `DotIndexCorrect` and `AppendedExtension` prove that it starts at the last dot no separator follows |
| Paths.ChangeExtension | server/Types/SubTitle.cs:169 | no contract of its own: `ChangeExtensionKeepsStem` and `TrailingDotReplaced` prove that it keeps the path up to the old extension, and `ChangedExtension` that the new extension becomes the extension |
| Paths.Dotted | server/Types/SubTitle.cs:169 | the extension put on starts with a dot, and an extension that already starts with one is used as it is |
| Paths.ChangeExtensionKeepsStem | server/Types/SubTitle.cs:169 | for a path not ending in a dot, the result is the path without its extension, followed by the new (dotted) extension: "movie.mp4" becomes "movie.srt" |
| Paths.TrailingDotReplaced | server/Types/SubTitle.cs:169 | a path ending in a dot has no extension, yet its final dot is replaced by the new extension |
| Subtitles.SubtitleFormatSupported | server/Types/SubTitle.cs:36-39 | no contract of its own: `SupportedExactly` proves that exactly the ten spellings pass |
| Subtitles.FileFormatSupported | server/Types/SubTitle.cs:31-34 | no contract of its own: the file's extension is whitelisted; `CandidateSupported` proves every candidate passes it |
| Subtitles.Candidate | server/Types/SubTitle.cs:169-176 | a candidate is an existing file; there is none exactly when neither the replaced nor the appended name exists; the replaced name is taken when it exists, and the appended name when only it exists |
| Subtitles.CandidateList | server/Types/SubTitle.cs:167-176 | one candidate per whitelisted extension, in whitelist order |
| Subtitles.CandidateSupported | server/Types/SubTitle.cs:169-179 | every candidate found exists and passes the format check |
| Subtitles.SearchFrom | server/Types/SubTitle.cs:167-191 | no contract of its own: the search specification; `SearchFirstHit` proves the first hit wins and exactly the existing candidates up to it are converted |
| Subtitles.FallbackText | server/Types/SubTitle.cs:192-204 | no contract of its own: `NoHitFallsBack` proves the text is "" unless the media file's own extension is whitelisted and its conversion returns |
| Subtitles.LoadSpec | server/Types/SubTitle.cs:163-210 | no contract of its own: `LoadFirstHit` and `NoHitFallsBack` prove what loading gives with and without a hit |
| Subtitles.SearchFirstHit | server/Types/SubTitle.cs:167-191 | the search yields text exactly when some candidate exists and converts to a non-empty string; the first such candidate wins, and exactly the existing candidates up to it are converted; with no hit, all existing candidates are converted and no text is found |
| Subtitles.PrependTwice | server/Types/SubTitle.cs:167-191 | the files converted so far can be prepended one at a time |
| Subtitles.LoadStep | server/Types/SubTitle.cs:169-183 | one turn of the loop: a missing candidate is skipped, an existing one passes the format check, one that yields ends the search with its text, any other is converted and the search goes on |
| Subtitles.LoadFirstHit | server/Types/SubTitle.cs:163-191 | when candidate `k` is the first hit, loading gives its text, which is not empty |
| Subtitles.NoHitFallsBack | server/Types/SubTitle.cs:192-204 | with no hit, the text is the media file's own conversion, or "" when its format is unsupported or the conversion throws; the media file is converted after all existing candidates |
| Subtitles.ExistingCandidatesExist | server/Types/SubTitle.cs:172-176 | only existing files are converted |
| Subtitles.MovieExample | server/Types/SubTitle.cs:163-191 | for "movie.mp4" beside "movie.srt" and "movie.mp4.srt", "movie.srt" is converted alone and gives the text |
| Subtitles.Subtitle.Empty | server/Types/SubTitle.cs:41-43 | no text and nothing encoded |
| Subtitles.Subtitle.FromText | server/Types/SubTitle.cs:51-54 | the text verbatim, nothing encoded |
| Subtitles.Subtitle.FromFile | server/Types/SubTitle.cs:45-49 | a file that exists is loaded as `LoadSpec` states; otherwise there is no text and nothing is converted |
| Subtitles.Subtitle.LoadExternal | server/Types/SubTitle.cs:166-191 | the loop over the whitelist ends with text exactly when the search specification finds some, leaves that text, and converts exactly the files the specification lists, in order |
| Subtitles.Subtitle.Load | server/Types/SubTitle.cs:163-210 | loading leaves the text `LoadSpec` gives and converts exactly the files it lists, in order |
| Subtitles.Subtitle.HasSubtitle | server/Types/SubTitle.cs:64-70 | true exactly when the text exists and holds a non-white-space character |
| Subtitles.Subtitle.CreateContentStream | server/Types/SubTitle.cs:217-226 | NotSupported without subtitle text; otherwise a fresh read-only stream over the UTF-8 bytes of the text, which are encoded only on the first call |
| Subtitles.TwoStreams | server/Types/SubTitle.cs:217-226 | two content streams cost at most one encoding and are distinct streams over the same bytes |
| Subtitles.Subtitle.InfoSize | server/Types/SubTitle.cs:92-105 | the stream's length, the number of UTF-8 bytes of the text, or null when a stream cannot be created |
| Subtitles.Subtitle.Path | server/Types/SubTitle.cs:115-121 | no contract of its own: `UnsupportedMembers` proves the identifier is the fixed "ad-hoc-subtitle:" |
| Subtitles.Subtitle.Id | server/Types/SubTitle.cs:72-77 | no contract of its own: `UnsupportedMembers` proves it is the path, "ad-hoc-subtitle:" |
| Subtitles.Subtitle.Cover | server/Types/SubTitle.cs:56-62 | no contract of its own: `UnsupportedMembers` proves it always fails with NotImplemented |
| Subtitles.Subtitle.MediaType | server/Types/SubTitle.cs:107-113 | no contract of its own: `UnsupportedMembers` proves it always fails with NotImplemented |
| Subtitles.Subtitle.Title | server/Types/SubTitle.cs:147-153 | no contract of its own: `UnsupportedMembers` proves it always fails with NotImplemented |
| Subtitles.Subtitle.CompareTo | server/Types/SubTitle.cs:212-215 | no contract of its own: `UnsupportedMembers` proves it always fails with NotImplemented |
| Subtitles.Subtitle.Equals | server/Types/SubTitle.cs:228-231 | no contract of its own: `UnsupportedMembers` proves it always fails with NotImplemented |
| Subtitles.Subtitle.ToComparableTitle | server/Types/SubTitle.cs:233-236 | no contract of its own: `UnsupportedMembers` proves it always fails with NotImplemented |
| Subtitles.Subtitle.SetId | server/Types/SubTitle.cs:78-81 | setting the identifier always fails with NotImplemented |
| Subtitles.UnsupportedMembers | server/Types/SubTitle.cs:56-236 | Cover, MediaType, Title, CompareTo, Equals and ToComparableTitle always fail with NotImplemented; the identifier is "ad-hoc-subtitle:" |
| Text.DecimalString | fsserver/Files/VideoFile.cs:227 | the decimal form of a number is non-empty, all digits, and has no leading zero |
| Text.DecimalRoundTrip | fsserver/Files/VideoFile.cs:227 | the decimal form reads back as the number |
| Text.BlankIsNotEmpty | server/Types/SubTitle.cs:64-70 | a blank string has no subtitle (`HasSubtitle`) yet still ends the search (`IsNullOrEmpty`): the two tests differ |
| Text.Utf8 | server/Types/SubTitle.cs:223 | the UTF-8 form has between one and four bytes per character |

## Left out

- `Subtitle.Properties`, `InfoDate`, `PN` and `Type` are left out because they read the clock, the DLNA type maps and `FormatFileSize`. Those are outside this model.
- `BaseFile` is not part of this model. The base title and base properties are parameters. `TimeSpan.ToString("g")` is the parameter `formatDuration`.
- `Server.UpdateFileCache` appears only as the ghost count `cacheUpdates`. The model does not consider it throwing. If it threw inside `MaybeInit`, the outer catch would run with the latch already closed.
- The subtitle getter's catch (VideoFile.cs:244-247) is not modelled. In this model neither the `Subtitle(FileInfo)` constructor nor the cache update throws. Load catches everything it can raise.
- Load's outer catch (SubTitle.cs:206-209) is not modelled, for the same reason.
- The logging calls (`Debug`, `Warn`, `Error`, log4net) are left out, and so is the disposing of the TagLib file.
- VideoMeta.NormalizeDuration: compares ticks with 1,000,000 instead of the double `TotalSeconds` with 0.1. The result at exactly 1,000,000 ticks depends on the runtime. .NET Core and later .NET divide the ticks by 10,000,000, which gives exactly 0.1, so the duration is kept. .NET Framework multiplies the ticks by the double nearest 1e-7, which gives 0.09999999999999999, so the duration is dropped. The model follows the division rule. `NormalizeDurationFramework` states the other rule, and `ThresholdRuntimes` proves that the two disagree only at 1,000,000 ticks.
- VideoMeta.DurationThreshold: its "exactly 0.1 s is kept" holds only under the division rule. On .NET Framework a duration of exactly 0.1 s is dropped, as `ThresholdRuntimes` states.
- VideoMeta.ReadActors: the repeated read of `PerformersSort` is assumed to return what the first read returned. One `Access` value serves both reads, so a tag whose value changes between them is not modelled.
- Paths.ChangedExtension: `Path.ChangeExtension` is reduced to its string rule. Invalid path characters, a null extension and a trailing dot with an empty extension are not modelled. Only '/' and '\\' are separators.
- Text.Utf8: strings are sequences of Unicode scalar values. UTF-16 surrogate pairs and unpaired surrogates are not modelled.
- Codec.Decode: `IFormatterConverter` coercions are not modelled. A stored value of the wrong type is `TypeMismatch`, where .NET might convert it or throw `InvalidCastException`. A `string[]` with null elements is not distinguished from one without.
- Codec.SerializationInfo.AddValue: only the name-uniqueness rule of `SerializationInfo` is modelled. The declared type argument of `AddValue("a", actors, typeof(string[]))` is not.
- `RawHeaders.Add` is modelled as appending a pair. Its handling of a key that is already present is not modelled.
- Concurrency is not modelled. Two threads in `MaybeInit` could both run the reader.
- Subtitles.SearchFrom: the search specification leaves out the loop's format check. `CandidateSupported` proves that every candidate passes it.
- Subtitles.Subtitle.LoadExternal: the source writes `Load` as one method. The model splits the loop over the whitelist from the fallback to the media file itself. `Load` runs both, in the source's order. The loop takes each extension's candidate from `CandidateList`, computed before the loop, where the source computes it inside the loop. The two agree because the set of existing files does not change during the search.
- Nothing pairs the width with the height. Each getter reports its own dimension (VideoFile.cs:179-201), and only the resolution header needs both.
