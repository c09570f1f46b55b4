/** The persisted snapshot of a video entry: ten named members written into a
    `SerializationInfo` in a fixed order, and read back key by key, each only
    when its member is present with a non-null value. */
module Codec {
  import opened Basics

  /** The values a member can hold; `VSubtitle` is a serialized subtitle, of
      which only the text is persisted. */
  datatype Value =
    | VNull
    | VString(s: string)
    | VStrings(ss: seq<string>)
    | VInt32(i: int32)
    | VInt64(l: int64)
    | VSubtitle(text: Option<string>)

  /** One `SerializationEntry`. */
  datatype Member = Member(name: string, value: Value)

  /** Some member of `ms` is called `name`. */
  predicate HasMember(ms: seq<Member>, name: string) {
    exists i :: 0 <= i < |ms| && ms[i].name == name
  }

  /** No two members share a name. */
  predicate UniqueNames(ms: seq<Member>) {
    forall i, j :: 0 <= i < j < |ms| ==> ms[i].name != ms[j].name
  }

  /** `SerializationInfo`: the members in the order they were added. */
  class SerializationInfo {
    var members: seq<Member>

    ghost predicate Valid()
      reads this
    {
      UniqueNames(members)
    }

    constructor ()
      ensures members == [] && Valid()
    {
      members := [];
    }

    /** `AddValue`: appends a member; a name already present is refused. */
    method AddValue(name: string, value: Value) returns (r: Outcome)
      modifies this
      ensures AddRun(r, members) == AddAll(old(members), [Member(name, value)])
    {
      if exists i :: 0 <= i < |members| && members[i].name == name {
        return Fail(DuplicateMember);
      }
      members := members + [Member(name, value)];
      r := Pass;
    }
  }

  /** What a run of `AddValue` calls leaves: the outcome of the first call
      that failed (or `Pass`) and the members then. */
  datatype AddRun = AddRun(outcome: Outcome, members: seq<Member>)

  /** Adding `news` one by one, stopping at the first refused name. */
  function AddAll(ms: seq<Member>, news: seq<Member>): AddRun
    decreases |news|
  {
    if |news| == 0 then AddRun(Pass, ms)
    else if HasMember(ms, news[0].name) then AddRun(Fail(DuplicateMember), ms)
    else AddAll(ms + [news[0]], news[1..])
  }

  /** One `AddValue` call: refused, changing nothing, when the name is
      present; otherwise the member is appended. */
  lemma AddOne(ms: seq<Member>, m: Member)
    ensures var run := AddAll(ms, [m]);
            (run.outcome.Fail? <==> HasMember(ms, m.name)) &&
            (run.outcome.Fail? ==> run == AddRun(Fail(DuplicateMember), ms)) &&
            (run.outcome.Pass? ==> run.members == ms + [m])
  {
    assert [m][1..] == [];
  }

  /** Adding members with new, distinct names always succeeds and appends them
      all; a clash with an existing name is always refused. */
  lemma {:induction false} AddAllFresh(ms: seq<Member>, news: seq<Member>)
    requires UniqueNames(news)
    requires forall i :: 0 <= i < |news| ==> !HasMember(ms, news[i].name)
    ensures AddAll(ms, news) == AddRun(Pass, ms + news)
    decreases |news|
  {
    if |news| > 0 {
      var ms' := ms + [news[0]];
      forall i | 0 <= i < |news[1..]|
        ensures !HasMember(ms', news[1..][i].name)
      {
        assert news[1..][i] == news[i + 1];
        assert news[0].name != news[i + 1].name;
        assert forall k :: 0 <= k < |ms'| ==> ms'[k] == if k < |ms| then ms[k] else news[0];
      }
      AddAllFresh(ms', news[1..]);
      assert ms' + news[1..] == ms + news;
    }
  }

  /** A run over `a + b` is the run over `a`, continued over `b` when `a`
      went through. */
  lemma {:induction false} AddAllSplit(ms: seq<Member>, a: seq<Member>, b: seq<Member>)
    ensures AddAll(ms, a + b) ==
            if AddAll(ms, a).outcome.Fail? then AddAll(ms, a) else AddAll(AddAll(ms, a).members, b)
    decreases |a|
  {
    if |a| > 0 {
      assert (a + b)[0] == a[0];
      assert (a + b)[1..] == a[1..] + b;
      AddAllSplit(ms + [a[0]], a[1..], b);
    } else {
      assert a + b == b;
    }
  }

  /** A run keeps the names unique: a refused name is never appended. */
  lemma {:induction false} AddAllKeepsUnique(ms: seq<Member>, news: seq<Member>)
    requires UniqueNames(ms)
    ensures UniqueNames(AddAll(ms, news).members)
    decreases |news|
  {
    if |news| > 0 && !HasMember(ms, news[0].name) {
      var ms' := ms + [news[0]];
      forall i, j | 0 <= i < j < |ms'|
        ensures ms'[i].name != ms'[j].name
      {
        if j == |ms| {
          assert ms'[i] == ms[i];
        }
      }
      AddAllKeepsUnique(ms', news[1..]);
    }
  }

  lemma {:induction false} AddAllClash(ms: seq<Member>, news: seq<Member>)
    requires exists i :: 0 <= i < |news| && HasMember(ms, news[i].name)
    ensures AddAll(ms, news).outcome == Fail(DuplicateMember)
    decreases |news|
  {
    if !HasMember(ms, news[0].name) {
      var i :| 0 <= i < |news| && HasMember(ms, news[i].name);
      var k :| 0 <= k < |ms| && ms[k].name == news[i].name;
      assert (ms + [news[0]])[k] == ms[k];
      assert news[1..][i - 1] == news[i];
      AddAllClash(ms + [news[0]], news[1..]);
    }
  }

  /** The persisted fields of an entry. `subtitle` is `None` for a null
      subtitle reference, `Some(text)` for a subtitle with that text. */
  datatype Snapshot = Snapshot(
    actors: Option<seq<string>>,
    description: Option<string>,
    director: Option<string>,
    genre: Option<string>,
    title: Option<string>,
    width: int32,
    height: int32,
    bookmark: int64,
    duration: Option<int64>,
    subtitle: Option<Option<string>>)

  /** The member names, in the order `GetObjectData` adds them. */
  const Keys: seq<string> := ["a", "de", "di", "g", "t", "w", "h", "b", "du", "st"]

  function StringValue(s: Option<string>): Value {
    match s
    case None => VNull
    case Some(x) => VString(x)
  }

  /** `duration.GetValueOrDefault(EmptyDuration).Ticks`. */
  function Ticks(d: Option<int64>): int64 {
    match d
    case None => 0
    case Some(t) => t
  }

  /** `GetObjectData`'s members for a snapshot. */
  function Encode(s: Snapshot): (r: seq<Member>)
    ensures |r| == |Keys| && forall i :: 0 <= i < |Keys| ==> r[i].name == Keys[i]
  {
    [Member("a", match s.actors case None => VNull case Some(a) => VStrings(a)),
     Member("de", StringValue(s.description)),
     Member("di", StringValue(s.director)),
     Member("g", StringValue(s.genre)),
     Member("t", StringValue(s.title)),
     Member("w", VInt32(s.width)),
     Member("h", VInt32(s.height)),
     Member("b", VInt64(s.bookmark)),
     Member("du", VInt64(Ticks(s.duration))),
     Member("st", match s.subtitle case None => VNull case Some(t) => VSubtitle(t))]
  }

  /** `GetObjectData`'s ten `AddValue` calls for a snapshot, in order: the
      five strings, then the numbers and the subtitle. The first refused
      name ends the run. */
  method WriteSnapshot(info: SerializationInfo, s: Snapshot) returns (r: Outcome)
    modifies info
    ensures AddRun(r, info.members) == AddAll(old(info.members), Encode(s))
  {
    ghost var all := Encode(s);
    assert all == all[..5] + all[5..];
    AddAllSplit(info.members, all[..5], all[5..]);
    r := WriteTexts(info, s);
    if r.Fail? { return; }
    r := WriteNumbers(info, s);
  }

  /** The calls for the five string members. */
  method WriteTexts(info: SerializationInfo, s: Snapshot) returns (r: Outcome)
    modifies info
    ensures AddRun(r, info.members) == AddAll(old(info.members), Encode(s)[..5])
  {
    ghost var all := Encode(s)[..5];
    ghost var start := info.members;
    ghost var prev := start;
    assert all[0..] == all;
    r := info.AddValue("a", match s.actors case None => VNull case Some(a) => VStrings(a));
    AddStep(start, all, prev, Member("a", match s.actors case None => VNull case Some(a) => VStrings(a)), info.members, r, 1);
    if r.Fail? { return; }
    prev := info.members;
    r := info.AddValue("de", StringValue(s.description));
    AddStep(start, all, prev, Member("de", StringValue(s.description)), info.members, r, 2);
    if r.Fail? { return; }
    prev := info.members;
    r := info.AddValue("di", StringValue(s.director));
    AddStep(start, all, prev, Member("di", StringValue(s.director)), info.members, r, 3);
    if r.Fail? { return; }
    prev := info.members;
    r := info.AddValue("g", StringValue(s.genre));
    AddStep(start, all, prev, Member("g", StringValue(s.genre)), info.members, r, 4);
    if r.Fail? { return; }
    prev := info.members;
    r := info.AddValue("t", StringValue(s.title));
    AddStep(start, all, prev, Member("t", StringValue(s.title)), info.members, r, 5);
    if r.Fail? { return; }
  }

  /** The calls for the four numbers and the subtitle. */
  method WriteNumbers(info: SerializationInfo, s: Snapshot) returns (r: Outcome)
    modifies info
    ensures AddRun(r, info.members) == AddAll(old(info.members), Encode(s)[5..])
  {
    ghost var all := Encode(s)[5..];
    ghost var start := info.members;
    ghost var prev := start;
    assert all[0..] == all;
    r := info.AddValue("w", VInt32(s.width));
    AddStep(start, all, prev, Member("w", VInt32(s.width)), info.members, r, 1);
    if r.Fail? { return; }
    prev := info.members;
    r := info.AddValue("h", VInt32(s.height));
    AddStep(start, all, prev, Member("h", VInt32(s.height)), info.members, r, 2);
    if r.Fail? { return; }
    prev := info.members;
    r := info.AddValue("b", VInt64(s.bookmark));
    AddStep(start, all, prev, Member("b", VInt64(s.bookmark)), info.members, r, 3);
    if r.Fail? { return; }
    prev := info.members;
    r := info.AddValue("du", VInt64(Ticks(s.duration)));
    AddStep(start, all, prev, Member("du", VInt64(Ticks(s.duration))), info.members, r, 4);
    if r.Fail? { return; }
    prev := info.members;
    r := info.AddValue("st", match s.subtitle case None => VNull case Some(t) => VSubtitle(t));
    AddStep(start, all, prev, Member("st", match s.subtitle case None => VNull case Some(t) => VSubtitle(t)), info.members, r, 5);
    if r.Fail? { return; }
  }

  /** One `AddValue` call of a run that so far matches `AddAll`: it either
      ends the run as `AddAll` does, or leaves the rest of the run to go. */
  lemma AddStep(start: seq<Member>, all: seq<Member>, prev: seq<Member>, m: Member, now: seq<Member>, r: Outcome, k: nat)
    requires 0 < k <= |all| && all[k - 1] == m
    requires AddAll(start, all) == AddAll(prev, all[k - 1..])
    requires AddRun(r, now) == AddAll(prev, [m])
    ensures r.Fail? ==> AddRun(r, now) == AddAll(start, all)
    ensures r.Pass? ==> AddAll(start, all) == AddAll(now, all[k..])
    ensures r.Pass? && k == |all| ==> AddRun(r, now) == AddAll(start, all)
  {
    assert all[k - 1..] == [all[k - 1]] + all[k..];
    AddAllSplit(prev, [all[k - 1]], all[k..]);
    assert all[k..] == [] ==> AddAll(now, all[k..]) == AddRun(Pass, now);
  }

  /** The ten names are distinct. */
  lemma KeysDistinct(i: nat, j: nat)
    requires i < j < |Keys|
    ensures Keys[i] != Keys[j]
  {
    assert Keys[i][0] != Keys[j][0] || (|Keys[i]| > 1 && |Keys[j]| > 1 && Keys[i][1] != Keys[j][1]);
  }

  /** So an encoding has unique names. */
  lemma EncodeUnique(s: Snapshot)
    ensures UniqueNames(Encode(s))
  {
    forall i, j | 0 <= i < j < |Encode(s)|
      ensures Encode(s)[i].name != Encode(s)[j].name
    {
      KeysDistinct(i, j);
    }
  }

  /** The names of the members with a non-null value: the `fields` set the
      deserialising constructor builds. */
  function NonNullNames(ms: seq<Member>): set<string> {
    if |ms| == 0 then {}
    else NonNullNames(ms[..|ms| - 1]) + (if ms[|ms| - 1].value.VNull? then {} else {ms[|ms| - 1].name})
  }

  /** A name is a field exactly when some member of that name is not null. */
  lemma {:induction false} NonNullNamesExactly(ms: seq<Member>, n: string)
    ensures n in NonNullNames(ms) <==> exists i :: 0 <= i < |ms| && ms[i].name == n && !ms[i].value.VNull?
  {
    if |ms| > 0 {
      var init := ms[..|ms| - 1];
      NonNullNamesExactly(init, n);
      assert forall i :: 0 <= i < |init| ==> init[i] == ms[i];
    }
  }

  /** The deserialising constructor's loop over the info. */
  method PresentNames(info: SerializationInfo) returns (fields: set<string>)
    ensures fields == NonNullNames(info.members)
  {
    fields := {};
    for i := 0 to |info.members|
      invariant fields == NonNullNames(info.members[..i])
    {
      assert info.members[..i + 1][..i] == info.members[..i];
      if info.members[i].value != VNull {
        fields := fields + {info.members[i].name};
      }
    }
    assert info.members[..|info.members|] == info.members;
  }

  /** The value of the first member called `name`. */
  function Lookup(ms: seq<Member>, name: string): Option<Value> {
    if |ms| == 0 then None
    else if ms[0].name == name then Some(ms[0].value)
    else Lookup(ms[1..], name)
  }

  /** Lookup finds a value exactly when there is a member of that name, and
      the value is one such member's. */
  lemma {:induction false} LookupFinds(ms: seq<Member>, name: string)
    ensures Lookup(ms, name).Some? <==> HasMember(ms, name)
    ensures Lookup(ms, name).Some? ==> exists i :: 0 <= i < |ms| && ms[i] == Member(name, Lookup(ms, name).value)
  {
    if |ms| > 0 && ms[0].name != name {
      LookupFinds(ms[1..], name);
      assert forall i :: 0 <= i < |ms[1..]| ==> ms[1..][i] == ms[i + 1];
      assert HasMember(ms[1..], name) ==> HasMember(ms, name);
      assert HasMember(ms, name) ==> HasMember(ms[1..], name) by {
        if HasMember(ms, name) {
          var i :| 0 <= i < |ms| && ms[i].name == name;
          assert i > 0 && ms[1..][i - 1] == ms[i];
        }
      }
    }
  }

  /** `GetValue(name, typeof(string[])) as string[]`. */
  function GetStrings(ms: seq<Member>, name: string): Result<Option<seq<string>>> {
    match Lookup(ms, name)
    case Some(VStrings(x)) => Success(Some(x))
    case Some(VNull) => Success(None)
    case _ => Failure(TypeMismatch)
  }

  /** `GetString(name)`. */
  function GetString(ms: seq<Member>, name: string): Result<Option<string>> {
    match Lookup(ms, name)
    case Some(VString(x)) => Success(Some(x))
    case Some(VNull) => Success(None)
    case _ => Failure(TypeMismatch)
  }

  /** `GetInt32(name)`. */
  function GetInt32(ms: seq<Member>, name: string): Result<int32> {
    match Lookup(ms, name)
    case Some(VInt32(x)) => Success(x)
    case _ => Failure(TypeMismatch)
  }

  /** `GetInt64(name)`. */
  function GetInt64(ms: seq<Member>, name: string): Result<int64> {
    match Lookup(ms, name)
    case Some(VInt64(x)) => Success(x)
    case _ => Failure(TypeMismatch)
  }

  /** `GetValue(name, typeof(Subtitle)) as Subtitle`, as the subtitle's text. */
  function GetSubtitle(ms: seq<Member>, name: string): Result<Option<Option<string>>> {
    match Lookup(ms, name)
    case Some(VSubtitle(t)) => Success(Some(t))
    case Some(VNull) => Success(None)
    case _ => Failure(TypeMismatch)
  }

  /** The deserialising constructor after its loop: each field is read only
      when its name is in `fields`, and otherwise keeps the constructor's
      default (null, 0, the zero-length duration, no subtitle of its own). A
      tick count that is not positive also leaves the zero-length duration. A
      member of the wrong type fails the whole reconstruction. */
  function Decode(ms: seq<Member>, fields: set<string>): (r: Result<Snapshot>)
    ensures r.Failure? ==> r.error == TypeMismatch
    ensures r.Success? ==> r.value.duration.Some? && r.value.duration.value >= 0
    ensures r.Success? ==>
              ("a" !in fields ==> r.value.actors == None) &&
              ("de" !in fields ==> r.value.description == None) &&
              ("di" !in fields ==> r.value.director == None) &&
              ("g" !in fields ==> r.value.genre == None) &&
              ("t" !in fields ==> r.value.title == None)
    ensures r.Success? ==>
              ("w" !in fields ==> r.value.width == 0) &&
              ("h" !in fields ==> r.value.height == 0) &&
              ("du" !in fields ==> r.value.duration == Some(0)) &&
              ("b" !in fields ==> r.value.bookmark == 0) &&
              ("st" !in fields ==> r.value.subtitle == None)
  {
    var a :- if "a" in fields then GetStrings(ms, "a") else Success(None);
    var de :- if "de" in fields then GetString(ms, "de") else Success(None);
    var di :- if "di" in fields then GetString(ms, "di") else Success(None);
    var g :- if "g" in fields then GetString(ms, "g") else Success(None);
    var t :- if "t" in fields then GetString(ms, "t") else Success(None);
    var w :- if "w" in fields then GetInt32(ms, "w") else Success(0);
    var h :- if "h" in fields then GetInt32(ms, "h") else Success(0);
    var du :- if "du" in fields then GetInt64(ms, "du") else Success(0);
    var b :- if "b" in fields then GetInt64(ms, "b") else Success(0);
    var st :- if "st" in fields then GetSubtitle(ms, "st") else Success(None);
    Success(Snapshot(a, de, di, g, t, w, h, b, Some(if du > 0 then du else 0), st))
  }

  /** Decoding an info as the constructor does: fields from the info itself. */
  function DecodeInfo(ms: seq<Member>): (r: Result<Snapshot>)
    ensures ms == [] ==> r == Success(Snapshot(None, None, None, None, None, 0, 0, 0, Some(0), None))
  {
    Decode(ms, NonNullNames(ms))
  }

  /** The first member called `name` is found. */
  lemma {:induction false} LookupFirst(ms: seq<Member>, name: string, k: nat)
    requires k < |ms| && ms[k].name == name
    requires forall j :: 0 <= j < k ==> ms[j].name != name
    ensures Lookup(ms, name) == Some(ms[k].value)
    decreases k
  {
    if k > 0 {
      assert ms[1..][k - 1] == ms[k];
      LookupFirst(ms[1..], name, k - 1);
    }
  }

  /** In a list named like an encoding, `Keys[k]` finds member `k`, and is a
      field exactly when that member is not null. */
  lemma KeyLookup(ms: seq<Member>, k: nat)
    requires |ms| == |Keys| && forall i :: 0 <= i < |Keys| ==> ms[i].name == Keys[i]
    requires k < |Keys|
    ensures Lookup(ms, Keys[k]) == Some(ms[k].value)
    ensures Keys[k] in NonNullNames(ms) <==> !ms[k].value.VNull?
  {
    forall j | 0 <= j < |ms| && j != k
      ensures ms[j].name != Keys[k]
    {
      if j < k { KeysDistinct(j, k); } else { KeysDistinct(k, j); }
    }
    LookupFirst(ms, Keys[k], k);
    NonNullNamesExactly(ms, Keys[k]);
  }

  /** Reading the reference and string members of an encoding back. */
  lemma EncodedStrings(s: Snapshot)
    ensures var ms := Encode(s);
            var f := NonNullNames(ms);
            (if "a" in f then GetStrings(ms, "a") else Success(None)) == Success(s.actors) &&
            (if "de" in f then GetString(ms, "de") else Success(None)) == Success(s.description) &&
            (if "di" in f then GetString(ms, "di") else Success(None)) == Success(s.director) &&
            (if "g" in f then GetString(ms, "g") else Success(None)) == Success(s.genre) &&
            (if "t" in f then GetString(ms, "t") else Success(None)) == Success(s.title)
  {
    var ms := Encode(s);
    KeyLookup(ms, 0);
    KeyLookup(ms, 1);
    KeyLookup(ms, 2);
    KeyLookup(ms, 3);
    KeyLookup(ms, 4);
  }

  /** Reading the integer and subtitle members of an encoding back. */
  lemma EncodedNumbers(s: Snapshot)
    ensures var ms := Encode(s);
            var f := NonNullNames(ms);
            (if "w" in f then GetInt32(ms, "w") else Success(0)) == Success(s.width) &&
            (if "h" in f then GetInt32(ms, "h") else Success(0)) == Success(s.height) &&
            (if "du" in f then GetInt64(ms, "du") else Success(0)) == Success(Ticks(s.duration)) &&
            (if "b" in f then GetInt64(ms, "b") else Success(0)) == Success(s.bookmark) &&
            (if "st" in f then GetSubtitle(ms, "st") else Success(None)) == Success(s.subtitle)
  {
    var ms := Encode(s);
    KeyLookup(ms, 5);
    KeyLookup(ms, 6);
    KeyLookup(ms, 7);
    KeyLookup(ms, 8);
    KeyLookup(ms, 9);
  }

  /** The round trip: every field comes back as it was, null ones as null,
      except the duration, which comes back as its tick count when positive and
      as the zero-length duration otherwise (absence is not kept). */
  lemma RoundTrip(s: Snapshot)
    ensures var r := DecodeInfo(Encode(s));
            r.Success? && r.value.(duration := s.duration) == s &&
            r.value.duration == Some(if Ticks(s.duration) > 0 then Ticks(s.duration) else 0)
  {
    EncodedStrings(s);
    EncodedNumbers(s);
    DecodeReads(Encode(s), NonNullNames(Encode(s)), s);
  }

  /** `Decode` assembles what the ten reads give. */
  lemma DecodeReads(ms: seq<Member>, f: set<string>, s: Snapshot)
    requires (if "a" in f then GetStrings(ms, "a") else Success(None)) == Success(s.actors)
    requires (if "de" in f then GetString(ms, "de") else Success(None)) == Success(s.description)
    requires (if "di" in f then GetString(ms, "di") else Success(None)) == Success(s.director)
    requires (if "g" in f then GetString(ms, "g") else Success(None)) == Success(s.genre)
    requires (if "t" in f then GetString(ms, "t") else Success(None)) == Success(s.title)
    requires (if "w" in f then GetInt32(ms, "w") else Success(0)) == Success(s.width)
    requires (if "h" in f then GetInt32(ms, "h") else Success(0)) == Success(s.height)
    requires (if "du" in f then GetInt64(ms, "du") else Success(0)) == Success(Ticks(s.duration))
    requires (if "b" in f then GetInt64(ms, "b") else Success(0)) == Success(s.bookmark)
    requires (if "st" in f then GetSubtitle(ms, "st") else Success(None)) == Success(s.subtitle)
    ensures Decode(ms, f) ==
            Success(s.(duration := Some(if Ticks(s.duration) > 0 then Ticks(s.duration) else 0)))
  {
  }

  /** Unknown duration and zero-length duration encode alike. */
  lemma DurationLossy(s: Snapshot)
    ensures Encode(s.(duration := None)) == Encode(s.(duration := Some(0)))
    ensures DecodeInfo(Encode(s.(duration := None))) == DecodeInfo(Encode(s.(duration := Some(0))))
  {
  }

  /** What decoding produces is a fixed point: encoding it and decoding again
      gives it back, and with a duration that is never negative, encoding,
      decoding and encoding again gives the first encoding. */
  lemma DecodeStable(ms: seq<Member>, s: Snapshot)
    ensures DecodeInfo(ms).Success? ==> DecodeInfo(Encode(DecodeInfo(ms).value)) == DecodeInfo(ms)
    ensures Ticks(s.duration) >= 0 ==>
              DecodeInfo(Encode(s)).Success? && Encode(DecodeInfo(Encode(s)).value) == Encode(s)
  {
    RoundTrip(s);
    if DecodeInfo(ms).Success? {
      var d := DecodeInfo(ms).value;
      RoundTrip(d);
    }
  }
}
