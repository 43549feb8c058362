/** The pure part of the progress store: what `load_progress` makes of the
    file it finds, and what `save_progress` hands to `json.dump`. Opening,
    writing, syncing and renaming files are not part of this model. */
module Store {
  import opened Results
  import opened Json
  import opened Calendar
  import opened Record

  /** What the load finds at the progress path: no file, a file `json.load`
      rejects, or the value it decoded. */
  datatype Stored = Absent | Undecodable | Decoded(raw: Json)

  datatype LoadError =
    | DecodeError
      /** the decoded value is not a dict, so `raw.get` raises */
    | NotAnObject
      /** the builtin conversion of the value under `key` raised */
    | BadField(key: string, error: CoerceError)

  function AtKey<T>(key: string, r: Result<T, CoerceError>): (o: Result<T, LoadError>)
    ensures r.Ok? ==> o == Ok(r.value)
    ensures r.Err? ==> o == Err(BadField(key, r.error))
  {
    match r
    case Ok(v) => Ok(v)
    case Err(e) => Err(BadField(key, e))
  }

  /** The value an entry contributes to an int or list field: absent keys
      keep the default. */
  predicate Overlaid<T(==)>(entry: Option<Json>, coerce: Json -> Result<T, CoerceError>, default: T, got: T) {
    match entry
    case None => got == default
    case Some(v) => coerce(v) == Ok(got)
  }

  /** Every key present in the dict converts to its field's type. */
  predicate Convertible(members: seq<(string, Json)>) {
    && (Lookup(members, XpKey).Some? ==> PyInt(Lookup(members, XpKey).value).Ok?)
    && (Lookup(members, ModulesKey).Some? ==> PyList(Lookup(members, ModulesKey).value).Ok?)
    && (Lookup(members, StreakKey).Some? ==> PyInt(Lookup(members, StreakKey).value).Ok?)
  }

  /** The forward-compatible overlay: start from `Progress.new()` and replace
      each field whose key the dict holds, converted as the field's type
      demands. The first conversion that raises aborts the load. */
  function Overlay(cal: Calendar, members: seq<(string, Json)>, today: int, now: string): (r: Result<Progress, LoadError>)
    ensures r.Ok? <==> Convertible(members)
    ensures r.Ok? ==> Overlaid(Lookup(members, XpKey), PyInt, 0, r.value.xp)
    ensures r.Ok? ==> Overlaid(Lookup(members, ModulesKey), PyList, [], r.value.completedModules)
    ensures r.Ok? ==> Overlaid(Lookup(members, StreakKey), PyInt, 0, r.value.streakDays)
    ensures r.Ok? ==>
      r.value.lastActiveDate == (match Lookup(members, LastActiveKey) case None => cal.isoformat(today) case Some(v) => PyStr(v))
    ensures r.Ok? ==>
      r.value.updatedAt == (match Lookup(members, UpdatedAtKey) case None => now case Some(v) => PyStr(v))
    ensures r.Err? ==> r.error.BadField? && Lookup(members, r.error.key).Some?
  {
    var p := New(cal, today, now);
    var xp :- IntField(members, XpKey, p.xp);
    var mods :- ListField(members, ModulesKey, p.completedModules);
    var last := StrField(members, LastActiveKey, p.lastActiveDate);
    var streak :- IntField(members, StreakKey, p.streakDays);
    var stamp := StrField(members, UpdatedAtKey, p.updatedAt);
    Ok(Progress(xp, mods, last, streak, stamp))
  }

  /** `int(raw.get(key, default))` */
  function IntField(members: seq<(string, Json)>, key: string, default: int): Result<int, LoadError> {
    AtKey(key, match Lookup(members, key) case None => Ok(default) case Some(v) => PyInt(v))
  }

  /** `list(raw.get(key, default))` */
  function ListField(members: seq<(string, Json)>, key: string, default: seq<string>): Result<seq<string>, LoadError> {
    AtKey(key, match Lookup(members, key) case None => Ok(default) case Some(v) => PyList(v))
  }

  /** `str(raw.get(key, default))` */
  function StrField(members: seq<(string, Json)>, key: string, default: string): string {
    match Lookup(members, key) case None => default case Some(v) => PyStr(v)
  }

  /** `load_progress`: a missing file gives a fresh record, an existing one
      is decoded and overlaid on a fresh record. */
  function Load(cal: Calendar, stored: Stored, today: int, now: string): (r: Result<Progress, LoadError>)
    ensures stored.Absent? ==> r == Ok(New(cal, today, now))
    ensures stored.Undecodable? ==> r == Err(DecodeError)
    ensures stored.Decoded? && !stored.raw.JObject? ==> r == Err(NotAnObject)
    ensures stored.Decoded? && stored.raw.JObject? ==> r == Overlay(cal, stored.raw.members, today, now)
  {
    match stored
    case Absent => Ok(New(cal, today, now))
    case Undecodable => Err(DecodeError)
    case Decoded(raw) =>
      if raw.JObject? then Overlay(cal, raw.members, today, now) else Err(NotAnObject)
  }

  /** The dict `save_progress` writes: the record stamped with the save
      time. */
  function SaveImage(p: Progress, now: string): (d: Json)
    ensures d.JObject? && Lookup(d.members, UpdatedAtKey) == Some(JStr(now))
  {
    ToDict(p.(updatedAt := now))
  }

  /** Overlaying `to_dict(p)` on any fresh record gives back `p`, field for
      field. */
  lemma LoadToDict(cal: Calendar, p: Progress, today: int, now: string)
    ensures Load(cal, Decoded(ToDict(p)), today, now) == Ok(p)
  {
    var ms := ToDict(p).members;
    ListRoundTrip(p.completedModules);
    assert IntField(ms, XpKey, 0) == Ok(p.xp);
    assert ListField(ms, ModulesKey, []) == Ok(p.completedModules);
    assert StrField(ms, LastActiveKey, cal.isoformat(today)) == p.lastActiveDate;
    assert IntField(ms, StreakKey, 0) == Ok(p.streakDays);
    assert StrField(ms, UpdatedAtKey, now) == p.updatedAt;
  }

  /** `list(...)` of the array `json.dump` writes for a module list gives the
      list back. */
  lemma ListRoundTrip(mods: seq<string>)
    ensures PyList(JArray(Strings(mods))) == Ok(mods)
  {
    var r := PyList(JArray(Strings(mods)));
    assert r.Ok?;
    assert r.value == mods;
  }

  /** Saving then loading reproduces the record except `updated_at`, which
      becomes the save time. */
  lemma SaveThenLoad(cal: Calendar, p: Progress, saved: string, today: int, now: string)
    ensures Load(cal, Decoded(SaveImage(p, saved)), today, now) == Ok(p.(updatedAt := saved))
  {
    LoadToDict(cal, p.(updatedAt := saved), today, now);
  }

  /** A dict without a key loads that field's default; in particular a file
      written before `streak_days` existed loads with a zero streak. */
  lemma MissingKeysDefault(cal: Calendar, members: seq<(string, Json)>, today: int, now: string)
    requires Convertible(members)
    ensures var r := Overlay(cal, members, today, now);
      && r.Ok?
      && (Lookup(members, XpKey).None? ==> r.value.xp == 0)
      && (Lookup(members, ModulesKey).None? ==> r.value.completedModules == [])
      && (Lookup(members, LastActiveKey).None? ==> r.value.lastActiveDate == cal.isoformat(today))
      && (Lookup(members, StreakKey).None? ==> r.value.streakDays == 0)
      && (Lookup(members, UpdatedAtKey).None? ==> r.value.updatedAt == now)
  {
  }

  /** An empty dict loads exactly the fresh record. */
  lemma EmptyDictIsNew(cal: Calendar, today: int, now: string)
    ensures Load(cal, Decoded(JObject([])), today, now) == Ok(New(cal, today, now))
  {
  }

  /** A stored textual number such as `"42"` loads as the integer. */
  lemma TextualNumbersLoad(cal: Calendar, n: int, today: int, now: string)
    ensures var r := Overlay(cal, [(XpKey, JStr(Decimal.ShowInt(n)))], today, now);
      r.Ok? && r.value.xp == n
  {
    TextualInt(n);
  }
}
