/** The persisted progress record, its fresh default and its dict form. */
module Record {
  import opened Results
  import opened Json
  import opened Calendar

  /** XP a completed module awards unless the caller says otherwise. */
  const DefaultXpPerModule: int := 100

  const XpKey: string := "xp"
  const ModulesKey: string := "completed_modules"
  const LastActiveKey: string := "last_active_date"
  const StreakKey: string := "streak_days"
  const UpdatedAtKey: string := "updated_at"

  /** One user's progress. Python types the fields but does not enforce any
      range on them, so the model does not either; `Healthy` states the
      invariants the record is meant to keep. */
  datatype Progress = Progress(
    xp: int,
    completedModules: seq<string>,
    lastActiveDate: string,
    streakDays: int,
    updatedAt: string)

  /** No module name appears twice. */
  predicate NoDuplicates(mods: seq<string>) {
    forall i, j :: 0 <= i < j < |mods| ==> mods[i] != mods[j]
  }

  /** The invariants of a progress record: non-negative XP and streak,
      distinct modules, a parseable date and a parseable timestamp. */
  predicate Healthy(cal: Calendar, p: Progress) {
    && p.xp >= 0
    && p.streakDays >= 0
    && NoDuplicates(p.completedModules)
    && IsDate(cal, p.lastActiveDate)
    && IsTimestamp(cal, p.updatedAt)
  }

  /** `Progress.new()`: nothing earned yet, active today, stamped now. */
  function New(cal: Calendar, today: int, now: string): (p: Progress)
    ensures LawfulOn(cal, today) ==> cal.fromisoformat(p.lastActiveDate) == Some(today)
    ensures IsTimestamp(cal, now) && LawfulOn(cal, today) ==> Healthy(cal, p)
  {
    Progress(0, [], cal.isoformat(today), 0, now)
  }

  /** `to_dict()`: the record as the dict `json.dump` writes, fields in
      declaration order. */
  function ToDict(p: Progress): (d: Json)
    ensures d.JObject? && |d.members| == 5
    ensures Lookup(d.members, XpKey) == Some(JInt(p.xp))
    ensures Lookup(d.members, ModulesKey) == Some(JArray(Strings(p.completedModules)))
    ensures Lookup(d.members, LastActiveKey) == Some(JStr(p.lastActiveDate))
    ensures Lookup(d.members, StreakKey) == Some(JInt(p.streakDays))
    ensures Lookup(d.members, UpdatedAtKey) == Some(JStr(p.updatedAt))
  {
    var ms := [
      (XpKey, JInt(p.xp)),
      (ModulesKey, JArray(Strings(p.completedModules))),
      (LastActiveKey, JStr(p.lastActiveDate)),
      (StreakKey, JInt(p.streakDays)),
      (UpdatedAtKey, JStr(p.updatedAt))
    ];
    assert Lookup(ms[4..], UpdatedAtKey) == Some(JStr(p.updatedAt));
    assert Lookup(ms[3..], UpdatedAtKey) == Lookup(ms[4..], UpdatedAtKey);
    assert Lookup(ms[2..], UpdatedAtKey) == Lookup(ms[3..], UpdatedAtKey);
    assert Lookup(ms[3..], StreakKey) == Some(JInt(p.streakDays));
    assert Lookup(ms[2..], StreakKey) == Lookup(ms[3..], StreakKey);
    assert Lookup(ms[2..], LastActiveKey) == Some(JStr(p.lastActiveDate));
    JObject(ms)
  }

  /** A list of module names as the JSON array `json.dump` writes for it. */
  function Strings(mods: seq<string>): (items: seq<Json>)
    ensures |items| == |mods|
    ensures forall k :: 0 <= k < |items| ==> items[k] == JStr(mods[k])
  {
    seq(|mods|, k requires 0 <= k < |mods| => JStr(mods[k]))
  }
}
