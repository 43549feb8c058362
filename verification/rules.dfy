/** The progress rules: the daily streak state machine and module
    completion. Today's date is a parameter in place of the wall clock. */
module Rules {
  import opened Results
  import opened PyText
  import opened Calendar
  import opened Record

  /** `date.fromisoformat` rejected the stored last-active date. */
  datatype RuleError = BadDate(text: string)

  /** `touch_activity`: the day-delta `today - last` drives the streak.
      0 leaves the record alone, 1 extends the streak, anything else (a gap or
      a clock that went backwards) restarts it at 1, counting today. */
  function TouchActivity(cal: Calendar, p: Progress, today: int): (r: Result<Progress, RuleError>)
    ensures r.Err? <==> !IsDate(cal, p.lastActiveDate)
    ensures r.Err? ==> r.error == BadDate(p.lastActiveDate)
    ensures r.Ok? ==> var k := today - cal.fromisoformat(p.lastActiveDate).value;
      && (k == 0 ==> r.value == p)
      && (k != 0 ==> r.value.lastActiveDate == cal.isoformat(today))
      && (k == 1 ==> r.value.streakDays == p.streakDays + 1)
      && (k != 0 && k != 1 ==> r.value.streakDays == 1)
      && r.value.xp == p.xp
      && r.value.completedModules == p.completedModules
      && r.value.updatedAt == p.updatedAt
  {
    match cal.fromisoformat(p.lastActiveDate)
    case None => Err(BadDate(p.lastActiveDate))
    case Some(last) =>
      if last == today then Ok(p)
      else
        var delta := today - last;
        var streak := if delta == 1 then p.streakDays + 1 else 1;
        Ok(p.(streakDays := streak, lastActiveDate := cal.isoformat(today)))
  }

  /** `complete_module`: a blank name (after stripping) changes nothing; any
      other name first touches activity, then is appended and rewarded unless
      it is already completed. The reward defaults to `DEFAULT_XP_PER_MODULE`,
      as in the Python signature. */
  function CompleteModule(cal: Calendar, p: Progress, name: string, today: int, reward: int := DefaultXpPerModule): (r: Result<Progress, RuleError>)
    ensures Strip(name) == [] ==> r == Ok(p)
    ensures Strip(name) != [] ==> (r.Err? <==> !IsDate(cal, p.lastActiveDate))
    ensures r.Ok? && Strip(name) != [] ==>
      && r.value.lastActiveDate == TouchActivity(cal, p, today).value.lastActiveDate
      && r.value.streakDays == TouchActivity(cal, p, today).value.streakDays
      && r.value.updatedAt == p.updatedAt
    ensures r.Ok? && Strip(name) in p.completedModules ==>
      r.value.xp == p.xp && r.value.completedModules == p.completedModules
    ensures r.Ok? && Strip(name) != [] && Strip(name) !in p.completedModules ==>
      r.value.xp == p.xp + reward && r.value.completedModules == p.completedModules + [Strip(name)]
    ensures r.Ok? && NoDuplicates(p.completedModules) ==> NoDuplicates(r.value.completedModules)
  {
    var m := Strip(name);
    if m == [] then Ok(p)
    else
      var t :- TouchActivity(cal, p, today);
      if m in t.completedModules then Ok(t)
      else Ok(t.(completedModules := t.completedModules + [m], xp := t.xp + reward))
  }

  /** Touching twice on the same day is touching once. */
  lemma TouchIdempotent(cal: Calendar, p: Progress, today: int)
    requires LawfulOn(cal, today)
    requires IsDate(cal, p.lastActiveDate)
    ensures TouchActivity(cal, TouchActivity(cal, p, today).value, today) == TouchActivity(cal, p, today)
  {
    var q := TouchActivity(cal, p, today).value;
    assert cal.fromisoformat(cal.isoformat(today)) == Some(today);
    assert cal.fromisoformat(q.lastActiveDate) == Some(today);
  }

  /** The streak transition table for a record last active on day `d` and
      touched on day `d + k`. */
  lemma StreakTable(cal: Calendar, p: Progress, d: int, k: int)
    requires cal.fromisoformat(p.lastActiveDate) == Some(d)
    ensures var r := TouchActivity(cal, p, d + k);
      && r.Ok?
      && r.value.streakDays == (if k == 0 then p.streakDays else if k == 1 then p.streakDays + 1 else 1)
  {
  }

  /** A touch keeps every invariant of a healthy record, and leaves a streak
      of at least one whenever the day changed. */
  lemma TouchPreservesHealthy(cal: Calendar, p: Progress, today: int)
    requires LawfulOn(cal, today)
    requires Healthy(cal, p)
    ensures Healthy(cal, TouchActivity(cal, p, today).value)
    ensures TouchActivity(cal, p, today).value.lastActiveDate != p.lastActiveDate ==>
      TouchActivity(cal, p, today).value.streakDays >= 1
  {
    assert cal.fromisoformat(cal.isoformat(today)) == Some(today);
  }

  /** The record after a touch on each of `days`, in order. */
  function TouchAll(cal: Calendar, p: Progress, days: seq<int>): Result<Progress, RuleError>
    decreases |days|
  {
    if |days| == 0 then Ok(p)
    else
      var q :- TouchActivity(cal, p, days[0]);
      TouchAll(cal, q, days[1..])
  }

  /** Activity on each of the `n` days following the last active day grows
      the streak by exactly `n`: the streak counts consecutive days. */
  lemma {:induction false} ConsecutiveDays(cal: Calendar, p: Progress, d: int, n: nat)
    requires forall e :: d < e <= d + n ==> LawfulOn(cal, e)
    requires cal.fromisoformat(p.lastActiveDate) == Some(d)
    ensures var r := TouchAll(cal, p, seq(n, k => d + 1 + k));
      && r.Ok?
      && r.value.streakDays == p.streakDays + n
      && r.value.lastActiveDate == (if n == 0 then p.lastActiveDate else cal.isoformat(d + n))
      && r.value.xp == p.xp
      && r.value.completedModules == p.completedModules
    decreases n
  {
    if n > 0 {
      var q := TouchActivity(cal, p, d + 1).value;
      assert LawfulOn(cal, d + 1);
      ConsecutiveDays(cal, q, d + 1, n - 1);
      var days := seq(n, k => d + 1 + k);
      assert days[1..] == seq(n - 1, k => d + 1 + 1 + k);
    }
  }

  /** Completing a module a second time on the same day changes nothing:
      no second reward, no second entry. */
  lemma CompleteIdempotent(cal: Calendar, p: Progress, name: string, reward: int, today: int)
    requires LawfulOn(cal, today)
    requires CompleteModule(cal, p, name, today, reward).Ok?
    ensures var q := CompleteModule(cal, p, name, today, reward).value;
      CompleteModule(cal, q, name, today, reward) == Ok(q)
  {
    var q := CompleteModule(cal, p, name, today, reward).value;
    if Strip(name) != [] {
      assert cal.fromisoformat(cal.isoformat(today)) == Some(today);
      assert cal.fromisoformat(q.lastActiveDate) == Some(today);
      assert Strip(name) in q.completedModules;
    }
  }

  /** Completing a module with a non-negative reward keeps a healthy record
      healthy. */
  lemma CompletePreservesHealthy(cal: Calendar, p: Progress, name: string, reward: int, today: int)
    requires LawfulOn(cal, today)
    requires Healthy(cal, p)
    requires reward >= 0
    ensures Healthy(cal, CompleteModule(cal, p, name, today, reward).value)
  {
    if Strip(name) != [] {
      TouchPreservesHealthy(cal, p, today);
    }
  }

  /** A whitespace-only name such as `"   "` leaves the record untouched,
      last-active date included. */
  lemma BlankNameIsNoop(cal: Calendar, p: Progress, reward: int, today: int)
    ensures CompleteModule(cal, p, "   ", today, reward) == Ok(p)
  {
    ThreeSpacesStripToNothing("   ");
  }

  lemma ThreeSpacesStripToNothing(s: string)
    requires s == "   "
    ensures Strip(s) == []
  {
    assert IsSpace(' ');
    assert s[0] == ' ' && s[1] == ' ' && s[2] == ' ';
    assert AllSpace(s);
  }

  /** Completing a new module without naming a reward, as the app does,
      adds exactly `DEFAULT_XP_PER_MODULE` = 100 XP. */
  lemma DefaultRewardIsHundred(cal: Calendar, p: Progress, name: string, today: int)
    requires Strip(name) != [] && Strip(name) !in p.completedModules
    requires IsDate(cal, p.lastActiveDate)
    ensures CompleteModule(cal, p, name, today).Ok?
    ensures CompleteModule(cal, p, name, today).value.xp == p.xp + 100
  {
  }
}
