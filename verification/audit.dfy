/** `validate_progress`: a read-only audit that collects every problem it
    finds instead of stopping at the first. */
module Audit {
  import opened Results
  import opened Calendar
  import opened Record

  /** One finding. The source reports formatted messages; the model keeps
      the value each message quotes. */
  datatype Issue =
    | NegativeXp(xp: int)
    | NegativeStreak(streak: int)
    | DuplicateModule(name: string)
    | BadDateFormat(text: string)
    | BadDatetimeFormat(text: string)

  /** The entries of `mods` that already occurred earlier, in order: every
      repetition after the first occurrence. */
  function Repeats(mods: seq<string>): seq<string>
    decreases |mods|
  {
    if |mods| == 0 then []
    else
      var init := mods[..|mods| - 1];
      var last := mods[|mods| - 1];
      Repeats(init) + (if last in init then [last] else [])
  }

  function Elems(mods: seq<string>): set<string> {
    set m | m in mods
  }

  function DuplicateIssues(names: seq<string>): (r: seq<Issue>)
    ensures |r| == |names|
    ensures forall k :: 0 <= k < |r| ==> r[k] == DuplicateModule(names[k])
  {
    seq(|names|, k requires 0 <= k < |names| => DuplicateModule(names[k]))
  }

  lemma DuplicateIssuesAppend(a: seq<string>, b: seq<string>)
    ensures DuplicateIssues(a + b) == DuplicateIssues(a) + DuplicateIssues(b)
  {
  }

  /** The issues `validate_progress` reports, in the order it checks. */
  function Findings(cal: Calendar, p: Progress): seq<Issue> {
    (if p.xp < 0 then [NegativeXp(p.xp)] else [])
    + (if p.streakDays < 0 then [NegativeStreak(p.streakDays)] else [])
    + DuplicateIssues(Repeats(p.completedModules))
    + (if IsDate(cal, p.lastActiveDate) then [] else [BadDateFormat(p.lastActiveDate)])
    + (if IsTimestamp(cal, p.updatedAt) then [] else [BadDatetimeFormat(p.updatedAt)])
  }

  /** Each duplicate beyond the first is reported separately: the reports
      number the entries minus the distinct entries. */
  lemma {:induction false} RepeatsCount(mods: seq<string>)
    ensures |Repeats(mods)| == |mods| - |Elems(mods)|
    decreases |mods|
  {
    if |mods| > 0 {
      var init := mods[..|mods| - 1];
      var last := mods[|mods| - 1];
      RepeatsCount(init);
      assert mods == init + [last];
      assert Elems(mods) == Elems(init) + {last};
      if last !in init {
        assert Repeats(mods) == Repeats(init);
        assert last !in Elems(init);
        assert |Elems(mods)| == |Elems(init)| + 1;
      } else {
        assert Repeats(mods) == Repeats(init) + [last];
        assert Elems(mods) == Elems(init);
      }
    }
  }

  /** No repetitions are reported exactly when the modules are distinct. */
  lemma {:induction false} RepeatsEmptyIff(mods: seq<string>)
    ensures Repeats(mods) == [] <==> NoDuplicates(mods)
    decreases |mods|
  {
    if |mods| > 0 {
      var init := mods[..|mods| - 1];
      var last := mods[|mods| - 1];
      RepeatsEmptyIff(init);
      if last in init {
        var i :| 0 <= i < |init| && init[i] == last;
        assert mods[i] == mods[|mods| - 1];
      }
      if NoDuplicates(mods) {
        assert NoDuplicates(init) by {
          forall i, j | 0 <= i < j < |init| ensures init[i] != init[j] {
            assert init[i] == mods[i] && init[j] == mods[j];
          }
        }
      }
    }
  }

  /** Every reported repetition is one of the modules. */
  lemma {:induction false} RepeatsAreModules(mods: seq<string>)
    ensures forall k :: 0 <= k < |Repeats(mods)| ==> Repeats(mods)[k] in mods
    decreases |mods|
  {
    if |mods| > 0 {
      var init := mods[..|mods| - 1];
      RepeatsAreModules(init);
      forall k | 0 <= k < |Repeats(mods)| ensures Repeats(mods)[k] in mods {
        if k < |Repeats(init)| {
          assert Repeats(mods)[k] == Repeats(init)[k];
          assert Repeats(init)[k] in init;
        }
      }
    }
  }

  /** The audit reports nothing exactly when the record keeps every
      invariant. */
  lemma FindingsEmptyIff(cal: Calendar, p: Progress)
    ensures Findings(cal, p) == [] <==> Healthy(cal, p)
  {
    RepeatsEmptyIff(p.completedModules);
  }

  /** How many issues of each kind the audit reports. */
  lemma FindingsCount(cal: Calendar, p: Progress)
    ensures |Findings(cal, p)| ==
      (if p.xp < 0 then 1 else 0)
      + (if p.streakDays < 0 then 1 else 0)
      + (|p.completedModules| - |Elems(p.completedModules)|)
      + (if IsDate(cal, p.lastActiveDate) then 0 else 1)
      + (if IsTimestamp(cal, p.updatedAt) then 0 else 1)
  {
    RepeatsCount(p.completedModules);
  }

  /** `validate_progress`: reports `(is_valid, issues)`, checking XP, streak,
      repeated modules, the date and the timestamp in turn. */
  method ValidateProgress(cal: Calendar, p: Progress) returns (valid: bool, issues: seq<Issue>)
    ensures issues == Findings(cal, p)
    ensures valid <==> Healthy(cal, p)
    ensures valid <==> issues == []
  {
    issues := [];
    if p.xp < 0 {
      issues := issues + [NegativeXp(p.xp)];
    }
    if p.streakDays < 0 {
      issues := issues + [NegativeStreak(p.streakDays)];
    }
    ghost var counters := issues;
    var dups := CollectDuplicates(p.completedModules);
    issues := issues + dups;
    if !IsDate(cal, p.lastActiveDate) {
      issues := issues + [BadDateFormat(p.lastActiveDate)];
    }
    ghost var upToDate := issues;
    if !IsTimestamp(cal, p.updatedAt) {
      issues := issues + [BadDatetimeFormat(p.updatedAt)];
    }
    FindingsSplit(cal, p, counters, upToDate, issues);
    valid := |issues| == 0;
  }

  /** The audit's steps, assembled, give `Findings`, and an empty result means
      a healthy record. */
  lemma FindingsSplit(cal: Calendar, p: Progress, counters: seq<Issue>, upToDate: seq<Issue>, issues: seq<Issue>)
    requires counters == (if p.xp < 0 then [NegativeXp(p.xp)] else []) + (if p.streakDays < 0 then [NegativeStreak(p.streakDays)] else [])
    requires upToDate == counters + DuplicateIssues(Repeats(p.completedModules))
      + (if IsDate(cal, p.lastActiveDate) then [] else [BadDateFormat(p.lastActiveDate)])
    requires issues == upToDate + (if IsTimestamp(cal, p.updatedAt) then [] else [BadDatetimeFormat(p.updatedAt)])
    ensures issues == Findings(cal, p)
    ensures issues == [] <==> Healthy(cal, p)
  {
    FindingsEmptyIff(cal, p);
  }

  /** The duplicate scan of `validate_progress`: walks the modules keeping
      the set of names seen so far and reports each name already in it. */
  method CollectDuplicates(mods: seq<string>) returns (dups: seq<Issue>)
    ensures dups == DuplicateIssues(Repeats(mods))
  {
    dups := [];
    var seen: set<string> := {};
    var i := 0;
    while i < |mods|
      invariant 0 <= i <= |mods|
      invariant seen == Elems(mods[..i])
      invariant dups == DuplicateIssues(Repeats(mods[..i]))
    {
      var prefix := mods[..i + 1];
      assert prefix[..i] == mods[..i] && prefix[i] == mods[i];
      assert prefix == mods[..i] + [mods[i]];
      var extra := if mods[i] in mods[..i] then [mods[i]] else [];
      assert Repeats(prefix) == Repeats(mods[..i]) + extra;
      DuplicateIssuesAppend(Repeats(mods[..i]), extra);
      if mods[i] in seen {
        dups := dups + [DuplicateModule(mods[i])];
      }
      seen := seen + {mods[i]};
      i := i + 1;
    }
    assert mods[..i] == mods;
  }

  /** A record with negative XP, a repeated module and an unparseable date,
      but a timestamp that is valid once its trailing `Z` reads as `+00:00`,
      draws exactly three issues. */
  lemma ThreeIssueExample(cal: Calendar, stamp: string)
    requires cal.fromisoformat("not-a-date").None?
    requires 'Z' !in stamp && cal.isDatetime(stamp + "+00:00")
    ensures Findings(cal, Progress(-5, ["A", "A"], "not-a-date", 2, stamp + "Z"))
      == [NegativeXp(-5), DuplicateModule("A"), BadDateFormat("not-a-date")]
  {
    var mods := ["A", "A"];
    assert mods[..1] == ["A"];
    assert Repeats(["A"]) == [];
    assert Repeats(mods) == ["A"];
    assert DuplicateIssues(["A"]) == [DuplicateModule("A")];
    PyText.ReplaceZAppend(stamp, "Z");
    PyText.ReplaceZIdentity(stamp);
    assert PyText.ReplaceZ("Z") == "+00:00";
  }

}
