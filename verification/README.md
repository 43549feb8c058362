# QuantAcademy progress store and rules engine, in Dafny

A model of the local progress store of QuantAcademy (`platform/progress/storage.py`).
The store keeps one learner's progress record: XP, completed modules, last active date,
daily streak and last save time. The model covers:

- the record itself, `Progress.new()` and `to_dict()`;
- the forward-compatible load, which overlays whatever keys the decoded JSON file holds on a
  fresh default record, converting each value with Python's `int`, `list` or `str`;
- the dict `save_progress` writes, stamped with the save time;
- the streak state machine `touch_activity`;
- `complete_module`, which strips the name, skips blank names, refuses duplicates and awards XP;
- the auditor `validate_progress`.

Everything is pure. Python's in-place mutation of the record becomes a function that returns
the new record. An exception escaping an operation becomes the `Err` case of a `Result`.

The wall clock is a parameter. `today` is a day number and `now` is the timestamp text.
Python's ISO-8601 date and datetime text handling is also a parameter: a `Calendar` value
holding `isoformat`, `fromisoformat` and a datetime-validity test. The only law the proofs
use is `Calendar.LawfulOn(cal, d)`: parsing the text printed for day `d` gives `d` back. It is
required one day at a time, for the days an operation prints: `today`, or the days of a run
of touches. Python's `date` only covers 0001-01-01 to 9999-12-31, so no calendar could
satisfy the law for every integer. `Calendar.BoundedCalendarLawfulOn` shows a calendar
bounded like `date` for which the law holds exactly on days 1 to 3652059.

Files, one module each:

| file | module | contents |
|---|---|---|
| results.dfy | Results | `Option`, `Result` |
| pytext.dfy | PyText | `str.isspace`, the whitespace `int()` skips, `str.strip()`, `replace("Z", "+00:00")` |
| decimal.dfy | Decimal | `str(int)` and base-10 `int(str)` |
| json.dfy | Json | decoded JSON values, `dict.get`, the builtins `int`, `list`, `str`, `repr` |
| calendar.dfy | Calendar | day numbers and the host's ISO text for them |
| record.dfy | Record | the record, `DEFAULT_XP_PER_MODULE`, `Progress.new`, `to_dict`, the record invariants |
| store.dfy | Store | `load_progress` overlay, the saved dict, round trips |
| rules.dfy | Rules | `touch_activity`, `complete_module` |
| audit.dfy | Audit | `validate_progress` |

Behaviour of the code that the model keeps as written:

- `validate_progress` reports one issue per failed check and one per repeated module
  (storage.py:160-184). A record with XP -5, modules `["A", "A"]`, last active date
  `"not-a-date"` and a valid `Z`-suffixed timestamp therefore draws exactly three issues:
  negative XP, one duplicate module and the bad date. `Audit.ThreeIssueExample` proves this.
- `load_progress` only checks that the file exists (storage.py:62-63). If `json.load` fails
  on its content (storage.py:65-66), the error propagates to the caller, and no fresh
  record is returned. The model returns `Err(DecodeError)` for an undecodable file.
- The `Progress` dataclass checks nothing on construction or assignment. The ranges
  `validate_progress` checks are non-negative XP and streak, distinct modules, a parseable
  date and a parseable timestamp. The model states them as `Record.Healthy` and proves
  which operations preserve them.

A fresh record has `streak_days = 0` and `last_active_date = today`. So a touch on the day of
creation leaves the streak at 0, and the next day brings it to 1. After a gap, by contrast, the
day of the touch counts as day 1. The model keeps this behaviour as written.

## Model

| member | source | states |
|---|---|---|
| Record.New | platform/progress/storage.py:45-54 | when today's printed date parses back, the fresh record's date is today, and with a valid `now` the fresh record satisfies every record invariant |
| Calendar.BoundedCalendarLawfulOn | platform/progress/storage.py:122-123 | the per-day law holds on a calendar bounded like Python's `date`, exactly for the days 1 to 3652059 |
| Record.ToDict | platform/progress/storage.py:56-57 | `to_dict` holds each of the five fields under its own key |
| Store.Overlay | platform/progress/storage.py:68-75 | the load succeeds iff every present key converts; each present key replaces its field with the converted value, and each absent key leaves the `Progress.new()` default; an error names a key that is present |
| Store.Load | platform/progress/storage.py:60-75 | a missing file gives the fresh record, an undecodable file or a non-dict value is an error, a dict goes through the overlay |
| Store.LoadToDict | platform/progress/storage.py:56-75 | overlaying `to_dict(p)` on any fresh record reproduces `p` field for field |
| Store.SaveImage | platform/progress/storage.py:86-105 | the saved dict carries the save time as `updated_at` |
| Store.SaveThenLoad | platform/progress/storage.py:78-117 | loading what a save wrote gives the saved record, with only `updated_at` changed to the save time |
| Store.MissingKeysDefault | platform/progress/storage.py:69-74 | each absent key yields that field's default (a file without `streak_days` loads with streak 0) |
| Store.EmptyDictIsNew | platform/progress/storage.py:69-75 | an empty dict loads exactly `Progress.new()` |
| Store.TextualNumbersLoad | platform/progress/storage.py:70 | an XP stored as decimal text loads as that integer |
| Json.Lookup | platform/progress/storage.py:70-74 | `raw.get(key)` finds a value iff the key is present, and the value found is stored under that key |
| Json.PyInt | platform/progress/storage.py:70 | `int()` keeps ints and maps booleans to 1/0. On a string it gives exactly the value `int()`'s base-10 grammar reads, or `ValueError` when the text does not match. It raises `TypeError` on null, lists and dicts |
| Json.TextualInt | platform/progress/storage.py:70 | `int()` of the text `str()` prints for an integer is that integer |
| Json.PyList | platform/progress/storage.py:71 | `list()` always succeeds on a string or a dict: it splits a string into characters and lists a dict's keys. It copies an array of strings, and refuses an array holding anything else. It raises `TypeError` on scalars |
| Json.Repr | platform/progress/storage.py:72 | `str()` of a non-string prints an int as `str(n)`, a list in brackets, a dict in braces and a string in matching quotes |
| Json.PlainStrRepr | platform/progress/storage.py:72 | the `repr` of a text of printable ASCII without quotes or backslashes is that text in single quotes |
| Decimal.ShowInt | platform/progress/storage.py:72 | `str(n)` has a minus sign exactly when n is negative, then only digits, with no leading zero unless n is 0 |
| Decimal.ParseInt | platform/progress/storage.py:70 | `int(s)` on text that is nothing but whitespace raises, and a text that parses contains a digit |
| Decimal.PlusSign | platform/progress/storage.py:70 | a run of digits parses to the value it spells, and a leading `+` gives the same value |
| Decimal.LeadingZero | platform/progress/storage.py:70 | a leading zero leaves the value alone: `int("007") == int("7")` |
| Decimal.Underscore | platform/progress/storage.py:70 | one underscore between two digit runs leaves the value alone: `int("1_000") == int("1000")` |
| Decimal.DoubleUnderscore | platform/progress/storage.py:70 | two underscores in a row make `int()` raise: `int("1__0")` fails |
| Decimal.ParsePadded | platform/progress/storage.py:70 | `int()` gives the same result with or without the whitespace it skips around the text |
| Decimal.SeparatorIsNotSkipped | platform/progress/storage.py:70 | `int()` does not skip the ASCII separator FS, which `str.strip()` removes: `int("\x1c5")` raises |
| Json.PyStr | platform/progress/storage.py:72 | `str()` leaves a string alone, and the text it gives an int parses back to that int |
| Decimal.ParseShow | platform/progress/storage.py:70 | `int(str(n)) == n` for every integer |
| PyText.SpaceClasses | platform/progress/storage.py:140 | on ASCII, `str.isspace()` holds exactly for TAB..CR, FS..US and SPACE, and `int()` skips the same set without FS..US; beyond ASCII the two agree |
| PyText.Strip | platform/progress/storage.py:140 | `strip()` is empty iff the name is all whitespace. Otherwise it neither starts nor ends with whitespace. It is a slice of the name with only whitespace before and after it |
| PyText.Trim | platform/progress/storage.py:70 | trimming with either whitespace class leaves a slice of the input with only that whitespace around it, and leaves nothing iff the input is all that whitespace |
| PyText.StripLeft | platform/progress/storage.py:140 | the result is the suffix of the input after its leading whitespace, and starts with a non-space |
| PyText.StripRight | platform/progress/storage.py:140 | the result is the prefix of the input before its trailing whitespace, and ends with a non-space |
| PyText.StripLeftPadded | platform/progress/storage.py:140 | leading whitespace before a non-space is removed exactly |
| PyText.StripRightPadded | platform/progress/storage.py:140 | trailing whitespace after a non-space is removed exactly |
| PyText.StripIdempotent | platform/progress/storage.py:140 | stripping twice equals stripping once |
| PyText.ReplaceZ | platform/progress/storage.py:182 | after the replace no `Z` remains |
| PyText.ReplaceZIdentity | platform/progress/storage.py:182 | a text without `Z` is unchanged by the replace |
| PyText.ReplaceZAppend | platform/progress/storage.py:182 | the replace distributes over concatenation |
| Rules.TouchActivity | platform/progress/storage.py:120-136 | an unparseable last date raises; for day-delta k: k = 0 leaves the record identical, k = 1 adds one to the streak, any other k sets it to 1; every k != 0 stores today as the last date; XP, modules and timestamp never change |
| Rules.TouchIdempotent | platform/progress/storage.py:122-127 | when today's printed date parses back, touching twice on the same day equals touching once |
| Rules.StreakTable | platform/progress/storage.py:129-135 | for a record last active on day d touched on day d + k: streak unchanged at k = 0, +1 at k = 1, 1 otherwise (negative k included) |
| Rules.TouchPreservesHealthy | platform/progress/storage.py:129-135 | when today's printed date parses back, a touch keeps every record invariant, and a changed day leaves a streak of at least 1 |
| Rules.ConsecutiveDays | platform/progress/storage.py:129-135 | when each of the n days following the last active day prints a parseable date, touches on those days raise the streak by exactly n and leave XP and modules alone |
| Rules.CompleteModule | platform/progress/storage.py:139-150 | a blank stripped name returns the record unchanged; otherwise the touch's error or effect applies; a known name keeps XP and modules; a new name is appended at the end and adds exactly the reward, which defaults to `DEFAULT_XP_PER_MODULE`; distinct modules stay distinct |
| Rules.DefaultRewardIsHundred | platform/progress/storage.py:139-148 | completing a new module without naming a reward adds exactly 100 XP |
| Rules.CompleteIdempotent | platform/progress/storage.py:144-149 | when today's printed date parses back, completing the same module again on the same day changes nothing, so XP is never awarded twice |
| Rules.CompletePreservesHealthy | platform/progress/storage.py:146-148 | when today's printed date parses back, completion with a non-negative reward keeps every record invariant |
| Rules.BlankNameIsNoop | platform/progress/storage.py:140-142 | a name of three spaces leaves the record unchanged, last active date included |
| Audit.ValidateProgress | platform/progress/storage.py:153-186 | the issues are exactly the audit's findings in the source's order, and `is_valid` holds iff the record satisfies every invariant iff no issue was reported |
| Audit.CollectDuplicates | platform/progress/storage.py:168-173 | the seen-set scan reports exactly the entries that occurred earlier in the list |
| Audit.RepeatsCount | platform/progress/storage.py:169-173 | the number of duplicate reports is the list length minus the number of distinct entries |
| Audit.RepeatsEmptyIff | platform/progress/storage.py:169-173 | no duplicate is reported iff the modules are pairwise distinct |
| Audit.RepeatsAreModules | platform/progress/storage.py:170-172 | every reported duplicate is one of the modules |
| Audit.FindingsEmptyIff | platform/progress/storage.py:186 | the audit finds nothing iff the record satisfies every invariant |
| Audit.FindingsCount | platform/progress/storage.py:160-184 | one issue for negative XP, one for a negative streak, one per repetition, one for a bad date, one for a bad timestamp |
| Audit.ThreeIssueExample | platform/progress/storage.py:160-186 | the sample record with negative XP, a repeated module and a bad date, but a valid `Z` timestamp, draws exactly those three issues |

## Left out

- Writing the file in `save_progress` is not modelled: the temporary file, `json.dump`, `fsync`, `os.replace` and cleanup. Its guarantees come from the operating system.
- The `os.path.exists`, `open` and `json.load` steps of `load_progress` are not modelled either. Their outcome is an input: no file, an undecodable file, or a decoded value.
- `default_progress_path` and its directory creation are not modelled: they are filesystem plumbing.
- The clocks `_today_iso` and `_utcnow_iso` are nondeterministic. `today` and `now` are parameters instead.
- The grammar of `date.fromisoformat` and `datetime.fromisoformat` is not modelled, because it varies between Python versions. It is the `Calendar` parameter.
- Issue messages are formatted strings in the source. Each issue is a constructor holding the value the message quotes.
- JSON numbers with a fraction or exponent are not modelled (floating point). So are `int()` of a float and a float `xp` reward passed to `complete_module`.
- Python aliasing is not modelled. `touch_activity` and `complete_module` mutate and return the caller's object; the model returns a new value. `save_progress` also sets `updated_at` on the caller's record before writing (storage.py:86). `Store.SaveImage` returns only the saved dict, so a caller's record in the model keeps its old `updated_at`.
- A JSON text with a repeated key is not modelled. `json.load` keeps the last value, and the model takes the decoded dict, where each key appears once.
- Json.PyList: an array holding a non-string entry is refused with `NonStringEntry`. Python would keep the entry, but the model's record holds only strings.
- Decimal.ParseInt: only ASCII digits are accepted. Python's `int()` also accepts other Unicode decimal digits.
- Decimal.ParseInt: CPython 3.11 and later refuse to convert a decimal text of more than 4300 digits (`sys.set_int_max_str_digits`). The limit is configurable and absent from older versions, so the model accepts text of any length.
- Decimal.ParseShow: holds for every integer. CPython 3.11 and later raise `ValueError` from `str(n)` and `int(s)` beyond the same 4300-digit limit.
- Json.Repr: non-ASCII characters that Python's `repr` escapes (the non-printable ones, such as U+00A0) are printed as they are. This only affects `str()` of a list or dict stored in a date field.
- The presentation layer in `platform/app.py` and the sample-data script `scripts/download_data.py` are not part of this model.
