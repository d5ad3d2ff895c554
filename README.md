# Quark core logic in Dafny

This project models three small pieces of logic from the Quark web
application (a Django site for an engineering honour society) and proves
their properties:

- **Academic terms** (`quark/base/models.py`).
  - A `Term` is a season code (`un`, `wi`, `sp`, `su`, `fa`) and a year.
  - The primary key is `year * 10 + rank`.
  - The file also defines the six comparison operators, the URL and display names, and the `TermManager` queries (`get_current_term`, `get_terms`, `get_by_url_name`, `get_by_natural_key`).
  - `Term.save` derives the key, refuses a key that disagrees with the year and season, and keeps at most one term current.
  - Two small helpers from the same file are included: `RandomToken.is_expired` and `Officer.position_name`.
- **Achievement assignment** (`quark/achievements/models.py`).
  - `Achievement.assign` creates or updates the one `UserAchievement` record of an (achievement, user) pair.
  - It overwrites the record while it is not acquired.
  - Once the record is acquired, the only change it allows is a reset to unacquired within the same term.
- **Exam visibility**, reconstructed from the assertions of `quark/exams/tests.py`. The implementation module of the exams app is not part of this model.
  - An exam is listed for its course iff it is verified, has at most `LIMIT` unresolved flags, and is not blacklisted.
  - An exam is blacklisted iff one of its instructor permissions has `permission_allowed` False.
  - One permission may be shared by several exams.

## Files

| file | contents |
|---|---|
| `wrappers.dfy` | `Option` |
| `decimal.dfy` | `str(n)` for a natural number and base-10 `int(s)`, with the round trip between them |
| `terms.dfy` | `Season`, the key, the comparison operators, `get_url_name`, `verbose_name`, `__unicode__` |
| `term_table.dfy` | the `TermManager` queries over the stored table; `Term.save` as the class `TermTable` |
| `tokens.dfy` | `RandomToken.is_expired` |
| `officers.dfy` | `Officer.position_name` |
| `achievements.dfy` | the `UserAchievement` store (class `AchievementStore`) and `assign` |
| `exams.dfy` | flag count, blacklist, listing rule, the archive (class `ExamArchive`), and the two listing tests replayed step by step |

## Modelling decisions

- Term storage:
  - The stored term table is a `map<int, Term>` from primary key to row.
  - `TableInvariant` states that every row is stored under its own derived key and that at most one row is current.
  - `TermTable.Save` changes the map in place and keeps the invariant.
- Clock and settings: the wall-clock year (`timezone.now().year`) is the parameter `nowYear`. The clock reading of `is_expired` is the parameter `now`. The `TERM_TYPE` setting is the parameter `termType`.
- A comparison with a non-`Term` operand is modelled as the operand `NotATerm`. Every operator replaces it by the unsaved term (`un`, `nowYear`).
- The None quirk in `assign`:
  - `user_achievement.term == term` is evaluated as Python 2 does.
  - When exactly one side is None, `Term.__eq__` of the other side still runs, and compares against (`un`, current year).
  - So a record with no term counts as being "in the same term" as `un` of the current year, and as no other term (`Achievements.MissingTermMatchesUnknownOfThisYear`).
  - `SameTerm` models this as the code is written.
- Exams, flags and permissions are numbered by their position in the archive. `ExamFlag.LIMIT`, whose value is not shown, is the parameter `limit`.
- `get_by_url_name` is modelled as follows:
  - The year part is read as `int()` reads it: an optional sign, then ASCII digits.
  - A text shorter than two characters is sliced as Python slices it.
  - A non-string argument is `NotText`.
- Python's `//` and `%` by 10 agree with Dafny's `/` and `%` for every integer id, because the divisor is positive.

## Model

| member | source | states |
|---|---|---|
| `Terms.Code` | quark/base/models.py:133-137 | every season code is two characters long, the part `get_by_url_name` slices off |
| `Terms.SeasonOfCode` | quark/base/models.py:139-145 | a code names a season iff it is that season's code, and then names exactly that one |
| `Terms.Key` | quark/base/models.py:184 | the key splits back into the year (`key // 10`) and the TERM_MAPPING rank (`key % 10`) |
| `Terms.KeyInjective` | quark/base/models.py:147-153 | distinct (season, year) pairs have distinct keys, since every rank is a single digit |
| `Terms.Coerce` | quark/base/models.py:214-216 | a non-term operand becomes season `un` of the current year |
| `Terms.LtIsKeyOrder` | quark/base/models.py:213-222 | `<` (by year, then rank) holds iff the first key is smaller |
| `Terms.EqIsKeyEquality` | quark/base/models.py:230-234 | `==` (same code, same year) holds iff the keys are equal |
| `Terms.OperatorsFollowKeyOrder` | quark/base/models.py:213-252 | each of `<`, `<=`, `==`, `!=`, `>`, `>=` holds iff the same relation holds between the key and the coerced operand's key |
| `Terms.NonTermIsUnknownOfThisYear` | quark/base/models.py:213-252 | against a non-term, a term is smaller iff its year is earlier, equal iff it is `un` of this year, and greater otherwise |
| `Terms.Display` | quark/base/models.py:139-145 | the TERM_CHOICES label behind `get_term_display` for each season |
| `Terms.Rank` | quark/base/models.py:147-153 | TERM_MAPPING: the single-digit rank of each season, which `Key` and `KeyInjective` rely on |
| `Terms.Lt` | quark/base/models.py:213-222 | `__lt__`: earlier year, or same year and lower rank; `LtIsKeyOrder` proves it is key order |
| `Terms.Le` | quark/base/models.py:224-228 | `__le__`: the operand is not smaller; `OperatorsFollowKeyOrder` proves it is `<=` on keys |
| `Terms.Eq` | quark/base/models.py:230-234 | `__eq__`: same code and same year; `EqIsKeyEquality` proves it is key equality |
| `Terms.Ne` | quark/base/models.py:236-240 | `__ne__`: not `__eq__`; `OperatorsFollowKeyOrder` proves it is key inequality |
| `Terms.Gt` | quark/base/models.py:242-246 | `__gt__`: the operand is smaller; `OperatorsFollowKeyOrder` proves it is `>` on keys |
| `Terms.Ge` | quark/base/models.py:248-252 | `__ge__`: not smaller than the operand; `OperatorsFollowKeyOrder` proves it is `>=` on keys |
| `Terms.VerboseName` | quark/base/models.py:191-194 | the season's display name, a space and the year; `VerboseNameInjective` proves distinct terms get distinct names |
| `Terms.UrlName` | quark/base/models.py:196-198 | the first two characters give the season back and the rest parses back to the year |
| `Decimal.NatToString` | quark/base/models.py:191-198 | `str(year)` and `'%d' % year`: a non-empty run of ASCII digits; `ParseNatToString` and `NatToStringInjective` state its round trip |
| `Decimal.ParseInt` | quark/base/models.py:113-118 | the `int()` applied to `name[2:]`: an optional sign and ASCII digits give Some of their value, anything else is None (the ValueError branch) |
| `Decimal.ParseNatToString` | quark/base/models.py:196-198 | `int()` reads the text `str()` writes for a year back as that year |
| `Decimal.NatToStringInjective` | quark/base/models.py:196-198 | two years with the same decimal text are equal |
| `Terms.UrlNameInjective` | quark/base/models.py:196-198 | two terms with the same URL name have the same season and year |
| `Terms.VerboseNameInjective` | quark/base/models.py:191-194 | two terms with the same verbose name have the same season and year |
| `Terms.Describe` | quark/base/models.py:203-207 | the text starts with the verbose name and ends in `)` iff the term is current |
| `TermTables.GetCurrentTerm` | quark/base/models.py:78-82 | Some iff a stored row is current, and then it is a stored current row |
| `TermTables.GetByNaturalKey` | quark/base/models.py:120-124 | Some iff a stored row has this code and year, and then it is such a row |
| `TermTables.CodePart` | quark/base/models.py:114 | `name[0:2]`, the whole text when it is shorter |
| `TermTables.YearPart` | quark/base/models.py:114 | `name[2:]`, empty when the text is shorter than two characters |
| `TermTables.GetByUrlName` | quark/base/models.py:105-118 | Some iff the argument is a string whose tail is an integer and a stored row has its first two characters as code and that integer as year, and then it is such a row; None otherwise |
| `TermTables.UrlNameRoundTrip` | quark/base/models.py:105-118 | every stored term is found again under its own URL name |
| `TermTables.AllRows` | quark/base/models.py:254-256 | `all()` yields exactly the stored rows, in ascending id order |
| `TermTables.Selected` | quark/base/models.py:88-98 | a term survives the filters iff summer is included or it is not summer, the system is not semester-based or it is not winter, and future terms are included, no term is current or its id is at most the current one |
| `TermTables.Select` | quark/base/models.py:88-98 | the filters keep exactly the rows that pass all three conditions, and an ascending input gives an ascending result |
| `TermTables.GetTerms` | quark/base/models.py:84-103 | exactly the stored terms that pass the summer, semester-winter and not-after-current filters, ascending by id, or descending with `reverse` |
| `TermTables.ClearOtherCurrent` | quark/base/models.py:186-188 | the `update(current=False)` of every current row other than the saved id; `SaveTouchesOnlyCurrentBits` states what it changes |
| `TermTables.AfterSave` | quark/base/models.py:184-189 | the table after a successful save; `SaveKeepsInvariant` and `SavedCurrentIsTheCurrentTerm` state its properties |
| `TermTables.SaveOutcome` | quark/base/models.py:171-184 | `un` with year 0 is skipped; an existing id other than the derived key is a ValueError; otherwise the term gets the derived key as id |
| `TermTables.SaveTouchesOnlyCurrentBits` | quark/base/models.py:184-189 | a save stores the term under its key; other rows change only by losing `current`, and only when the saved term is current |
| `TermTables.SaveKeepsInvariant` | quark/base/models.py:163-189 | a save keeps every row under its own key and at most one row current |
| `TermTables.SavedCurrentIsTheCurrentTerm` | quark/base/models.py:186-189 | after saving a current term into any well-keyed table, however many rows were current before, it is the only current row and `get_current_term` returns exactly it |
| `TermTables.SaveAllKeepsInvariant` | quark/base/models.py:163-170 | after any sequence of saves, at most one term is current |
| `TermTables.TermTable.Save` | quark/base/models.py:163-189 | the outcome is `SaveOutcome`; the table becomes `AfterSave` on success and is unchanged on a skip or ValueError; the invariant is kept |
| `Tokens.IsExpired` | quark/base/models.py:39-41 | `is_expired`: the expiration date is strictly before the clock reading; `ExpiryIsStrictAndPermanent` states its boundary and monotonicity |
| `Tokens.ExpiryIsStrictAndPermanent` | quark/base/models.py:39-41 | a token is not expired at its own expiration instant, is unexpired iff now is at or before it, and stays expired as time moves on |
| `Officers.PositionName` | quark/base/models.py:303-308 | the long name, followed by " Chair" for a chair and by nothing otherwise |
| `Officers.ChairTitleDiffers` | quark/base/models.py:303-308 | the chair title is the plain title plus " Chair", so the two always differ |
| `Achievements.SameTerm` | quark/achievements/models.py:131 | `user_achievement.term == term` under Python 2, with `Term.__eq__` called when one side is None; `MissingTermMatchesUnknownOfThisYear` characterises the None cases |
| `Achievements.EffectiveTerm` | quark/achievements/models.py:112-113 | an omitted term becomes the current term, which may itself be None |
| `Achievements.Fetched` | quark/achievements/models.py:118-119 | `get_or_create`: the stored record of (achievement, user), or a new one with the field defaults (not acquired, progress 0, no term) |
| `Achievements.Assigned` | quark/achievements/models.py:121-138 | the record `assign` saves, given the fetched one; the lemmas below state each of its three branches |
| `Achievements.UnacquiredRecordTakesArguments` | quark/achievements/models.py:118-130 | an unacquired record, including a freshly created one (acquired False, progress 0), takes exactly the given acquired, progress, term, data and assigner |
| `Achievements.AcquiredRecordChangesOnlyBySameTermReset` | quark/achievements/models.py:121-138 | for an acquired record, `acquired=True` changes nothing; `acquired=False` in the same term clears acquired and assigner and takes progress and data, keeping the term; in another term it changes nothing |
| `Achievements.AcquiringIsIdempotent` | quark/achievements/models.py:121-131 | acquiring twice with the same arguments ends where acquiring once does |
| `Achievements.MissingTermMatchesUnknownOfThisYear` | quark/achievements/models.py:131 | a missing term on one side matches exactly the `un` term of the current year on the other |
| `Achievements.AcquisitionIsSticky` | quark/achievements/models.py:121-138 | an acquired record survives any sequence of calls unless one of them resets it in its own term |
| `Achievements.AchievementStore.Assign` | quark/achievements/models.py:109-140 | returns True; the (achievement, user) record becomes `Assigned` of the fetched-or-default record, with an omitted term replaced by the current term; every other record is unchanged |
| `Exams.FlagCount` | quark/exams/tests.py:291-327 | `flags`: the exam's unresolved flags; `FlagCountIsMultiplicity` ties it to the flag table |
| `Exams.FlagCountIsMultiplicity` | quark/exams/tests.py:291-327 | an exam's flag count is the number of its unresolved flags in the flag table |
| `Exams.FlagAdded` | quark/exams/tests.py:299-315 | a new flag raises its own exam's count by one if unresolved and leaves every other count alone |
| `Exams.FlagResolvedChanged` | quark/exams/tests.py:321-345 | resolving a flag lowers its exam's count by one, un-resolving raises it by one, and other exams are unaffected |
| `Exams.Blacklisted` | quark/exams/tests.py:146-170 | `blacklisted`: some permission the exam holds has `permission_allowed` False (None and True do not count); `PermissionChanged` and `NewPermissionIsNeutral` state how it moves |
| `Exams.PermissionChanged` | quark/exams/tests.py:146-289 | after setting a permission, an exam is blacklisted iff it holds that permission and it is now False, or another of its permissions is False |
| `Exams.NewPermissionIsNeutral` | quark/exams/tests.py:87-89 | a new permission (`permission_allowed` None) blacklists no exam |
| `Exams.Visible` | quark/exams/tests.py:291-382 | an exam appears on its course page iff verified, `flags <= LIMIT` and not blacklisted; `LimitIsInclusive` and `UnverifiedIsNeverListed` state its edges |
| `Exams.ListedExams` | quark/exams/tests.py:146-382 | `resp.context['exams']`: the course's visible exams; `OnlyTheChangedExamMoves` bounds how it changes |
| `Exams.UnverifiedIsNeverListed` | quark/exams/tests.py:332-382 | an unverified exam is never listed, whatever its flags or permissions |
| `Exams.LimitIsInclusive` | quark/exams/tests.py:299-327 | exactly `limit` unresolved flags still lists the exam, one more hides it, and resolving any one of them lists it again |
| `Exams.OnlyTheChangedExamMoves` | quark/exams/tests.py:291-382 | a change confined to one exam does not change whether any other exam is listed, so the listing size moves by at most one |
| `Exams.ExamArchive.AddPermission` | quark/exams/tests.py:87-89 | a new permission starts undecided (None); nothing else changes |
| `Exams.ExamArchive.AddExam` | quark/exams/tests.py:14-26 | appends the exam with its course, verified bit and permissions; nothing else changes |
| `Exams.ExamArchive.AddFlag` | quark/exams/tests.py:67-71 | a new flag starts unresolved; nothing else changes |
| `Exams.ExamArchive.SetResolved` | quark/exams/tests.py:321-322 | only that flag's `resolved` bit changes |
| `Exams.ExamArchive.SetPermissionAllowed` | quark/exams/tests.py:158-160 | only that permission's value changes |
| `Exams.ExamArchive.SetVerified` | quark/exams/tests.py:336-337 | only that exam's `verified` bit changes |
| `Exams.RaiseFlags` | quark/exams/tests.py:300-304 | `n` new unresolved flags against the exam raise its count by exactly `n` |
| `Exams.OwnPermissionListing` | quark/exams/tests.py:291-382 | when only exam 0 is flagged and only permission 0 is set, exams 1 and 2 stay listed, and exam 0 is listed iff it is verified, within the limit and permission 0 is not False |
| `Exams.ListOwnCourse` | quark/exams/tests.py:297-298 | one request of the course page in the flags test lists the exams `OwnPermissionListing` names |
| `Exams.ChangeOwnExam` | quark/exams/tests.py:320-382 | after setting the first flag's `resolved` bit, permission 0 and exam 0's `verified` bit, exam 0 is listed iff it is verified, the first flag is resolved and permission 0 is not False; exams 1 and 2 always are |
| `Exams.FlagsVerifiedAndBlacklistScenario` | quark/exams/tests.py:291-382 | for a positive `limit`, the nine listings of the test are {0,1,2} twice, then {1,2} seven times, whose sizes are the counts it asserts; for `limit` 0 the test stops with IndexError after three listings, and so does the model |
| `Exams.SharedPermissionListing` | quark/exams/tests.py:146-150 | on the test course, where permission 1 is shared by exams 0 and 1 and permission 2 by exams 1 and 2, an exam is listed iff none of its permissions is False |
| `Exams.ChangeSharedPermission` | quark/exams/tests.py:158-168 | setting one permission changes only that permission, and the page then lists exactly the exams none of whose permissions is False |
| `Exams.MultipleBlacklistsScenario` | quark/exams/tests.py:146-289 | the thirteen listings of the test, whose sizes are 3, 2, 1, 2, 0, 0, 1, 2, 3, 1, 0, 1, 3 |

## Left out

- The season code is a `Season` datatype. A stored term with a code outside TERM_CHOICES, which makes `__term_as_int` raise KeyError, cannot be represented. `GetByNaturalKey` and `GetByUrlName` still take arbitrary code text and return None for an unknown code.
- `int()` also accepts surrounding whitespace and non-ASCII digits. `ParseInt` accepts only an optional sign and ASCII digits.
- Database collation is not modelled: code text is compared exactly, and case-insensitive matching by a database backend is not captured.
- `MultipleObjectsReturned` from `get()` cannot arise, because the table is a map keyed by the derived primary key.
- Achievements.AchievementStore.Assign: the store holds at most one record per (achievement, user). `UserAchievement` does not enforce uniqueness, and with two such rows `get_or_create` raises MultipleObjectsReturned; duplicate rows and that error are not modelled.
- `acquired is False` is an identity test. The model takes `acquired` as a `bool`, so non-bool arguments such as `0` are not modelled.
- `Term.save` is modelled as one sequential step. The source itself asks whether it is thread-safe, and atomicity under concurrent writers is not claimed.
- `Term.year` is a `PositiveSmallIntegerField`. Its upper bound is not modelled, and years are unbounded natural numbers.
- The id check in `save` is modelled for integer ids only.
- `RandomTokenManager.generate` is left out: it draws a random uuid.
- `Officer.__unicode__` is left out: it calls a `get_display_term` method that `Term` does not define.
- `RandomToken.__unicode__`, `natural_key` and the other model `__unicode__` methods are left out: they only format fields.
- The notification signal handlers of the achievements app are left out: they depend on ORM signal dispatch.
- The exam model itself is left out: its file storage, `unique_id` and path handling, and the page's ordering of the listed exams. The listing is a set of exam numbers.
- The emailer views, the candidate forms, the user import script, the project report URL table and the courses tests are not part of this model.
- TermTables.GetByNaturalKey requires every row to be stored under its own key (`WellKeyed`), as every table built by `TermTables.TermTable.Save` is; a database edited by other means is not modelled.
- TermTables.GetByUrlName requires every row to be stored under its own key (`WellKeyed`), as every table built by `TermTables.TermTable.Save` is; a database edited by other means is not modelled.
- TermTables.AllRows requires every row to be stored under its own key (`WellKeyed`), as every table built by `TermTables.TermTable.Save` is; a database edited by other means is not modelled.
- TermTables.GetTerms requires every row to be stored under its own key (`WellKeyed`, and at most one current row), as every table built by `TermTables.TermTable.Save` is; a database edited by other means is not modelled.
- TermTables.GetCurrentTerm requires at most one current row. The source's `get(current=True)` would raise `MultipleObjectsReturned` on two; `TermTable.Save` keeps the invariant that rules this out.
