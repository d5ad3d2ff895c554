/**
 * Exam visibility, reconstructed from the assertions of quark/exams/tests.py
 * (the Exam and ExamFlag models themselves are not part of this model).
 *
 * An exam is listed for its course iff it is verified, at most `limit`
 * (ExamFlag.LIMIT) of its flags are unresolved, and it is not blacklisted;
 * it is blacklisted iff one of its instructor permissions has
 * `permission_allowed` False. A permission may be shared by several exams.
 * Exams, flags and permissions are numbered by their position in the store.
 */
module Exams {
  import opened Wrappers

  type ExamId = nat
  type PermissionId = nat
  type CourseId = int

  datatype Exam = Exam(course: CourseId, verified: bool, permissions: set<PermissionId>)

  /** A flag raised against an exam; only unresolved flags count. */
  datatype ExamFlag = ExamFlag(exam: ExamId, resolved: bool)

  /** The exam's flag count: its unresolved flags. */
  function FlagCount(flags: seq<ExamFlag>, e: ExamId): nat {
    if flags == [] then 0
    else (if flags[0] == ExamFlag(e, false) then 1 else 0) + FlagCount(flags[1..], e)
  }

  /** The flag count is the number of unresolved-flag rows for the exam in the flag table. */
  lemma {:induction false} FlagCountIsMultiplicity(flags: seq<ExamFlag>, e: ExamId)
    ensures FlagCount(flags, e) == multiset(flags)[ExamFlag(e, false)]
  {
    if flags != [] {
      assert flags == [flags[0]] + flags[1..];
      assert multiset(flags) == multiset{flags[0]} + multiset(flags[1..]);
      FlagCountIsMultiplicity(flags[1..], e);
    }
  }

  /** Saving a new flag raises its exam's count by one if it is unresolved, and no other exam's. */
  lemma FlagAdded(flags: seq<ExamFlag>, f: ExamFlag, e: ExamId)
    ensures FlagCount(flags + [f], e) == FlagCount(flags, e) + (if f == ExamFlag(e, false) then 1 else 0)
  {
    FlagCountIsMultiplicity(flags + [f], e);
    FlagCountIsMultiplicity(flags, e);
    assert multiset(flags + [f]) == multiset(flags) + multiset{f};
  }

  /**
   * Setting `resolved` on flag `i` moves only its own exam's count: down by
   * one when it goes from unresolved to resolved, up by one the other way.
   */
  lemma FlagResolvedChanged(flags: seq<ExamFlag>, i: nat, resolved: bool, e: ExamId)
    requires i < |flags|
    ensures var before := if flags[i] == ExamFlag(e, false) then 1 else 0;
      var after := if flags[i].exam == e && !resolved then 1 else 0;
      FlagCount(flags[i := flags[i].(resolved := resolved)], e) + before == FlagCount(flags, e) + after
  {
    var updated := flags[i := flags[i].(resolved := resolved)];
    FlagCountIsMultiplicity(updated, e);
    FlagCountIsMultiplicity(flags, e);
    assert flags == flags[..i] + [flags[i]] + flags[i + 1..];
    assert updated == flags[..i] + [updated[i]] + flags[i + 1..];
    assert multiset(flags) == multiset(flags[..i]) + multiset{flags[i]} + multiset(flags[i + 1..]);
    assert multiset(updated) == multiset(flags[..i]) + multiset{updated[i]} + multiset(flags[i + 1..]);
  }

  /** A permission blacklists when `permission_allowed` is False (not None, not True). */
  predicate Denied(permissions: seq<Option<bool>>, p: PermissionId) {
    p < |permissions| && permissions[p] == Some(false)
  }

  /** `blacklisted`: some permission of the exam denies it. */
  predicate Blacklisted(permissions: seq<Option<bool>>, exam: Exam) {
    exists p :: p in exam.permissions && Denied(permissions, p)
  }

  /**
   * Setting permission `p` to `allowed` blacklists an exam iff `p` is one of
   * its permissions and is now False, or another of its permissions was
   * already False: a shared permission set to False blacklists every exam
   * holding it, and set back to True frees only exams with no other denial.
   */
  lemma PermissionChanged(permissions: seq<Option<bool>>, p: PermissionId, allowed: Option<bool>, exam: Exam)
    requires p < |permissions|
    ensures Blacklisted(permissions[p := allowed], exam) <==>
      (p in exam.permissions && allowed == Some(false))
      || (exists q :: q in exam.permissions && q != p && Denied(permissions, q))
  {
    var updated := permissions[p := allowed];
    if Blacklisted(updated, exam) {
      var q :| q in exam.permissions && Denied(updated, q);
      if q != p {
        assert Denied(permissions, q);
      }
    }
    if exists q :: q in exam.permissions && q != p && Denied(permissions, q) {
      var q :| q in exam.permissions && q != p && Denied(permissions, q);
      assert Denied(updated, q);
    }
    if p in exam.permissions && allowed == Some(false) {
      assert Denied(updated, p);
    }
  }

  /** A newly created permission (`permission_allowed` None) blacklists no exam. */
  lemma NewPermissionIsNeutral(permissions: seq<Option<bool>>, exam: Exam)
    ensures Blacklisted(permissions + [None], exam) <==> Blacklisted(permissions, exam)
  {
    var extended := permissions + [None];
    if Blacklisted(extended, exam) {
      var q :| q in exam.permissions && Denied(extended, q);
      assert Denied(permissions, q);
    }
    if Blacklisted(permissions, exam) {
      var q :| q in exam.permissions && Denied(permissions, q);
      assert Denied(extended, q);
    }
  }

  /** Whether exam `e` (whose row is `exam`) appears in its course's exam list. */
  predicate Visible(limit: nat, flags: seq<ExamFlag>, permissions: seq<Option<bool>>, e: ExamId, exam: Exam) {
    exam.verified && FlagCount(flags, e) <= limit && !Blacklisted(permissions, exam)
  }

  /** An unverified exam is never listed, whatever its flags and permissions. */
  lemma UnverifiedIsNeverListed(limit: nat, exams: seq<Exam>, flags: seq<ExamFlag>,
                                permissions: seq<Option<bool>>, course: CourseId, e: ExamId)
    requires e < |exams| && !exams[e].verified
    ensures e !in ListedExams(limit, exams, flags, permissions, course)
  {
  }

  /**
   * With exactly `limit` unresolved flags a verified, non-blacklisted exam is
   * still listed; one more unresolved flag hides it, and resolving any one
   * of its unresolved flags lists it again.
   */
  lemma LimitIsInclusive(limit: nat, flags: seq<ExamFlag>, permissions: seq<Option<bool>>, e: ExamId, exam: Exam)
    requires exam.verified && !Blacklisted(permissions, exam)
    requires FlagCount(flags, e) == limit
    ensures Visible(limit, flags, permissions, e, exam)
    ensures !Visible(limit, flags + [ExamFlag(e, false)], permissions, e, exam)
    ensures forall i :: 0 <= i < |flags| + 1 && (flags + [ExamFlag(e, false)])[i] == ExamFlag(e, false) ==>
      Visible(limit, (flags + [ExamFlag(e, false)])[i := ExamFlag(e, true)], permissions, e, exam)
  {
    var more := flags + [ExamFlag(e, false)];
    FlagAdded(flags, ExamFlag(e, false), e);
    forall i | 0 <= i < |more| && more[i] == ExamFlag(e, false)
      ensures Visible(limit, more[i := ExamFlag(e, true)], permissions, e, exam)
    {
      FlagResolvedChanged(more, i, true, e);
      assert more[i := more[i].(resolved := true)] == more[i := ExamFlag(e, true)];
    }
  }

  /** The exams listed for a course. */
  function ListedExams(limit: nat, exams: seq<Exam>, flags: seq<ExamFlag>, permissions: seq<Option<bool>>,
                       course: CourseId): set<ExamId>
  {
    set e | 0 <= e < |exams| && exams[e].course == course && Visible(limit, flags, permissions, e, exams[e])
  }

  /** Two sets that agree apart from one element differ in size by at most one. */
  lemma SizesApartFromOne(a: set<ExamId>, b: set<ExamId>, e: ExamId)
    requires a - {e} == b - {e}
    ensures |b| - 1 <= |a| <= |b| + 1
  {
    assert |a| - 1 <= |a - {e}| <= |a|;
    assert |b| - 1 <= |b - {e}| <= |b|;
  }

  /**
   * A change confined to one exam `e` (its row, or its flags' counts) does
   * not change whether any other exam is listed, so the number of listed
   * exams moves by at most one.
   */
  lemma OnlyTheChangedExamMoves(limit: nat, exams: seq<Exam>, flags: seq<ExamFlag>,
                                exams': seq<Exam>, flags': seq<ExamFlag>,
                                permissions: seq<Option<bool>>, course: CourseId, e: ExamId)
    requires |exams'| == |exams|
    requires forall x :: 0 <= x < |exams| && x != e ==> exams'[x] == exams[x]
    requires forall x :: 0 <= x < |exams| && x != e ==> FlagCount(flags', x) == FlagCount(flags, x)
    ensures ListedExams(limit, exams', flags', permissions, course) - {e}
         == ListedExams(limit, exams, flags, permissions, course) - {e}
    ensures var n := |ListedExams(limit, exams, flags, permissions, course)|;
      n - 1 <= |ListedExams(limit, exams', flags', permissions, course)| <= n + 1
  {
    var before := ListedExams(limit, exams, flags, permissions, course);
    var after := ListedExams(limit, exams', flags', permissions, course);
    forall x | x != e ensures x in after <==> x in before {
      if 0 <= x < |exams| {
        assert exams'[x] == exams[x] && FlagCount(flags', x) == FlagCount(flags, x);
      }
    }
    assert after - {e} == before - {e};
    SizesApartFromOne(after, before, e);
  }

  /** The exam archive: exams, their flags and the instructor permissions. */
  class ExamArchive {
    const limit: nat
    var exams: seq<Exam>
    var flags: seq<ExamFlag>
    var permissions: seq<Option<bool>>

    constructor (limit: nat)
      ensures this.limit == limit && exams == [] && flags == [] && permissions == []
    {
      this.limit := limit;
      exams, flags, permissions := [], [], [];
    }

    /** A new instructor permission, undecided (`permission_allowed` None). */
    method AddPermission() returns (p: PermissionId)
      modifies this
      ensures p == |old(permissions)| && permissions == old(permissions) + [None]
      ensures exams == old(exams) && flags == old(flags)
    {
      p := |permissions|;
      permissions := permissions + [None];
    }

    /** A new exam for `course` holding the permissions `held`. */
    method AddExam(course: CourseId, verified: bool, held: set<PermissionId>) returns (e: ExamId)
      modifies this
      ensures e == |old(exams)| && exams == old(exams) + [Exam(course, verified, held)]
      ensures flags == old(flags) && permissions == old(permissions)
    {
      e := |exams|;
      exams := exams + [Exam(course, verified, held)];
    }

    /** Saving a new `ExamFlag(exam=e)`: it starts unresolved. */
    method AddFlag(e: ExamId) returns (i: nat)
      modifies this
      ensures i == |old(flags)| && flags == old(flags) + [ExamFlag(e, false)]
      ensures exams == old(exams) && permissions == old(permissions)
    {
      i := |flags|;
      flags := flags + [ExamFlag(e, false)];
    }

    /** Setting `resolved` on flag `i` and saving it. */
    method SetResolved(i: nat, resolved: bool)
      requires i < |flags|
      modifies this
      ensures flags == old(flags)[i := old(flags)[i].(resolved := resolved)]
      ensures exams == old(exams) && permissions == old(permissions)
    {
      flags := flags[i := flags[i].(resolved := resolved)];
    }

    /** Setting `permission_allowed` on permission `p` and saving it. */
    method SetPermissionAllowed(p: PermissionId, allowed: Option<bool>)
      requires p < |permissions|
      modifies this
      ensures permissions == old(permissions)[p := allowed]
      ensures exams == old(exams) && flags == old(flags)
    {
      permissions := permissions[p := allowed];
    }

    /** Setting `verified` on exam `e` and saving it. */
    method SetVerified(e: ExamId, verified: bool)
      requires e < |exams|
      modifies this
      ensures exams == old(exams)[e := old(exams)[e].(verified := verified)]
      ensures flags == old(flags) && permissions == old(permissions)
    {
      exams := exams[e := exams[e].(verified := verified)];
    }
  }

  /** The listing of a course with three exams, exam by exam. */
  lemma ListingOfThree(limit: nat, exams: seq<Exam>, flags: seq<ExamFlag>, permissions: seq<Option<bool>>)
    requires |exams| == 3 && exams[0].course == 0 && exams[1].course == 0 && exams[2].course == 0
    ensures ListedExams(limit, exams, flags, permissions, 0)
         == (if Visible(limit, flags, permissions, 0, exams[0]) then {0} else {})
          + (if Visible(limit, flags, permissions, 1, exams[1]) then {1} else {})
          + (if Visible(limit, flags, permissions, 2, exams[2]) then {2} else {})
  {
  }

  /** Flags raised against exam 0 only leave the other exams' counts at zero. */
  lemma {:induction false} OnlyExamZeroFlagged(flags: seq<ExamFlag>, e: ExamId)
    requires e != 0
    requires forall k :: 0 <= k < |flags| ==> flags[k].exam == 0
    ensures FlagCount(flags, e) == 0
  {
    if flags != [] {
      OnlyExamZeroFlagged(flags[1..], e);
    }
  }

  /** Saving `n` new flags against exam `e`, one after another. */
  method RaiseFlags(archive: ExamArchive, e: ExamId, n: nat)
    modifies archive
    ensures archive.exams == old(archive.exams) && archive.permissions == old(archive.permissions)
    ensures |archive.flags| == |old(archive.flags)| + n
    ensures archive.flags[..|old(archive.flags)|] == old(archive.flags)
    ensures forall k :: |old(archive.flags)| <= k < |archive.flags| ==> archive.flags[k] == ExamFlag(e, false)
    ensures FlagCount(archive.flags, e) == FlagCount(old(archive.flags), e) + n
  {
    for i := 0 to n
      invariant archive.exams == old(archive.exams) && archive.permissions == old(archive.permissions)
      invariant |archive.flags| == |old(archive.flags)| + i
      invariant archive.flags[..|old(archive.flags)|] == old(archive.flags)
      invariant forall k :: |old(archive.flags)| <= k < |archive.flags| ==> archive.flags[k] == ExamFlag(e, false)
      invariant FlagCount(archive.flags, e) == FlagCount(old(archive.flags), e) + i
    {
      ghost var before := archive.flags;
      var f := archive.AddFlag(e);
      FlagAdded(before, ExamFlag(e, false), e);
    }
  }

  /**
   * The course of `ExamListTest`: three exams of one course, numbered after
   * its `test_exam1` to `test_exam3`, and the first permission of each,
   * numbered 0 to 2. Exam 0 holds permissions 0 and 1, exam 1 holds 1 and 2,
   * exam 2 holds 2. Exam 0's `verified` bit is the parameter.
   */
  function CourseLayout(verified: bool): seq<Exam> {
    [Exam(0, verified, {0, 1}), Exam(0, true, {1, 2}), Exam(0, true, {2})]
  }

  /**
   * In `test_flags_verified_and_blacklist` only exam 0 is flagged and only
   * permission 0 is set: exams 1 and 2 stay listed, and exam 0 is listed iff
   * it is verified, within the flag limit and permission 0 is not False.
   */
  lemma OwnPermissionListing(limit: nat, verified: bool, flags: seq<ExamFlag>, own: Option<bool>)
    requires FlagCount(flags, 1) == 0 && FlagCount(flags, 2) == 0
    ensures ListedExams(limit, CourseLayout(verified), flags, [own, None, None], 0)
         == (if verified && FlagCount(flags, 0) <= limit && own != Some(false) then {0, 1, 2} else {1, 2})
  {
    var exams, permissions := CourseLayout(verified), [own, None, None];
    ListingOfThree(limit, exams, flags, permissions);
    assert Blacklisted(permissions, exams[0]) <==> Denied(permissions, 0);
    assert !Blacklisted(permissions, exams[1]) && !Blacklisted(permissions, exams[2]);
  }

  /** Setting `verified` on exam 0 of `CourseLayout` gives the layout with the new bit. */
  lemma LayoutVerified(verified: bool, verified': bool)
    ensures CourseLayout(verified)[0 := CourseLayout(verified)[0].(verified := verified')] == CourseLayout(verified')
  {
  }

  /** One request of the course page in `test_flags_verified_and_blacklist`. */
  method ListOwnCourse(archive: ExamArchive, verified: bool, own: Option<bool>) returns (listed: set<ExamId>)
    requires archive.exams == CourseLayout(verified) && archive.permissions == [own, None, None]
    requires FlagCount(archive.flags, 1) == 0 && FlagCount(archive.flags, 2) == 0
    ensures listed == if verified && FlagCount(archive.flags, 0) <= archive.limit && own != Some(false)
                      then {0, 1, 2} else {1, 2}
  {
    listed := ListedExams(archive.limit, archive.exams, archive.flags, archive.permissions, 0);
    OwnPermissionListing(archive.limit, verified, archive.flags, own);
  }

  /**
   * One of the later steps of `test_flags_verified_and_blacklist`: exam 0
   * has `limit + 1` flags (`overLimit`), and the step sets the first flag's
   * `resolved` bit, the permission of exam 0 and the exam's `verified` bit,
   * then lists the course.
   */
  method ChangeOwnExam(archive: ExamArchive, ghost overLimit: seq<ExamFlag>, ghost verified: bool, ghost own: Option<bool>,
                       firstResolved: bool, verified': bool, own': Option<bool>) returns (listed: set<ExamId>)
    requires |overLimit| > 0 && overLimit[0] == ExamFlag(0, false)
    requires FlagCount(overLimit, 0) == archive.limit + 1 && FlagCount(overLimit, 1) == 0 && FlagCount(overLimit, 2) == 0
    requires archive.flags == overLimit || archive.flags == overLimit[0 := ExamFlag(0, true)]
    requires archive.exams == CourseLayout(verified) && archive.permissions == [own, None, None]
    modifies archive
    ensures archive.flags == if firstResolved then overLimit[0 := ExamFlag(0, true)] else overLimit
    ensures archive.exams == CourseLayout(verified') && archive.permissions == [own', None, None]
    ensures listed == if verified' && firstResolved && own' != Some(false) then {0, 1, 2} else {1, 2}
  {
    archive.SetResolved(0, firstResolved);
    assert archive.flags == if firstResolved then overLimit[0 := ExamFlag(0, true)] else overLimit;
    FlagResolvedChanged(overLimit, 0, true, 0);
    FlagResolvedChanged(overLimit, 0, true, 1);
    FlagResolvedChanged(overLimit, 0, true, 2);
    archive.SetPermissionAllowed(0, own');
    archive.SetVerified(0, verified');
    LayoutVerified(verified, verified');
    listed := ListOwnCourse(archive, verified', own');
  }

  /**
   * The steps of `test_flags_verified_and_blacklist` replayed on the model:
   * the three verified exams of `CourseLayout`; exam 0 receives `limit`
   * flags, then one more, and its first flag, its permission 0 and its
   * `verified` bit are toggled through the remaining combinations.
   * `listings` holds the exams listed at each of the test's nine requests of
   * the course page; their sizes are the counts the test expects. With
   * `limit` 0 the test's list of flags stays empty, and indexing its first
   * element after the third request raises IndexError, so the run stops
   * there with three listings.
   */
  method FlagsVerifiedAndBlacklistScenario(limit: nat) returns (listings: seq<set<ExamId>>)
    ensures limit == 0 ==> listings == [{0, 1, 2}, {0, 1, 2}, {1, 2}]
    ensures limit > 0 ==> listings == [{0, 1, 2}, {0, 1, 2}, {1, 2}, {1, 2}, {1, 2}, {1, 2}, {1, 2}, {1, 2}, {1, 2}]
  {
    var archive := new ExamArchive(limit);
    var p0 := archive.AddPermission();
    var p1 := archive.AddPermission();
    var p2 := archive.AddPermission();
    var e0 := archive.AddExam(0, true, {p0, p1});
    var e1 := archive.AddExam(0, true, {p1, p2});
    var e2 := archive.AddExam(0, true, {p2});
    assert archive.exams == CourseLayout(true) && archive.permissions == [None, None, None];
    var l0 := ListOwnCourse(archive, true, None);
    assert l0 == {0, 1, 2};

    // Under the flag limit, not blacklisted, verified.
    RaiseFlags(archive, e0, limit);
    ghost var atLimit := archive.flags;
    assert FlagCount(atLimit, 0) == limit;
    OnlyExamZeroFlagged(atLimit, 1);
    OnlyExamZeroFlagged(atLimit, 2);
    var l1 := ListOwnCourse(archive, true, None);
    assert l1 == {0, 1, 2};

    // Over the flag limit, not blacklisted, verified.
    var last := archive.AddFlag(e0);
    ghost var overLimit := archive.flags;
    assert FlagCount(overLimit, 0) == limit + 1 by {
      FlagAdded(atLimit, ExamFlag(0, false), 0);
    }
    FlagAdded(atLimit, ExamFlag(0, false), 1);
    FlagAdded(atLimit, ExamFlag(0, false), 2);
    var l2 := ListOwnCourse(archive, true, None);
    assert l2 == {1, 2};
    if limit == 0 {
      // `exam_flag_list[0]` raises IndexError.
      listings := [l0, l1, l2];
      return;
    }
    assert overLimit[0] == atLimit[0] == ExamFlag(0, false);

    // Under the flag limit, blacklisted, verified: the first flag is resolved, the permission denied.
    var l3 := ChangeOwnExam(archive, overLimit, true, None, true, true, Some(false));
    assert l3 == {1, 2};

    // Under the flag limit, not blacklisted, not verified.
    var l4 := ChangeOwnExam(archive, overLimit, true, Some(false), true, false, Some(true));
    assert l4 == {1, 2};

    // Over the flag limit, not blacklisted, not verified: the first flag is unresolved again.
    var l5 := ChangeOwnExam(archive, overLimit, false, Some(true), false, false, Some(true));
    assert l5 == {1, 2};

    // Over the flag limit, blacklisted, verified.
    var l6 := ChangeOwnExam(archive, overLimit, false, Some(true), false, true, Some(false));
    assert l6 == {1, 2};

    // Under the flag limit, blacklisted, not verified.
    var l7 := ChangeOwnExam(archive, overLimit, true, Some(false), true, false, Some(false));
    assert l7 == {1, 2};

    // Over the flag limit, blacklisted, not verified.
    var l8 := ChangeOwnExam(archive, overLimit, false, Some(false), false, false, Some(false));
    assert l8 == {1, 2};
    listings := [l0, l1, l2, l3, l4, l5, l6, l7, l8];
  }

  /** The exams of `CourseLayout(true)` none of whose permissions is False. */
  function SharedListing(permissions: seq<Option<bool>>): set<ExamId>
    requires |permissions| == 3
  {
    (if permissions[0] != Some(false) && permissions[1] != Some(false) then {0} else {})
    + (if permissions[1] != Some(false) && permissions[2] != Some(false) then {1} else {})
    + (if permissions[2] != Some(false) then {2} else {})
  }

  /** On `CourseLayout(true)` the course lists exactly the exams no permission of which is False. */
  lemma SharedPermissionListing(limit: nat, permissions: seq<Option<bool>>)
    requires |permissions| == 3
    ensures ListedExams(limit, CourseLayout(true), [], permissions, 0) == SharedListing(permissions)
  {
    var exams := CourseLayout(true);
    ListingOfThree(limit, exams, [], permissions);
    assert Blacklisted(permissions, exams[0]) <==> Denied(permissions, 0) || Denied(permissions, 1);
    assert Blacklisted(permissions, exams[1]) <==> Denied(permissions, 1) || Denied(permissions, 2);
    assert Blacklisted(permissions, exams[2]) <==> Denied(permissions, 2);
  }

  /** One step of the test: set permission `p`, save it and list the course again. */
  method ChangeSharedPermission(archive: ExamArchive, p: PermissionId, allowed: bool) returns (listed: set<ExamId>)
    requires archive.exams == CourseLayout(true) && archive.flags == [] && |archive.permissions| == 3 && p < 3
    modifies archive
    ensures archive.exams == CourseLayout(true) && archive.flags == []
    ensures archive.permissions == old(archive.permissions)[p := Some(allowed)]
    ensures listed == SharedListing(archive.permissions)
  {
    archive.SetPermissionAllowed(p, Some(allowed));
    listed := ListedExams(archive.limit, archive.exams, archive.flags, archive.permissions, 0);
    SharedPermissionListing(archive.limit, archive.permissions);
  }

  /**
   * The steps of `test_multiple_blacklists_and_exams` replayed on the model,
   * its exams and permissions 1 to 3 numbered 0 to 2. `listings` holds the
   * exams listed at each of the test's thirteen requests of the course page;
   * their sizes are the counts the test expects.
   */
  method MultipleBlacklistsScenario(limit: nat) returns (listings: seq<set<ExamId>>)
    ensures listings == [{0, 1, 2}, {1, 2}, {2}, {1, 2}, {}, {}, {2}, {1, 2}, {0, 1, 2}, {0}, {}, {0}, {0, 1, 2}]
  {
    var archive := new ExamArchive(limit);
    var p0 := archive.AddPermission();
    var p1 := archive.AddPermission();
    var p2 := archive.AddPermission();
    var e0 := archive.AddExam(0, true, {p0, p1});
    var e1 := archive.AddExam(0, true, {p1, p2});
    var e2 := archive.AddExam(0, true, {p2});
    SharedPermissionListing(limit, archive.permissions);
    var listed := ListedExams(limit, archive.exams, archive.flags, archive.permissions, 0);
    assert listed == {0, 1, 2};
    var l0 := listed;
    listed := ChangeSharedPermission(archive, p0, false);
    assert listed == {1, 2};
    var l1 := listed;
    listed := ChangeSharedPermission(archive, p1, false);
    assert listed == {2};
    var l2 := listed;
    listed := ChangeSharedPermission(archive, p1, true);
    assert listed == {1, 2};
    var l3 := listed;
    listed := ChangeSharedPermission(archive, p2, false);
    assert listed == {};
    var l4 := listed;
    listed := ChangeSharedPermission(archive, p1, false);
    assert listed == {};
    var l5 := listed;
    listed := ChangeSharedPermission(archive, p2, true);
    assert listed == {2};
    var l6 := listed;
    listed := ChangeSharedPermission(archive, p1, true);
    assert listed == {1, 2};
    var l7 := listed;
    listed := ChangeSharedPermission(archive, p0, true);
    assert listed == {0, 1, 2};
    var l8 := listed;
    listed := ChangeSharedPermission(archive, p2, false);
    assert listed == {0};
    var l9 := listed;
    listed := ChangeSharedPermission(archive, p1, false);
    assert listed == {};
    var l10 := listed;
    listed := ChangeSharedPermission(archive, p1, true);
    assert listed == {0};
    var l11 := listed;
    listed := ChangeSharedPermission(archive, p2, true);
    assert listed == {0, 1, 2};
    var l12 := listed;
    listings := [l0, l1, l2, l3, l4, l5, l6, l7, l8, l9, l10, l11, l12];
  }

}
