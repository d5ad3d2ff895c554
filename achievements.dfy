/**
 * Achievement assignment (quark/achievements/models.py): the store of
 * UserAchievement records, one per (achievement, user), and
 * `Achievement.assign`, which creates a record, overwrites it while it is
 * not acquired, and afterwards only lets it be reset within the same term.
 */
module Achievements {
  import opened Wrappers
  import opened Terms
  import opened TermTables

  type UserId = int
  type AchievementId = int

  /** A UserAchievement row, without its user and achievement (they form the store's key). */
  datatype UserAchievement = UserAchievement(
    acquired: bool,
    progress: int,
    term: Option<Term>,
    data: string,
    assigner: Option<UserId>)

  /** The field defaults of a freshly created record. */
  const Unstarted := UserAchievement(false, 0, None, "", None)

  /**
   * `user_achievement.term == term` as Python 2 evaluates it. Two terms are
   * compared by `Term.__eq__`. When exactly one side is None, `__eq__` of the
   * term side is still called, with None as the non-term operand, which it
   * replaces by season `un` of the current calendar year.
   */
  predicate SameTerm(stored: Option<Term>, given: Option<Term>, nowYear: nat) {
    match (stored, given)
    case (None, None) => true
    case (Some(a), Some(b)) => Eq(a, AsTerm(b), nowYear)
    case (Some(a), None) => Eq(a, NotATerm, nowYear)
    case (None, Some(b)) => Eq(b, NotATerm, nowYear)
  }

  /** The record `assign` leaves behind, given the record it fetched or created. */
  function Assigned(rec: UserAchievement, acquired: bool, progress: int, term: Option<Term>,
                    data: string, assigner: Option<UserId>, nowYear: nat): UserAchievement
  {
    if !rec.acquired then
      UserAchievement(acquired, progress, term, data, assigner)
    else if !acquired && SameTerm(rec.term, term, nowYear) then
      rec.(acquired := false, progress := progress, data := data, assigner := None)
    else
      rec
  }

  /** What `get_or_create` yields: the stored record, or a new one with the defaults. */
  function Fetched(records: map<(AchievementId, UserId), UserAchievement>, key: (AchievementId, UserId)): UserAchievement {
    if key in records then records[key] else Unstarted
  }

  /** The term an omitted `term` argument stands for: the current term, possibly None. */
  function EffectiveTerm(term: Option<Term>, currentTerm: Option<Term>): Option<Term> {
    if term.None? then currentTerm else term
  }

  /**
   * While a record is not acquired, `assign` overwrites it with exactly the
   * values it was given; a record created with the defaults is such a record.
   */
  lemma UnacquiredRecordTakesArguments(rec: UserAchievement, acquired: bool, progress: int, term: Option<Term>,
                                       data: string, assigner: Option<UserId>, nowYear: nat)
    requires !rec.acquired
    ensures Assigned(rec, acquired, progress, term, data, assigner, nowYear)
         == UserAchievement(acquired, progress, term, data, assigner)
    ensures !Unstarted.acquired && Unstarted.progress == 0
  {
  }

  /**
   * The outcome for an already acquired record: a call that acquires again
   * changes nothing; a call with `acquired=False` in the same term clears
   * `acquired` and the assigner and takes the new progress and data, keeping
   * the term; a call with `acquired=False` in another term changes nothing.
   * In every case the term of an acquired record stays as it was.
   */
  lemma AcquiredRecordChangesOnlyBySameTermReset(rec: UserAchievement, acquired: bool, progress: int,
                                                 term: Option<Term>, data: string,
                                                 assigner: Option<UserId>, nowYear: nat)
    requires rec.acquired
    ensures var r := Assigned(rec, acquired, progress, term, data, assigner, nowYear);
      && r.term == rec.term
      && (acquired ==> r == rec)
      && (!acquired && SameTerm(rec.term, term, nowYear) ==>
            r == UserAchievement(false, progress, rec.term, data, None))
      && (!acquired && !SameTerm(rec.term, term, nowYear) ==> r == rec)
  {
  }

  /** Acquiring twice with the same arguments ends where acquiring once does. */
  lemma AcquiringIsIdempotent(rec: UserAchievement, progress: int, term: Option<Term>,
                              data: string, assigner: Option<UserId>, nowYear: nat)
    ensures var once := Assigned(rec, true, progress, term, data, assigner, nowYear);
      Assigned(once, true, progress, term, data, assigner, nowYear) == once
  {
  }

  /**
   * The `==` quirk seen from `assign`: a record with no term counts as being
   * in the same term as exactly the `un` term of the current year.
   */
  lemma MissingTermMatchesUnknownOfThisYear(b: Term, nowYear: nat)
    ensures SameTerm(None, Some(b), nowYear) <==> b.season == Unknown && b.year == nowYear
    ensures SameTerm(Some(b), None, nowYear) <==> b.season == Unknown && b.year == nowYear
  {
  }

  /** One call of `assign`, without the achievement and user it is about. */
  datatype Call = Call(acquired: bool, progress: int, term: Option<Term>, data: string, assigner: Option<UserId>)

  /** The record after a sequence of calls on it. */
  function AssignAll(rec: UserAchievement, calls: seq<Call>, nowYear: nat): UserAchievement
    decreases |calls|
  {
    if calls == [] then rec
    else
      var c := calls[0];
      AssignAll(Assigned(rec, c.acquired, c.progress, c.term, c.data, c.assigner, nowYear), calls[1..], nowYear)
  }

  /**
   * An acquired record survives any sequence of calls unchanged unless one
   * of them asks for `acquired=False` in the record's own term.
   */
  lemma {:induction false} AcquisitionIsSticky(rec: UserAchievement, calls: seq<Call>, nowYear: nat)
    requires rec.acquired
    requires forall i :: 0 <= i < |calls| ==> calls[i].acquired || !SameTerm(rec.term, calls[i].term, nowYear)
    ensures AssignAll(rec, calls, nowYear) == rec
    decreases |calls|
  {
    if calls != [] {
      var c := calls[0];
      assert Assigned(rec, c.acquired, c.progress, c.term, c.data, c.assigner, nowYear) == rec;
      assert forall i :: 0 <= i < |calls[1..]| ==> calls[1..][i] == calls[i + 1];
      AcquisitionIsSticky(rec, calls[1..], nowYear);
    }
  }

  /** The UserAchievement table. */
  class AchievementStore {
    var records: map<(AchievementId, UserId), UserAchievement>

    constructor ()
      ensures records == map[]
    {
      records := map[];
    }

    /**
     * `Achievement.assign`: fetch or create the record for (achievement,
     * user), update it as `Assigned` says, and return True. An omitted
     * `term` (None) is replaced by the current term of `terms`. `nowYear`
     * is the calendar year the term comparison falls back on.
     */
    method Assign(achievement: AchievementId, user: UserId, acquired: bool, progress: int,
                  term: Option<Term>, data: string, assigner: Option<UserId>,
                  terms: TermTable, nowYear: nat) returns (ok: bool)
      requires terms.Valid()
      modifies this
      ensures ok
      ensures records == old(records)[(achievement, user) :=
        Assigned(Fetched(old(records), (achievement, user)), acquired, progress,
                 EffectiveTerm(term, GetCurrentTerm(terms.rows)), data, assigner, nowYear)]
      ensures forall key :: key in old(records) && key != (achievement, user) ==> key in records && records[key] == old(records)[key]
    {
      var t := term;
      if t.None? {
        t := GetCurrentTerm(terms.rows);
      }
      var key := (achievement, user);
      var rec: UserAchievement;
      if key in records {
        rec := records[key];
      } else {
        rec := Unstarted;
        records := records[key := rec];
      }
      if !rec.acquired {
        rec := rec.(acquired := acquired, progress := progress, term := t, data := data, assigner := assigner);
        records := records[key := rec];
      } else if !acquired && SameTerm(rec.term, t, nowYear) {
        rec := rec.(acquired := acquired, progress := progress, data := data, assigner := None);
        records := records[key := rec];
      }
      ok := true;
    }
  }
}
