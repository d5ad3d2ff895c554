/**
 * The stored table of terms (quark/base/models.py): the queries of
 * TermManager and `Term.save`, which derives the primary key and keeps at
 * most one term current.
 *
 * The table maps each primary key to the row stored under it. Rows are read
 * in primary-key order, the model's default ordering.
 */
module TermTables {
  import opened Wrappers
  import opened Decimal
  import opened Terms

  /** Every row is stored under its own id, and that id is its derived key. */
  predicate WellKeyed(rows: map<int, Term>) {
    forall k :: k in rows ==> rows[k].id == Some(k) && KeyOf(rows[k]) == k
  }

  /** No two rows are both marked current. */
  predicate AtMostOneCurrent(rows: map<int, Term>) {
    forall j, k :: j in rows && k in rows && rows[j].current && rows[k].current ==> j == k
  }

  predicate TableInvariant(rows: map<int, Term>) {
    WellKeyed(rows) && AtMostOneCurrent(rows)
  }

  // ---------------------------------------------------------------------
  // TermManager queries
  // ---------------------------------------------------------------------

  /** `get_current_term`: the row marked current, or None when there is none. */
  function GetCurrentTerm(rows: map<int, Term>): (r: Option<Term>)
    requires AtMostOneCurrent(rows)
    ensures r.Some? <==> exists k :: k in rows && rows[k].current
    ensures r.Some? ==> r.value in rows.Values && r.value.current
  {
    if exists k :: k in rows && rows[k].current then
      var k :| k in rows && rows[k].current;
      Some(rows[k])
    else
      None
  }

  /** `get_by_natural_key`: the row with this season code and year, or None. */
  function GetByNaturalKey(rows: map<int, Term>, code: string, year: int): (r: Option<Term>)
    requires WellKeyed(rows)
    ensures r.Some? <==> exists k :: k in rows && Code(rows[k].season) == code && rows[k].year == year
    ensures r.Some? ==> r.value in rows.Values && Code(r.value.season) == code && r.value.year == year
  {
    match SeasonOfCode(code)
    case None => None
    case Some(s) =>
      if year < 0 then None
      else
        var k := Key(s, year);
        if k in rows then Some(rows[k]) else None
  }

  /** The argument of `get_by_url_name`: a string, or a value of any other type. */
  datatype UrlArgument = Text(s: string) | NotText

  /** The season part of a URL name: its first two characters, or fewer for a shorter text. */
  function CodePart(s: string): string {
    if |s| < 2 then s else s[..2]
  }

  /** The year part of a URL name: everything after the first two characters. */
  function YearPart(s: string): string {
    if |s| < 2 then "" else s[2..]
  }

  /**
   * `get_by_url_name`: None for a non-string argument and for a year part
   * that is not an integer; otherwise the row whose code is the first two
   * characters and whose year is the rest read as an integer.
   */
  function GetByUrlName(rows: map<int, Term>, name: UrlArgument): (r: Option<Term>)
    requires WellKeyed(rows)
    ensures r.Some? <==> name.Text? && ParseInt(YearPart(name.s)).Some?
                         && exists k :: k in rows && Code(rows[k].season) == CodePart(name.s)
                                                  && rows[k].year == ParseInt(YearPart(name.s)).value
    ensures r.Some? ==> r.value in rows.Values && name.Text? && ParseInt(YearPart(name.s)).Some?
                        && Code(r.value.season) == CodePart(name.s)
                        && r.value.year == ParseInt(YearPart(name.s)).value
  {
    match name
    case NotText => None
    case Text(s) =>
      match ParseInt(YearPart(s))
      case None => None
      case Some(year) => GetByNaturalKey(rows, CodePart(s), year)
  }

  /** The key a stored row sits under. */
  lemma StoredUnder(rows: map<int, Term>, t: Term) returns (k: int)
    requires t in rows.Values
    ensures k in rows && rows[k] == t
  {
    if forall j :: j in rows ==> rows[j] != t { assert false; }
    k :| k in rows && rows[k] == t;
  }

  /** Every stored term is found again under its own URL name. */
  lemma UrlNameRoundTrip(rows: map<int, Term>, t: Term)
    requires WellKeyed(rows)
    requires t in rows.Values
    ensures GetByUrlName(rows, Text(UrlName(t))) == Some(t)
  {
    var name := UrlName(t);
    var k := StoredUnder(rows, t);
    assert CodePart(name) == Code(t.season);
    var r := GetByUrlName(rows, Text(name));
    assert r.Some?;
    var u := r.value;
    var j := StoredUnder(rows, u);
    assert u.season == t.season && u.year == t.year;
    assert j == KeyOf(u) == KeyOf(t) == k;
  }

  /** Strictly ascending integers. */
  predicate Ascending(s: seq<int>) {
    forall i, j :: 0 <= i < j < |s| ==> s[i] < s[j]
  }

  lemma {:induction false} MinExists(ks: set<int>)
    requires ks != {}
    ensures exists m :: m in ks && forall x :: x in ks ==> m <= x
    decreases ks
  {
    if forall z :: z !in ks { assert false; }
    var y :| y in ks;
    var rest := ks - {y};
    var least := y;
    if rest != {} {
      MinExists(rest);
      var m :| m in rest && forall x :: x in rest ==> m <= x;
      least := if y < m then y else m;
    }
    forall x | x in ks ensures least <= x {
      if x != y { assert x in rest; }
    }
  }

  /** A key below every key of an ascending sequence can be put in front of it. */
  lemma PrependAscending(m: int, rest: seq<int>)
    requires Ascending(rest)
    requires forall k :: k in rest ==> m < k
    ensures Ascending([m] + rest)
  {
    var r := [m] + rest;
    forall i, j | 0 <= i < j < |r| ensures r[i] < r[j] {
      assert r[j] == rest[j - 1] && rest[j - 1] in rest;
      if i > 0 { assert r[i] == rest[i - 1]; }
    }
  }

  /** The keys of a set in ascending order. */
  function SortedKeys(ks: set<int>): (r: seq<int>)
    ensures forall k :: k in r <==> k in ks
    ensures Ascending(r)
    decreases ks
  {
    if ks == {} then []
    else
      MinExists(ks);
      var m :| m in ks && forall x :: x in ks ==> m <= x;
      var rest := SortedKeys(ks - {m});
      PrependAscending(m, rest);
      [m] + rest
  }

  /** The rows stored under the keys `ks`, in that order. */
  function RowsAt(rows: map<int, Term>, ks: seq<int>): (r: seq<Term>)
    requires forall i :: 0 <= i < |ks| ==> ks[i] in rows
    ensures |r| == |ks| && forall i :: 0 <= i < |ks| ==> r[i] == rows[ks[i]]
  {
    if ks == [] then [] else [rows[ks[0]]] + RowsAt(rows, ks[1..])
  }

  /** Terms in strictly ascending key order. */
  predicate AscendingTerms(s: seq<Term>) {
    forall i, j :: 0 <= i < j < |s| ==> KeyOf(s[i]) < KeyOf(s[j])
  }

  /** Terms in strictly descending key order. */
  predicate DescendingTerms(s: seq<Term>) {
    forall i, j :: 0 <= i < j < |s| ==> KeyOf(s[i]) > KeyOf(s[j])
  }

  /** The rows stored under all of the keys, in ascending key order, are the stored rows in ascending key order. */
  lemma RowsAtSortedKeys(rows: map<int, Term>, ks: seq<int>)
    requires WellKeyed(rows)
    requires forall k :: k in ks <==> k in rows
    requires Ascending(ks)
    ensures forall t :: t in RowsAt(rows, ks) <==> t in rows.Values
    ensures AscendingTerms(RowsAt(rows, ks))
  {
    var r := RowsAt(rows, ks);
    forall t | t in rows.Values ensures t in r {
      var k := StoredUnder(rows, t);
      var i :| 0 <= i < |ks| && ks[i] == k;
      assert r[i] == t;
    }
    forall i, j | 0 <= i < j < |r| ensures KeyOf(r[i]) < KeyOf(r[j]) {
      assert KeyOf(r[i]) == ks[i] && KeyOf(r[j]) == ks[j];
    }
  }

  /** `self.all()`: every row, in ascending id order. */
  function AllRows(rows: map<int, Term>): (r: seq<Term>)
    requires WellKeyed(rows)
    ensures forall t :: t in r <==> t in rows.Values
    ensures AscendingTerms(r)
  {
    var ks := SortedKeys(rows.Keys);
    RowsAtSortedKeys(rows, ks);
    RowsAt(rows, ks)
  }

  /**
   * The filters of `get_terms` for one row: summer terms only with
   * `include_summer`, no winter terms in a semester system, and, without
   * `include_future` and when there is a current term, nothing after it.
   */
  predicate Selected(t: Term, includeFuture: bool, includeSummer: bool, semester: bool, current: Option<Term>) {
    && (includeSummer || t.season != Summer)
    && (!semester || t.season != Winter)
    && (includeFuture || current.None? || KeyOf(t) <= KeyOf(current.value))
  }

  /** A term below every term of an ascending sequence can be put in front of it. */
  lemma PrependAscendingTerms(t: Term, rest: seq<Term>)
    requires AscendingTerms(rest)
    requires forall u :: u in rest ==> KeyOf(t) < KeyOf(u)
    ensures AscendingTerms([t] + rest)
  {
    var r := [t] + rest;
    forall i, j | 0 <= i < j < |r| ensures KeyOf(r[i]) < KeyOf(r[j]) {
      assert r[j] == rest[j - 1];
      if i > 0 { assert r[i] == rest[i - 1]; }
    }
  }

  /** The head of an ascending sequence is below every term of its tail. */
  lemma HeadBelowTail(s: seq<Term>)
    requires |s| > 0 && AscendingTerms(s)
    ensures forall u :: u in s[1..] ==> KeyOf(s[0]) < KeyOf(u)
  {
    forall u | u in s[1..] ensures KeyOf(s[0]) < KeyOf(u) {
      var i :| 0 <= i < |s[1..]| && s[1..][i] == u;
      assert s[i + 1] == u;
    }
  }

  /** The rows of `s` that pass the filters, in their order in `s`. */
  function Select(s: seq<Term>, includeFuture: bool, includeSummer: bool, semester: bool, current: Option<Term>): (r: seq<Term>)
    ensures forall t :: t in r <==> t in s && Selected(t, includeFuture, includeSummer, semester, current)
    ensures AscendingTerms(s) ==> AscendingTerms(r)
  {
    if s == [] then []
    else
      var rest := Select(s[1..], includeFuture, includeSummer, semester, current);
      if Selected(s[0], includeFuture, includeSummer, semester, current) then
        assert AscendingTerms(s) ==> AscendingTerms([s[0]] + rest) by {
          if AscendingTerms(s) {
            HeadBelowTail(s);
            PrependAscendingTerms(s[0], rest);
          }
        }
        [s[0]] + rest
      else
        rest
  }

  function Reverse(s: seq<Term>): (r: seq<Term>)
    ensures |r| == |s| && forall i :: 0 <= i < |s| ==> r[i] == s[|s| - 1 - i]
  {
    if s == [] then [] else Reverse(s[1..]) + [s[0]]
  }

  /** Reversing keeps the elements and turns ascending order into descending order. */
  lemma ReverseOfAscending(s: seq<Term>)
    ensures forall t :: t in Reverse(s) <==> t in s
    ensures AscendingTerms(s) ==> DescendingTerms(Reverse(s))
  {
    var r := Reverse(s);
    forall t | t in s ensures t in r {
      var i :| 0 <= i < |s| && s[i] == t;
      assert r[|s| - 1 - i] == t;
    }
  }

  /**
   * `get_terms`: the stored rows that pass the filters, in ascending id
   * order, or descending with `reverse`. `termType` is the TERM_TYPE setting
   * ("quarter" when it is not set).
   */
  function GetTerms(rows: map<int, Term>, includeFuture: bool, includeSummer: bool, reverse: bool, termType: string): (r: seq<Term>)
    requires TableInvariant(rows)
    ensures forall t :: t in r <==>
      t in rows.Values && Selected(t, includeFuture, includeSummer, termType == "semester", GetCurrentTerm(rows))
    ensures if reverse then DescendingTerms(r) else AscendingTerms(r)
  {
    var ascending := Select(AllRows(rows), includeFuture, includeSummer, termType == "semester", GetCurrentTerm(rows));
    ReverseOfAscending(ascending);
    if reverse then Reverse(ascending) else ascending
  }

  // ---------------------------------------------------------------------
  // Term.save
  // ---------------------------------------------------------------------

  /** How a save ends: nothing done, a ValueError, or the row stored with its id set. */
  datatype SaveResult = Skipped | KeyMismatch | Saved(term: Term)

  /**
   * The outcome of `save` for the object `t`. The check on an existing id is
   * written as the source writes it, with floor division and remainder by 10;
   * the contract states what that check amounts to.
   */
  function SaveOutcome(t: Term): (r: SaveResult)
    ensures r.Skipped? <==> t.season == Unknown && t.year == 0
    ensures r.KeyMismatch? <==> !r.Skipped? && t.id.Some? && t.id.value != KeyOf(t)
    ensures r.Saved? ==> r.term == t.(id := Some(KeyOf(t)))
  {
    if t.season == Unknown && t.year == 0 then
      Skipped
    else if t.id.Some? && (t.year != t.id.value / 10 || Rank(t.season) != t.id.value % 10) then
      assert t.id.value != KeyOf(t);
      KeyMismatch
    else
      Saved(t.(id := Some(t.year * 10 + Rank(t.season))))
  }

  /** The bulk update: every other current row has `current` cleared. */
  function ClearOtherCurrent(rows: map<int, Term>, id: int): map<int, Term> {
    map k | k in rows :: if k != id && rows[k].current then rows[k].(current := false) else rows[k]
  }

  /** The table after `saved` is stored under its id. */
  function AfterSave(rows: map<int, Term>, saved: Term): map<int, Term>
    requires saved.id.Some?
  {
    var cleared := if saved.current then ClearOtherCurrent(rows, saved.id.value) else rows;
    cleared[saved.id.value := saved]
  }

  /**
   * A successful save stores the term under its key; every other row keeps
   * its season, year and id, and keeps its `current` bit unless the saved
   * term is current, in which case that bit is cleared.
   */
  lemma SaveTouchesOnlyCurrentBits(rows: map<int, Term>, t: Term)
    requires SaveOutcome(t).Saved?
    ensures var saved := SaveOutcome(t).term;
      var after := AfterSave(rows, saved);
      && after.Keys == rows.Keys + {KeyOf(t)}
      && after[KeyOf(t)] == saved
      && forall k :: k in rows && k != KeyOf(t) ==>
           after[k] == rows[k].(current := rows[k].current && !saved.current)
  {
  }

  /** A successful save keeps the table well keyed with at most one current row. */
  lemma SaveKeepsInvariant(rows: map<int, Term>, t: Term)
    requires TableInvariant(rows)
    requires SaveOutcome(t).Saved?
    ensures TableInvariant(AfterSave(rows, SaveOutcome(t).term))
  {
    SaveTouchesOnlyCurrentBits(rows, t);
  }

  /**
   * Saving a current term leaves it the one current term, however many
   * rows were current before: the bulk update clears all the others.
   */
  lemma SavedCurrentIsTheCurrentTerm(rows: map<int, Term>, t: Term)
    requires WellKeyed(rows)
    requires SaveOutcome(t).Saved? && t.current
    ensures TableInvariant(AfterSave(rows, SaveOutcome(t).term))
    ensures GetCurrentTerm(AfterSave(rows, SaveOutcome(t).term)) == Some(SaveOutcome(t).term)
  {
    SaveTouchesOnlyCurrentBits(rows, t);
  }

  /** The table after a sequence of saves, each one applied to the result of the one before. */
  function SaveAll(rows: map<int, Term>, ts: seq<Term>): map<int, Term>
    decreases |ts|
  {
    if ts == [] then rows
    else
      var r := SaveOutcome(ts[0]);
      SaveAll(if r.Saved? then AfterSave(rows, r.term) else rows, ts[1..])
  }

  /** After any sequence of saves the table is well keyed and has at most one current term. */
  lemma {:induction false} SaveAllKeepsInvariant(rows: map<int, Term>, ts: seq<Term>)
    requires TableInvariant(rows)
    ensures TableInvariant(SaveAll(rows, ts))
    decreases |ts|
  {
    if ts != [] {
      var r := SaveOutcome(ts[0]);
      if r.Saved? {
        SaveKeepsInvariant(rows, ts[0]);
        SaveAllKeepsInvariant(AfterSave(rows, r.term), ts[1..]);
      } else {
        SaveAllKeepsInvariant(rows, ts[1..]);
      }
    }
  }

  /** The term table, with `save` as its one state-changing operation. */
  class TermTable {
    var rows: map<int, Term>

    ghost predicate Valid()
      reads this
    {
      TableInvariant(rows)
    }

    constructor ()
      ensures Valid() && rows == map[]
    {
      rows := map[];
    }

    /**
     * `Term.save`. Season `un` with year 0 does nothing; an id that disagrees
     * with the year or season is a ValueError that stores nothing; otherwise
     * the id is set to the derived key, a current term clears every other
     * current row, and the row is stored.
     */
    method Save(t: Term) returns (result: SaveResult)
      requires Valid()
      modifies this
      ensures Valid()
      ensures result == SaveOutcome(t)
      ensures result.Saved? ==> rows == AfterSave(old(rows), result.term)
      ensures !result.Saved? ==> rows == old(rows)
    {
      if t.season == Unknown && t.year == 0 {
        return Skipped;
      }
      if t.id.Some? && (t.year != t.id.value / 10 || Rank(t.season) != t.id.value % 10) {
        return KeyMismatch;
      }
      var id := t.year * 10 + Rank(t.season);
      var saved := t.(id := Some(id));
      assert SaveOutcome(t) == Saved(saved);
      ghost var before := rows;
      if saved.current {
        rows := map k | k in rows :: if k != id && rows[k].current then rows[k].(current := false) else rows[k];
      }
      rows := rows[id := saved];
      assert rows == AfterSave(before, saved);
      result := Saved(saved);
      SaveKeepsInvariant(before, t);
    }
  }
}
