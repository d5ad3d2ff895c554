/**
 * An academic term (quark/base/models.py, class Term): a season code and a
 * year, the primary key derived from them, the six comparison operators and
 * the names a term is shown and addressed by.
 */
module Terms {
  import opened Wrappers
  import opened Decimal

  /** The five season codes of TERM_CHOICES. */
  datatype Season = Unknown | Winter | Spring | Summer | Fall

  /** The two-character code stored in the `term` column. */
  function Code(s: Season): (c: string)
    ensures |c| == 2
  {
    match s
    case Unknown => "un"
    case Winter => "wi"
    case Spring => "sp"
    case Summer => "su"
    case Fall => "fa"
  }

  /** Which season, if any, a stored or requested code names. */
  function SeasonOfCode(c: string): (r: Option<Season>)
    ensures r.Some? ==> Code(r.value) == c
    ensures forall s :: Code(s) == c ==> r == Some(s)
  {
    if c == "un" then Some(Unknown)
    else if c == "wi" then Some(Winter)
    else if c == "sp" then Some(Spring)
    else if c == "su" then Some(Summer)
    else if c == "fa" then Some(Fall)
    else None
  }

  /** The display label of TERM_CHOICES, used by `get_term_display`. */
  function Display(s: Season): string {
    match s
    case Unknown => "Unknown"
    case Winter => "Winter"
    case Spring => "Spring"
    case Summer => "Summer"
    case Fall => "Fall"
  }

  /** TERM_MAPPING, the season's digit in the primary key. */
  function Rank(s: Season): nat {
    match s
    case Unknown => 0
    case Winter => 1
    case Spring => 2
    case Summer => 3
    case Fall => 4
  }

  /**
   * The primary key `year * 10 + TERM_MAPPING[term]`. Because the rank is a
   * single digit, the key splits back into the year and the rank.
   */
  function Key(s: Season, year: nat): (k: nat)
    ensures k / 10 == year && k % 10 == Rank(s)
  {
    year * 10 + Rank(s)
  }

  /** No two (season, year) pairs share a key. */
  lemma KeyInjective(a: Season, ya: nat, b: Season, yb: nat)
    requires Key(a, ya) == Key(b, yb)
    ensures a == b && ya == yb
  {
    assert Rank(a) == Rank(b);
  }

  /**
   * A term row. `id` is the primary key, absent until the first save;
   * `current` marks the term the organisation is in.
   */
  datatype Term = Term(id: Option<int>, season: Season, year: nat, current: bool)

  function KeyOf(t: Term): nat {
    Key(t.season, t.year)
  }

  // ---------------------------------------------------------------------
  // Comparison operators
  // ---------------------------------------------------------------------

  /** The right-hand operand of a comparison: a term, or any other value. */
  datatype Operand = AsTerm(term: Term) | NotATerm

  /**
   * What each operator compares against: a non-term operand is replaced by an
   * unsaved term of season `un` in the current calendar year.
   */
  function Coerce(other: Operand, nowYear: nat): (t: Term)
    ensures other.NotATerm? ==> t.season == Unknown && t.year == nowYear
  {
    match other
    case AsTerm(t) => t
    case NotATerm => Term(None, Unknown, nowYear, false)
  }

  /** `__lt__`: by year, then by season rank. */
  predicate Lt(a: Term, other: Operand, nowYear: nat) {
    var b := Coerce(other, nowYear);
    if a.year < b.year then true
    else if a.year > b.year then false
    else Rank(a.season) < Rank(b.season)
  }

  /** `__le__`: not (other < self). */
  predicate Le(a: Term, other: Operand, nowYear: nat) {
    !Lt(Coerce(other, nowYear), AsTerm(a), nowYear)
  }

  /** `__eq__`: same season code and same year; id and `current` are ignored. */
  predicate Eq(a: Term, other: Operand, nowYear: nat) {
    var b := Coerce(other, nowYear);
    a.season == b.season && a.year == b.year
  }

  /** `__ne__`: not `__eq__`. */
  predicate Ne(a: Term, other: Operand, nowYear: nat) {
    !Eq(a, AsTerm(Coerce(other, nowYear)), nowYear)
  }

  /** `__gt__`: other < self. */
  predicate Gt(a: Term, other: Operand, nowYear: nat) {
    Lt(Coerce(other, nowYear), AsTerm(a), nowYear)
  }

  /** `__ge__`: not (self < other). */
  predicate Ge(a: Term, other: Operand, nowYear: nat) {
    !Lt(a, AsTerm(Coerce(other, nowYear)), nowYear)
  }

  /** `<` on terms is `<` on their primary keys. */
  lemma LtIsKeyOrder(a: Term, b: Term, nowYear: nat)
    ensures Lt(a, AsTerm(b), nowYear) <==> KeyOf(a) < KeyOf(b)
  {
    var ka, kb := KeyOf(a), KeyOf(b);
    assert ka / 10 == a.year && ka % 10 == Rank(a.season);
    assert kb / 10 == b.year && kb % 10 == Rank(b.season);
    if a.year < b.year {
      assert ka < kb by {
        assert ka == a.year * 10 + Rank(a.season);
        assert kb == b.year * 10 + Rank(b.season);
        assert (a.year + 1) * 10 <= b.year * 10;
      }
    } else if a.year > b.year {
      assert kb < ka by {
        assert ka == a.year * 10 + Rank(a.season);
        assert kb == b.year * 10 + Rank(b.season);
        assert (b.year + 1) * 10 <= a.year * 10;
      }
    }
  }

  /** `==` on terms is equality of their primary keys. */
  lemma EqIsKeyEquality(a: Term, b: Term, nowYear: nat)
    ensures Eq(a, AsTerm(b), nowYear) <==> KeyOf(a) == KeyOf(b)
  {
    if KeyOf(a) == KeyOf(b) {
      KeyInjective(a.season, a.year, b.season, b.year);
    }
  }

  /**
   * The six operators agree with the key order of the coerced operand, so
   * exactly one of `<`, `==`, `>` holds and `<=`, `>=`, `!=` are the
   * expected combinations.
   */
  lemma OperatorsFollowKeyOrder(a: Term, other: Operand, nowYear: nat)
    ensures var kb := KeyOf(Coerce(other, nowYear));
      && (Lt(a, other, nowYear) <==> KeyOf(a) < kb)
      && (Le(a, other, nowYear) <==> KeyOf(a) <= kb)
      && (Eq(a, other, nowYear) <==> KeyOf(a) == kb)
      && (Ne(a, other, nowYear) <==> KeyOf(a) != kb)
      && (Gt(a, other, nowYear) <==> KeyOf(a) > kb)
      && (Ge(a, other, nowYear) <==> KeyOf(a) >= kb)
  {
    var b := Coerce(other, nowYear);
    assert Coerce(AsTerm(b), nowYear) == b;
    assert Coerce(AsTerm(a), nowYear) == a;
    LtIsKeyOrder(a, b, nowYear);
    LtIsKeyOrder(b, a, nowYear);
    EqIsKeyEquality(a, b, nowYear);
  }

  /**
   * Against a non-term value a term compares as against `un` of the current
   * year: it is smaller only in an earlier year, and equal only when it is
   * itself `un` of this year.
   */
  lemma NonTermIsUnknownOfThisYear(a: Term, nowYear: nat)
    ensures Lt(a, NotATerm, nowYear) <==> a.year < nowYear
    ensures Eq(a, NotATerm, nowYear) <==> a.season == Unknown && a.year == nowYear
    ensures Gt(a, NotATerm, nowYear) <==> a.year > nowYear || (a.year == nowYear && a.season != Unknown)
  {
  }

  // ---------------------------------------------------------------------
  // Names
  // ---------------------------------------------------------------------

  /**
   * `get_url_name`: the season code followed by the decimal year, as in
   * "fa2012". The first two characters give the season back and the rest
   * parses back to the year.
   */
  function UrlName(t: Term): (name: string)
    ensures |name| >= 3
    ensures SeasonOfCode(name[..2]) == Some(t.season)
    ensures ParseInt(name[2..]) == Some(t.year)
  {
    var name := Code(t.season) + NatToString(t.year);
    assert name[..2] == Code(t.season);
    assert name[2..] == NatToString(t.year);
    ParseNatToString(t.year);
    name
  }

  /** Two terms with the same URL name have the same season and year. */
  lemma UrlNameInjective(a: Term, b: Term)
    requires UrlName(a) == UrlName(b)
    ensures a.season == b.season && a.year == b.year
  {
  }

  /** `verbose_name`: the season's display label, a space and the year, as in "Fall 2012". */
  function VerboseName(t: Term): string {
    Display(t.season) + " " + NatToString(t.year)
  }

  /** `__unicode__`: the verbose name, with " (Current)" appended for the current term. */
  function Describe(t: Term): (r: string)
    ensures |r| >= |VerboseName(t)| && r[..|VerboseName(t)|] == VerboseName(t)
    ensures t.current <==> r[|r| - 1] == ')'
  {
    var v := VerboseName(t);
    assert IsDigit(v[|v| - 1]);
    if t.current then v + " (Current)" else v
  }

  /** Two terms with the same verbose name have the same season and year. */
  lemma VerboseNameInjective(a: Term, b: Term)
    requires VerboseName(a) == VerboseName(b)
    ensures a.season == b.season && a.year == b.year
  {
    var v := VerboseName(a);
    var da, db := Display(a.season), Display(b.season);
    // Each label is followed by the first space of the name.
    assert v[..|da|] == da && v[|da|] == ' ';
    assert v[..|db|] == db && v[|db|] == ' ';
    assert a.season == b.season;
    var d := Display(a.season);
    assert NatToString(a.year) == v[|d| + 1..] == NatToString(b.year);
    NatToStringInjective(a.year, b.year);
  }
}
