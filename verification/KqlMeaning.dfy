/** What the conditions of a query mean (sdk/src/kql.rs): comparisons, filters, dates and selectors. */
module KqlMeaning {
  import opened Results
  import opened Sequences
  import opened Ordering
  import opened Text
  import opened Graph
  import opened Kql
  import opened KqlExecution

  // ---------------------------------------------------------------------------
  // Comparisons and filters
  // ---------------------------------------------------------------------------

  /** `>` and `<=` exclude each other and leave nothing out, as do `<` and `>=`; `=` is what both of `<=` and `>=`
      admit; and `>` is `<` turned round. */
  lemma ComparisonsPair(a: nat, b: nat)
    ensures Gt.Apply(a, b) <==> !Le.Apply(a, b)
    ensures Lt.Apply(a, b) <==> !Ge.Apply(a, b)
    ensures Eq.Apply(a, b) <==> Le.Apply(a, b) && Ge.Apply(a, b)
    ensures Gt.Apply(a, b) <==> Lt.Apply(b, a)
    ensures Eq.Apply(a, b) <==> a == b
  {
  }

  /** The lower the bound, the more is above it, and a bound itself is not above it. */
  lemma AboveGrows(a: nat, b: nat, lower: nat)
    requires lower < b
    ensures Gt.Apply(a, b) ==> Gt.Apply(a, lower)
    ensures Gt.Apply(b, lower) && !Gt.Apply(b, b)
  {
  }

  /** Another condition joined by `AND` admits what both admit, joined by `OR` what either admits. */
  lemma FiltersJoin(n: Node, terms: seq<Filter>, t: Filter)
    ensures Holds(n, And(terms + [t])) <==> Holds(n, And(terms)) && Holds(n, t)
    ensures Holds(n, Or(terms + [t])) <==> Holds(n, Or(terms)) || Holds(n, t)
    ensures Holds(n, And([])) && !Holds(n, Or([])) && (Holds(n, Not(t)) <==> !Holds(n, t))
  {
    var more := terms + [t];
    assert forall x :: x in more <==> x in terms || x == t;
  }

  /** Every filter of a query has to hold: one more narrows it. */
  lemma FiltersNarrow(q: Query, f: Filter, n: Node)
    ensures Admits(q.(filters := q.filters + [f]), n) <==> Admits(q, n) && Holds(n, f)
    ensures q.filters == [] ==> (Admits(q, n) <==> InTime(n, q))
  {
    hide Holds;
    assert forall x :: x in q.filters + [f] <==> x in q.filters || x == f;
  }

  // ---------------------------------------------------------------------------
  // Dates
  // ---------------------------------------------------------------------------

  datatype Day = Day(year: nat, month: nat, day: nat)

  ghost predicate DayOk(d: Day) {
    d.year <= 9999 && 1 <= d.month <= 12 && 1 <= d.day <= 31
  }

  ghost predicate Earlier(a: Day, b: Day) {
    || a.year < b.year
    || (a.year == b.year && a.month < b.month)
    || (a.year == b.year && a.month == b.month && a.day < b.day)
  }

  /** A number below 100 in two digits. */
  ghost function Pair(n: nat): string
    requires n < 100
  {
    [DigitChar(n / 10), DigitChar(n % 10)]
  }

  ghost function Printed(d: Day): string
    requires DayOk(d)
  {
    Parts(Pair(d.year / 100), Pair(d.year % 100), Pair(d.month), Pair(d.day))
  }

  ghost function Parts(century: string, year: string, month: string, day: string): string {
    century + (year + ("-" + (month + ("-" + day))))
  }

  lemma DigitCharsCompare(a: nat, b: nat)
    requires a < 10 && b < 10
    ensures DigitChar(a) < DigitChar(b) <==> a < b
    ensures DigitChar(a) == DigitChar(b) <==> a == b
    ensures DigitChar(a) as int - '0' as int == a
  {
  }

  /** The dates accepted are the printed days of years 0 to 9999, months 1 to 12 and days 1 to 31. */
  lemma DatesArePrintedDays(s: string)
    ensures IsIsoDate(s) <==> exists d :: DayOk(d) && Printed(d) == s
  {
    if d :| DayOk(d) && Printed(d) == s {
      PrintedIsDate(d);
    }
    if IsIsoDate(s) {
      var d := ReadDay(s);
    }
  }

  lemma PairReads(n: nat)
    requires n < 100
    ensures TwoDigits(Pair(n)[0], Pair(n)[1]) == n && IsDigit(Pair(n)[0]) && IsDigit(Pair(n)[1])
  {
  }

  lemma PrintedIsDate(d: Day)
    requires DayOk(d)
    ensures IsIsoDate(Printed(d))
  {
    PairReads(d.year / 100);
    PairReads(d.year % 100);
    PairReads(d.month);
    PairReads(d.day);
    hide TwoDigits, IsDigit, Pair;
    var s := Printed(d);
    assert |s| == 10 && s[5..7] == Pair(d.month) && s[8..10] == Pair(d.day);
    assert s[0..2] == Pair(d.year / 100) && s[2..4] == Pair(d.year % 100);
    assert s[5] == s[5..7][0] && s[6] == s[5..7][1] && s[8] == s[8..10][0] && s[9] == s[8..10][1];
    assert s[0] == s[0..2][0] && s[1] == s[0..2][1] && s[2] == s[2..4][0] && s[3] == s[2..4][1];
  }

  /** Two digits print the number they say. */
  lemma PairOf(a: char, b: char)
    requires IsDigit(a) && IsDigit(b)
    ensures 0 <= TwoDigits(a, b) < 100 && Pair(TwoDigits(a, b)) == [a, b]
  {
  }

  lemma ReadDay(s: string) returns (d: Day)
    requires IsIsoDate(s)
    ensures DayOk(d) && Printed(d) == s
  {
    PairOf(s[0], s[1]);
    PairOf(s[2], s[3]);
    PairOf(s[5], s[6]);
    PairOf(s[8], s[9]);
    hide TwoDigits, IsDigit, Pair;
    var century, year := TwoDigits(s[0], s[1]), TwoDigits(s[2], s[3]);
    d := Day(100 * century + year, TwoDigits(s[5], s[6]), TwoDigits(s[8], s[9]));
    assert d.year / 100 == century && d.year % 100 == year;
    assert s == s[0..2] + s[2..4] + [s[4]] + s[5..7] + [s[7]] + s[8..10];
    assert s[0..2] == [s[0], s[1]] && s[2..4] == [s[2], s[3]] && s[5..7] == [s[5], s[6]] && s[8..10] == [s[8], s[9]];
  }

  /** Texts of one length compare like what comes first in them, and then like the rest. */
  lemma {:induction false} AtMostConcat(a: string, b: string, x: string, y: string)
    requires |a| == |b|
    ensures AtMost(a + x, b + y) <==> if a == b then AtMost(x, y) else AtMost(a, b)
  {
    if a == "" {
      assert a + x == x && b + y == y;
    } else {
      AtMostConcat(a[1..], b[1..], x, y);
      assert (a + x)[1..] == a[1..] + x && (b + y)[1..] == b[1..] + y;
      assert a == [a[0]] + a[1..] && b == [b[0]] + b[1..];
    }
  }

  lemma PairsCompare(m: nat, n: nat)
    requires m < 100 && n < 100
    ensures |Pair(m)| == |Pair(n)| == 2
    ensures (Pair(m) == Pair(n) <==> m == n) && (AtMost(Pair(m), Pair(n)) <==> m <= n)
  {
    DigitCharsCompare(m / 10, n / 10);
    DigitCharsCompare(m % 10, n % 10);
    var a, b := Pair(m), Pair(n);
    assert a[1..] == [DigitChar(m % 10)] && b[1..] == [DigitChar(n % 10)];
    assert AtMost(a[1..], b[1..]) <==> a[1] <= b[1];
    assert AtMost(a, b) <==> a[0] < b[0] || (a[0] == b[0] && a[1] <= b[1]);
  }

  /** Printed days compare as text the way they follow each other. */
  lemma DatesCompare(a: Day, b: Day)
    requires DayOk(a) && DayOk(b)
    ensures AtMost(Printed(a), Printed(b)) <==> !Earlier(b, a)
    ensures Printed(a) == Printed(b) <==> a == b
  {
    PairsCompare(a.year / 100, b.year / 100);
    PairsCompare(a.year % 100, b.year % 100);
    PairsCompare(a.month, b.month);
    PairsCompare(a.day, b.day);
    hide Pair, AtMost;
    var (c, y, m, d) := (Pair(a.year / 100), Pair(a.year % 100), Pair(a.month), Pair(a.day));
    var (c', y', m', d') := (Pair(b.year / 100), Pair(b.year % 100), Pair(b.month), Pair(b.day));
    ComparesByParts(c, y, m, d, c', y', m', d');
  }

  lemma ComparesByParts(c: string, y: string, m: string, d: string, c': string, y': string, m': string, d': string)
    requires |c| == |c'| == |y| == |y'| == |m| == |m'| == |d| == |d'| == 2
    ensures AtMost(Parts(c, y, m, d), Parts(c', y', m', d')) <==>
            if c != c' then AtMost(c, c') else if y != y' then AtMost(y, y') else if m != m' then AtMost(m, m')
            else AtMost(d, d')
    ensures Parts(c, y, m, d) == Parts(c', y', m', d') <==> c == c' && y == y' && m == m' && d == d'
  {
    var p4, q4 := "-" + d, "-" + d';
    var p3, q3 := m + p4, m' + q4;
    var p2, q2 := "-" + p3, "-" + q3;
    var p1, q1 := y + p2, y' + q2;
    AtMostConcat(c, c', p1, q1);
    AtMostConcat(y, y', p2, q2);
    AtMostConcat("-", "-", p3, q3);
    AtMostConcat(m, m', p4, q4);
    AtMostConcat("-", "-", d, d');
    hide AtMost;
    EqualConcat(c, c', p1, q1);
    EqualConcat(y, y', p2, q2);
    EqualConcat("-", "-", p3, q3);
    EqualConcat(m, m', p4, q4);
    EqualConcat("-", "-", d, d');
  }

  lemma EqualConcat(a: string, b: string, x: string, y: string)
    requires |a| == |b|
    ensures a + x == b + y <==> a == b && x == y
  {
    if a + x == b + y {
      assert a == (a + x)[..|a|] && x == (a + x)[|a|..];
      assert b == (b + y)[..|b|] && y == (b + y)[|b|..];
    }
  }

  /** `BEFORE` keeps the nodes dated earlier than its day, `AFTER` those dated later; without either all nodes pass,
      with either those without a date do not. */
  lemma TimeBounds(n: Node, q: Query, date: Day, before: Day, after: Day)
    requires DayOk(date) && DayOk(before) && DayOk(after)
    requires q.before in {None, Some(Printed(before))} && q.after in {None, Some(Printed(after))}
    ensures n.date == Some(Printed(date)) ==>
              (InTime(n, q) <==> (q.before.Some? ==> Earlier(date, before)) && (q.after.Some? ==> Earlier(after, date)))
    ensures n.date.None? ==> (InTime(n, q) <==> q.before.None? && q.after.None?)
  {
    DatesCompare(before, date);
    DatesCompare(date, after);
    hide Printed, AtMost, Earlier;
  }

  // ---------------------------------------------------------------------------
  // Selectors
  // ---------------------------------------------------------------------------

  /** A selector names a kind, up to case, a text that the name contains, up to what lower-casing does, both or
      neither. */
  lemma SelectorMeans(w: Words, q: Query, n: Node)
    ensures SelectorMatches(w, q, n) <==>
            && (q.kind.None? || EqIgnoreCase(q.kind.value, NodeToken(w.lower, n.kind)))
            && (q.text.None? || OccursIn(w.lower(q.text.value), w.lower(n.name)))
  {
    if q.text.Some? {
      ContainsIsOccurs(w.lower(n.name), w.lower(q.text.value));
    }
  }

  /** Two nodes are shown alike exactly if they differ in nothing but their ids and how their kinds are spelled. */
  lemma ShownAlike(w: Words, g: Snapshot, x: NodeId, y: NodeId)
    requires x in g.nodes && y in g.nodes
    ensures Shown(w, g, x) == Shown(w, g, y) <==>
            var (m, n) := (g.nodes[x], g.nodes[y]);
            NodeToken(w.lower, m.kind) == NodeToken(w.lower, n.kind) && m.(id := n.id, kind := n.kind) == n
  {
    hide NodeToken;
  }

  /** Case and punctuation of a relation's name do not matter, letters and digits do. */
  lemma {:induction false} SquashConcat(w: Words, a: string, b: string)
    ensures Squash(w, a + b) == Squash(w, a) + Squash(w, b)
    ensures |a| == 1 ==> Squash(w, a) == if w.alphanumeric(a[0]) then w.lowerChar(a[0]) else ""
  {
    if a == "" {
      assert a + b == b;
    } else {
      assert (a + b)[1..] == a[1..] + b;
      SquashConcat(w, a[1..], b);
      if |a| == 1 {
        assert a[1..] == "";
      }
    }
  }

  // ---------------------------------------------------------------------------
  // Clauses
  // ---------------------------------------------------------------------------

  /** The words that end a selector are those that start a clause. */
  lemma ClausesAreTaken(word: string, ts: seq<Tok>, q: Query)
    ensures IsClause(word) <==> ParseClause(Upper(word), ts, q) != Err(UnknownClause)
  {
    hide ParseOr, ParseDate, ParseOrder, ParseLimit, ParseReturns, Upper;
    NoOtherError(ts);
    if ts != [] {
      NoOtherError(ts[1..]);
    }
    if ts != [] && ts[1..] != [] {
      NoOtherError(ts[1..][1..]);
    }
  }

  lemma NoOtherError(ts: seq<Tok>)
    ensures NextWord(ts) != Err(UnknownClause) && ParseOr(ts) != Err(UnknownClause)
    ensures ParseDate(ts) != Err(UnknownClause) && ParseOrder(ts) != Err(UnknownClause)
    ensures ParseLimit(ts) != Err(UnknownClause) && ParseReturns(ts) != Err(UnknownClause)
  {
    FilterErrors(ts);
    ReturnErrors(ts);
    hide ParseOr, ParseReturns;
  }

  lemma {:induction false} ReturnErrors(ts: seq<Tok>)
    ensures ParseReturns(ts) != Err(UnknownClause)
  {
    if ts != [] && ts[1..] != [] {
      ReturnErrors(ts[1..][1..]);
    }
  }

  ghost predicate FilterError(r: Result<(Filter, seq<Tok>), KqlError>) {
    r != Err(UnknownClause)
  }

  lemma {:induction false} FilterErrors(ts: seq<Tok>)
    ensures FilterError(ParseOr(ts))
    decreases |ts|, 4
  {
    AndErrors(ts);
    if ParseAnd(ts).Ok? {
      OrRestErrors(ParseAnd(ts).value.1, [ParseAnd(ts).value.0]);
    }
  }

  lemma {:induction false} OrRestErrors(ts: seq<Tok>, terms: seq<Filter>)
    requires terms != []
    ensures FilterError(ParseOrRest(ts, terms))
    decreases |ts|, 0
  {
    if AtKeyword(ts, "OR") {
      AndErrors(ts[1..]);
      var next := ParseAnd(ts[1..]);
      if next.Ok? {
        OrRestErrors(next.value.1, terms + [next.value.0]);
      }
    }
  }

  lemma {:induction false} AndErrors(ts: seq<Tok>)
    ensures FilterError(ParseAnd(ts))
    decreases |ts|, 3
  {
    NotErrors(ts);
    if ParseNot(ts).Ok? {
      AndRestErrors(ParseNot(ts).value.1, [ParseNot(ts).value.0]);
    }
  }

  lemma {:induction false} AndRestErrors(ts: seq<Tok>, terms: seq<Filter>)
    requires terms != []
    ensures FilterError(ParseAndRest(ts, terms))
    decreases |ts|, 0
  {
    if AtKeyword(ts, "AND") {
      NotErrors(ts[1..]);
      var next := ParseNot(ts[1..]);
      if next.Ok? {
        AndRestErrors(next.value.1, terms + [next.value.0]);
      }
    }
  }

  lemma {:induction false} NotErrors(ts: seq<Tok>)
    ensures FilterError(ParseNot(ts))
    decreases |ts|, 2
  {
    if AtKeyword(ts, "NOT") {
      NotErrors(ts[1..]);
    } else if ts != [] && ts[0].LParen? {
      FilterErrors(ts[1..]);
    }
  }
}
