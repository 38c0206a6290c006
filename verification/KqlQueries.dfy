/** A renderer for whole queries, and the proof that parsing undoes it. */
module KqlQueries {
  import opened Results
  import opened Text
  import opened Kql
  import opened KqlFilters

  predicate WordOk(w: string) {
    w != "" && forall i :: 0 <= i < |w| ==> WordChar(w[i])
  }

  predicate TextOk(t: string) {
    '"' !in t
  }

  /** The queries that parsing can return, before the default for `RETURN` is filled in. */
  ghost predicate ClausesOk(q: Query) {
    && (q.kind.Some? ==> WordOk(q.kind.value) && q.kind.value != "*" && !IsClause(q.kind.value))
    && (q.text.Some? ==> TextOk(q.text.value))
    && (q.related.Some? ==> WordOk(q.related.value))
    && (q.via.Some? ==> q.related.Some? && WordOk(q.via.value))
    && (forall i :: 0 <= i < |q.filters| ==> FilterOk(q.filters[i]))
    && (q.before.Some? ==> IsIsoDate(q.before.value) && WordOk(q.before.value))
    && (q.after.Some? ==> IsIsoDate(q.after.value) && WordOk(q.after.value))
    && (q.limit.Some? ==> q.limit.value <= USIZE_MAX)
  }

  ghost predicate QueryOk(q: Query) {
    ClausesOk(q) && q.targets != []
  }

  ghost function RenderSelector(q: Query): seq<Tok> {
    (if q.kind.Some? then [Word(q.kind.value)] else if q.text.Some? then [] else [Word("*")])
    + (if q.text.Some? then [Str(q.text.value)] else [])
  }

  ghost function RenderFilters(filters: seq<Filter>): seq<Tok> {
    if filters == [] then [] else [Word("FILTER")] + RenderOr(filters[0]) + RenderFilters(filters[1..])
  }

  ghost function TargetName(t: ReturnTarget): string {
    match t
    case ReturnGraph => "Graph"
    case ReturnSources => "Sources"
    case ReturnDocuments => "Documents"
  }

  ghost function RenderTargets(targets: seq<ReturnTarget>): seq<Tok> {
    if targets == [] then []
    else [Word(TargetName(targets[0]))] + (if |targets| == 1 then [] else [Plus] + RenderTargets(targets[1..]))
  }

  ghost function RenderReturn(q: Query): seq<Tok> {
    [Word("RETURN")] + RenderTargets(q.targets)
  }

  ghost function RenderLimit(q: Query): seq<Tok> {
    (if q.limit.Some? then [Word("LIMIT"), Word(Decimal(q.limit.value))] else []) + RenderReturn(q)
  }

  ghost function RenderOrder(q: Query): seq<Tok> {
    (if q.order.Some? then
       [Word("ORDER"), Word("BY"), Word("Confidence"), Word(if q.order.value.Asc? then "ASC" else "DESC")]
     else []) + RenderLimit(q)
  }

  ghost function DateClause(keyword: string, date: Option<string>): seq<Tok> {
    if date.Some? then [Word(keyword), Word(date.value)] else []
  }

  ghost function RenderAfter(q: Query): seq<Tok> {
    DateClause("AFTER", q.after) + RenderOrder(q)
  }

  ghost function RenderBefore(q: Query): seq<Tok> {
    DateClause("BEFORE", q.before) + RenderAfter(q)
  }

  ghost function RelatedClause(q: Query): seq<Tok> {
    if q.related.Some? then
      [Word("RELATED"), Word(q.related.value)] + (if q.via.Some? then [Word("VIA"), Word(q.via.value)] else [])
    else []
  }

  ghost function RenderRelated(q: Query): seq<Tok> {
    RelatedClause(q) + (RenderFilters(q.filters) + RenderBefore(q))
  }

  ghost function RenderQuery(q: Query): seq<Tok> {
    [Word("FIND")] + RenderSelector(q) + RenderRelated(q)
  }

  /** The keywords the renderer writes are in upper case already. */
  lemma UpperWords()
    ensures forall w :: w in CLAUSES ==> Upper(w) == w
    ensures Upper("FIND") == "FIND" && Upper("BY") == "BY" && Upper("VIA") == "VIA"
    ensures Upper("ASC") == "ASC" && Upper("DESC") == "DESC" && Upper("*") == "*"
    ensures Upper("AND") == "AND" && Upper("OR") == "OR"
    ensures Upper("Graph") == "GRAPH" && Upper("Sources") == "SOURCES" && Upper("Documents") == "DOCUMENTS"
  {
  }

  /** Nothing, or the keyword of a further clause. */
  ghost predicate ClauseNext(rest: seq<Tok>) {
    rest == [] || (rest[0].Word? && rest[0].word in CLAUSES)
  }

  lemma ClauseEndsFilter(rest: seq<Tok>)
    requires ClauseNext(rest)
    ensures !AtKeyword(rest, "OR") && !AtKeyword(rest, "AND") && !AtKeyword(rest, "VIA")
  {
    UpperWords();
  }

  lemma TailsAreClauses(q: Query)
    ensures ClauseNext(RenderReturn(q)) && ClauseNext(RenderLimit(q)) && ClauseNext(RenderOrder(q))
    ensures ClauseNext(RenderAfter(q)) && ClauseNext(RenderBefore(q))
    ensures ClauseNext(RenderFilters(q.filters) + RenderBefore(q)) && ClauseNext(RenderRelated(q))
  {
    if q.filters != [] {
      assert (RenderFilters(q.filters) + RenderBefore(q))[0] == Word("FILTER");
    } else {
      assert RenderFilters(q.filters) + RenderBefore(q) == RenderBefore(q);
    }
    if q.related.Some? {
      assert RenderRelated(q)[0] == Word("RELATED");
    } else {
      assert RenderRelated(q) == RenderFilters(q.filters) + RenderBefore(q);
    }
  }

  /** A clause that parses as expected hands over to the rest. */
  lemma ClauseStep(keyword: string, body: seq<Tok>, rest: seq<Tok>, q: Query, q': Query)
    requires keyword in CLAUSES && ParseClause(keyword, body + rest, q) == Ok((q', rest))
    ensures ParseClauses([Word(keyword)] + body + rest, q) == ParseClauses(rest, q')
  {
    UpperWords();
    assert ([Word(keyword)] + body + rest)[1..] == body + rest;
  }

  // ---------------------------------------------------------------------------
  // Parsing a rendered query
  // ---------------------------------------------------------------------------

  lemma TargetNamesKnown(t: ReturnTarget)
    ensures TargetOf(TargetName(t)) == Some(t)
  {
    UpperWords();
  }

  lemma LastTarget(t: ReturnTarget, rest: seq<Tok>)
    requires rest == [] || !rest[0].Plus?
    ensures ParseReturns([Word(TargetName(t))] + rest) == Ok(([t], rest))
  {
    TargetNamesKnown(t);
    hide TargetOf, TargetName;
    assert ([Word(TargetName(t))] + rest)[1..] == rest;
  }

  lemma FurtherTarget(t: ReturnTarget, ts: seq<Tok>)
    requires ParseReturns(ts).Ok?
    ensures ParseReturns([Word(TargetName(t)), Plus] + ts)
         == Ok(([t] + ParseReturns(ts).value.0, ParseReturns(ts).value.1))
  {
    TargetNamesKnown(t);
    hide TargetOf, TargetName;
    var all := [Word(TargetName(t)), Plus] + ts;
    assert all[1..] == [Plus] + ts && all[1..][1..] == ts;
  }

  lemma {:induction false} TargetsRoundTrip(targets: seq<ReturnTarget>, rest: seq<Tok>)
    requires targets != [] && (rest == [] || !rest[0].Plus?)
    ensures ParseReturns(RenderTargets(targets) + rest) == Ok((targets, rest))
  {
    hide ParseReturns, TargetName;
    if |targets| == 1 {
      assert RenderTargets(targets) == [Word(TargetName(targets[0]))];
      LastTarget(targets[0], rest);
      assert targets == [targets[0]];
    } else {
      var more := RenderTargets(targets[1..]) + rest;
      assert RenderTargets(targets) + rest == [Word(TargetName(targets[0])), Plus] + more;
      TargetsRoundTrip(targets[1..], rest);
      FurtherTarget(targets[0], more);
      assert targets == [targets[0]] + targets[1..];
    }
  }

  lemma ReturnRoundTrip(q: Query, acc: Query)
    requires q.targets != []
    ensures ParseClauses(RenderReturn(q), acc) == Ok(acc.(targets := q.targets))
  {
    var body := RenderTargets(q.targets);
    TargetsRoundTrip(q.targets, []);
    assert body + [] == body;
    ClauseStep("RETURN", body, [], acc, acc.(targets := q.targets));
    assert [Word("RETURN")] + body + [] == RenderReturn(q);
  }

  lemma LimitNumber(n: nat, rest: seq<Tok>)
    requires n <= USIZE_MAX
    ensures ParseLimit([Word(Decimal(n))] + rest) == Ok((n, rest))
  {
    hide ParseUnsigned, Decimal;
    ParsePrinted(n, USIZE_MAX);
    assert ([Word(Decimal(n))] + rest)[1..] == rest;
  }

  lemma LimitRoundTrip(q: Query, acc: Query)
    requires (q.limit.Some? ==> q.limit.value <= USIZE_MAX) && acc.limit.None?
    ensures ParseClauses(RenderLimit(q), acc) == ParseClauses(RenderReturn(q), acc.(limit := q.limit))
  {
    hide RenderReturn, ParseClauses, ParseLimit, Decimal;
    var rest := RenderReturn(q);
    if q.limit.Some? {
      LimitNumber(q.limit.value, rest);
      var body := [Word(Decimal(q.limit.value))];
      ClauseStep("LIMIT", body, rest, acc, acc.(limit := q.limit));
      assert [Word("LIMIT")] + body + rest == RenderLimit(q);
    } else {
      assert RenderLimit(q) == rest;
    }
  }

  lemma OrderRoundTrip(q: Query, acc: Query)
    requires acc.order.None?
    ensures ParseClauses(RenderOrder(q), acc) == ParseClauses(RenderLimit(q), acc.(order := q.order))
  {
    hide RenderLimit, ParseOrder, ParseClauses;
    var rest := RenderLimit(q);
    if q.order.Some? {
      var body := [Word("BY"), Word("Confidence"), Word(if q.order.value.Asc? then "ASC" else "DESC")];
      DirectionRoundTrip(q.order.value, rest);
      ClauseStep("ORDER", body, rest, acc, acc.(order := q.order));
      assert [Word("ORDER")] + body + rest == RenderOrder(q);
    } else {
      assert RenderOrder(q) == rest;
    }
  }

  lemma DirectionRoundTrip(dir: SortDir, rest: seq<Tok>)
    ensures ParseOrder([Word("BY"), Word("Confidence"), Word(if dir.Asc? then "ASC" else "DESC")] + rest)
            == Ok((dir, rest))
  {
    UpperWords();
    var body := [Word("BY"), Word("Confidence"), Word(if dir.Asc? then "ASC" else "DESC")] + rest;
    assert body[1..][0] == Word("Confidence");
    assert body[1..][1..] == [Word(if dir.Asc? then "ASC" else "DESC")] + rest;
    assert body[1..][1..][1..] == rest;
  }

  lemma DateRoundTrip(date: string, rest: seq<Tok>)
    requires IsIsoDate(date)
    ensures ParseDate([Word(date)] + rest) == Ok((date, rest))
  {
    assert ([Word(date)] + rest)[1..] == rest;
  }

  lemma DateClauseRoundTrip(keyword: string, date: Option<string>, rest: seq<Tok>, acc: Query, acc': Query)
    requires date.Some? ==> IsIsoDate(date.value)
    requires || (keyword == "BEFORE" && acc.before.None? && acc' == acc.(before := date))
             || (keyword == "AFTER" && acc.after.None? && acc' == acc.(after := date))
    ensures ParseClauses(DateClause(keyword, date) + rest, acc) == ParseClauses(rest, acc')
  {
    hide IsIsoDate, ParseClauses, ParseDate;
    if date.Some? {
      DateRoundTrip(date.value, rest);
      ClauseStep(keyword, [Word(date.value)], rest, acc, acc');
      assert [Word(keyword)] + [Word(date.value)] + rest == DateClause(keyword, date) + rest;
    } else {
      assert DateClause(keyword, date) + rest == rest;
    }
  }

  lemma {:induction false} FiltersRoundTrip(filters: seq<Filter>, rest: seq<Tok>, acc: Query)
    requires ClauseNext(rest) && forall i :: 0 <= i < |filters| ==> FilterOk(filters[i])
    ensures ParseClauses(RenderFilters(filters) + rest, acc)
         == ParseClauses(rest, acc.(filters := acc.filters + filters))
  {
    hide RenderOr, FilterOk, ParseOr, ParseClauses;
    if filters == [] {
      assert RenderFilters(filters) + rest == rest;
      assert acc.filters + filters == acc.filters;
    } else {
      var f, more := filters[0], RenderFilters(filters[1..]) + rest;
      assert ClauseNext(more) by {
        if filters[1..] != [] { assert more[0] == Word("FILTER"); } else { assert more == rest; }
      }
      ClauseEndsFilter(more);
      OrRoundTrip(f, more);
      var acc' := acc.(filters := acc.filters + [f]);
      ClauseStep("FILTER", RenderOr(f), more, acc, acc');
      assert RenderFilters(filters) + rest == [Word("FILTER")] + RenderOr(f) + more;
      FiltersRoundTrip(filters[1..], rest, acc');
      assert acc'.filters + filters[1..] == acc.filters + filters;
    }
  }

  lemma RelatedBody(q: Query, rest: seq<Tok>, acc: Query)
    requires q.related.Some? && !AtKeyword(rest, "VIA") && acc.via.None?
    ensures var via := if q.via.Some? then [Word("VIA"), Word(q.via.value)] else [];
            ParseClause("RELATED", [Word(q.related.value)] + via + rest, acc)
            == Ok((acc.(related := q.related, via := q.via), rest))
  {
    hide ParseOr, ParseDate, ParseOrder, ParseLimit, ParseReturns;
    var via := if q.via.Some? then [Word("VIA"), Word(q.via.value)] else [];
    assert ([Word(q.related.value)] + via + rest)[1..] == via + rest;
    if q.via.Some? {
      assert (via + rest)[1..] == [Word(q.via.value)] + rest;
      assert (via + rest)[1..][1..] == rest;
    } else {
      assert via + rest == rest;
    }
  }

  lemma RelatedRoundTrip(q: Query, rest: seq<Tok>, acc: Query)
    requires (q.via.Some? ==> q.related.Some?) && acc.related.None? && acc.via.None?
    requires ClauseNext(rest)
    ensures ParseClauses(RelatedClause(q) + rest, acc)
         == ParseClauses(rest, acc.(related := q.related, via := q.via))
  {
    hide ParseClauses, ParseClause, ClauseNext, AtKeyword;
    if q.related.Some? {
      ClauseEndsFilter(rest);
      var via := if q.via.Some? then [Word("VIA"), Word(q.via.value)] else [];
      var body := [Word(q.related.value)] + via;
      RelatedBody(q, rest, acc);
      ClauseStep("RELATED", body, rest, acc, acc.(related := q.related, via := q.via));
      assert [Word("RELATED")] + body + rest == RelatedClause(q) + rest;
    } else {
      assert RelatedClause(q) + rest == rest;
    }
  }

  lemma SelectorRoundTrip(q: Query, rest: seq<Tok>)
    requires q.kind.Some? ==> q.kind.value != "*" && !IsClause(q.kind.value)
    requires ClauseNext(rest)
    ensures ParseSelector(RenderSelector(q) + rest) == Ok((NoClauses.(kind := q.kind, text := q.text), rest))
  {
    UpperWords();
    var ts := RenderSelector(q) + rest;
    var text := if q.text.Some? then [Str(q.text.value)] else [];
    if q.kind.Some? || q.text.None? {
      assert ts[1..] == text + rest;
    } else {
      assert ts == text + rest;
    }
    if q.text.Some? {
      assert (text + rest)[1..] == rest;
    } else {
      assert text + rest == rest;
    }
  }

  lemma RendersInTurn(q: Query)
    ensures RenderRelated(q) == RelatedClause(q) + (RenderFilters(q.filters) + RenderBefore(q))
    ensures RenderBefore(q) == DateClause("BEFORE", q.before) + RenderAfter(q)
    ensures RenderAfter(q) == DateClause("AFTER", q.after) + RenderOrder(q)
  {
  }

  /** Parsing a rendered query gives the query back. */
  lemma QueryRoundTrip(q: Query)
    requires QueryOk(q)
    ensures ParseTokens(RenderQuery(q)) == Ok(q)
  {
    hide RenderRelated, RenderSelector, RenderFilters, RenderBefore, RenderAfter;
    hide RenderOrder, RenderLimit, RenderReturn, DateClause, RelatedClause, ClauseNext;
    hide ParseClauses, ParseSelector, FilterOk, IsIsoDate, WordOk, TextOk, IsClause;
    var ts := RenderQuery(q);
    UpperWords();
    TailsAreClauses(q);
    RendersInTurn(q);
    assert ts[1..] == RenderSelector(q) + RenderRelated(q);
    SelectorRoundTrip(q, RenderRelated(q));
    var q0 := NoClauses.(kind := q.kind, text := q.text);
    RelatedRoundTrip(q, RenderFilters(q.filters) + RenderBefore(q), q0);
    var q1 := q0.(related := q.related, via := q.via);
    FiltersRoundTrip(q.filters, RenderBefore(q), q1);
    assert q1.filters + q.filters == q.filters;
    var q2 := q1.(filters := q.filters);
    var q3 := q2.(before := q.before);
    var q4 := q3.(after := q.after);
    DateClauseRoundTrip("BEFORE", q.before, RenderAfter(q), q2, q3);
    DateClauseRoundTrip("AFTER", q.after, RenderOrder(q), q3, q4);
    OrderRoundTrip(q, q4);
    var q5 := q4.(order := q.order);
    LimitRoundTrip(q, q5);
    ReturnRoundTrip(q, q5.(limit := q.limit));
  }

  // ---------------------------------------------------------------------------
  // What query parsing returns
  // ---------------------------------------------------------------------------

  predicate TokOk(t: Tok) {
    (t.Word? ==> WordOk(t.word)) && (t.Str? ==> TextOk(t.text))
  }

  predicate ToksOk(ts: seq<Tok>) {
    forall i :: 0 <= i < |ts| ==> TokOk(ts[i])
  }

  lemma ReturnsSound(ts: seq<Tok>)
    requires ParseReturns(ts).Ok?
    ensures ParseReturns(ts).value.0 != [] && Suffix(ParseReturns(ts).value.1, ts)
  {
  }

  lemma RelatedSound(ts: seq<Tok>, q: Query)
    requires ToksOk(ts) && ClausesOk(q) && ParseClause("RELATED", ts, q).Ok?
    ensures var (q', rest) := ParseClause("RELATED", ts, q).value; ClausesOk(q') && Suffix(rest, ts)
  {
    hide FilterOk, WordOk, TextOk, IsIsoDate;
    hide ParseOr, ParseDate, ParseOrder, ParseLimit, ParseReturns;
    assert TokOk(ts[0]);
    if AtKeyword(ts[1..], "VIA") {
      assert TokOk(ts[2]);
    }
  }

  lemma NumberSound(ts: seq<Tok>)
    requires ParseLimit(ts).Ok?
    ensures ParseLimit(ts).value.0 <= USIZE_MAX && Suffix(ParseLimit(ts).value.1, ts)
  {
  }

  lemma DateSound(ts: seq<Tok>)
    requires ToksOk(ts) && ParseDate(ts).Ok?
    ensures var (d, rest) := ParseDate(ts).value; IsIsoDate(d) && WordOk(d) && Suffix(rest, ts)
  {
    hide IsIsoDate, WordOk;
    assert TokOk(ts[0]);
  }

  lemma OrderSound(ts: seq<Tok>)
    requires ParseOrder(ts).Ok?
    ensures Suffix(ParseOrder(ts).value.1, ts)
  {
  }

  lemma ClauseSound(keyword: string, ts: seq<Tok>, q: Query)
    requires ToksOk(ts) && ClausesOk(q) && ParseClause(keyword, ts, q).Ok?
    ensures var (q', rest) := ParseClause(keyword, ts, q).value; ClausesOk(q') && Suffix(rest, ts)
  {
    hide FilterOk, WordOk, TextOk, IsIsoDate, ToksOk, Suffix;
    hide ParseOr, ParseDate, ParseOrder, ParseLimit, ParseReturns;
    if keyword == "RELATED" {
      RelatedSound(ts, q);
    } else if keyword == "FILTER" {
      OrSound(ts);
    } else if keyword == "RETURN" {
      ReturnsSound(ts);
    } else if keyword == "BEFORE" || keyword == "AFTER" {
      DateSound(ts);
    } else if keyword == "ORDER" {
      OrderSound(ts);
    } else {
      NumberSound(ts);
    }
  }

  lemma DefaultReturn(q: Query)
    requires ClausesOk(q)
    ensures ClausesOk(q.(targets := [ReturnDocuments]))
  {
  }

  lemma {:induction false} ClausesSound(ts: seq<Tok>, q: Query)
    requires ToksOk(ts) && ClausesOk(q) && ParseClauses(ts, q).Ok?
    ensures QueryOk(ParseClauses(ts, q).value)
    decreases |ts|
  {
    hide ParseClause, ClausesOk, TokOk;
    if ts == [] {
      DefaultReturn(q);
    } else {
      var keyword := Upper(ts[0].word);
      ClauseSound(keyword, ts[1..], q);
      var (q', rest) := ParseClause(keyword, ts[1..], q).value;
      ClausesSound(rest, q');
    }
  }
}
