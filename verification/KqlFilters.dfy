/** A renderer for filters, the proof that parsing undoes it, and where the filter parser stops. */
module KqlFilters {
  import opened Results
  import opened Text
  import opened Kql

  // ---------------------------------------------------------------------------
  // Which filters and queries parsing can return
  // ---------------------------------------------------------------------------

  /** Lists have at least two terms, and thresholds fit a byte. */
  ghost predicate FilterOk(f: Filter) {
    match f
    case Confidence(_, value) => value <= U8_MAX
    case And(terms) => |terms| >= 2 && forall i :: 0 <= i < |terms| ==> FilterOk(terms[i])
    case Or(terms) => |terms| >= 2 && forall i :: 0 <= i < |terms| ==> FilterOk(terms[i])
    case Not(inner) => FilterOk(inner)
  }

  // ---------------------------------------------------------------------------
  // Rendering filters
  // ---------------------------------------------------------------------------

  /** Orders the three levels so that rendering a filter at one level may fall back to another. */
  ghost function Rank(f: Filter, level: nat): nat {
    match f
    case Or(_) => if level == 0 then 0 else if level == 1 then 2 else 1
    case And(_) => if level == 0 then 1 else if level == 1 then 0 else 2
    case _ => if level == 0 then 2 else if level == 1 then 1 else 0
  }

  /** Rendered where an `OR` list may stand. */
  ghost function RenderOr(f: Filter): seq<Tok>
    decreases f, Rank(f, 0)
  {
    match f
    case Or(terms) => if terms == [] then [] else RenderAnd(terms[0]) + OrTail(terms[1..])
    case _ => RenderAnd(f)
  }

  ghost function OrTail(terms: seq<Filter>): seq<Tok>
    decreases terms, 0
  {
    if terms == [] then [] else [Word("OR")] + RenderAnd(terms[0]) + OrTail(terms[1..])
  }

  /** Rendered where an `AND` list may stand. */
  ghost function RenderAnd(f: Filter): seq<Tok>
    decreases f, Rank(f, 1)
  {
    match f
    case And(terms) => if terms == [] then [] else RenderNot(terms[0]) + AndTail(terms[1..])
    case _ => RenderNot(f)
  }

  ghost function AndTail(terms: seq<Filter>): seq<Tok>
    decreases terms, 0
  {
    if terms == [] then [] else [Word("AND")] + RenderNot(terms[0]) + AndTail(terms[1..])
  }

  /** Rendered as a single operand: lists go in parentheses. */
  ghost function RenderNot(f: Filter): seq<Tok>
    decreases f, Rank(f, 2)
  {
    match f
    case Not(inner) => [Word("NOT")] + RenderNot(inner)
    case Confidence(op, value) => [Word("Confidence"), Op(op), Word(Decimal(value))]
    case _ => [LParen] + RenderOr(f) + [RParen]
  }

  // ---------------------------------------------------------------------------
  // Parsing a rendered filter
  // ---------------------------------------------------------------------------

  lemma Keywords()
    ensures EqIgnoreCase("OR", "OR") && EqIgnoreCase("AND", "AND") && EqIgnoreCase("NOT", "NOT")
    ensures !EqIgnoreCase("Confidence", "NOT") && EqIgnoreCase("Confidence", "Confidence")
    ensures !EqIgnoreCase("OR", "AND") && !EqIgnoreCase("AND", "OR")
  {
    assert |Upper("Confidence")| == 10 && |Upper("NOT")| == 3;
    assert |Upper("OR")| == 2 && |Upper("AND")| == 3;
  }

  lemma {:induction false} OrRoundTrip(f: Filter, rest: seq<Tok>)
    requires FilterOk(f) && !AtKeyword(rest, "OR") && !AtKeyword(rest, "AND")
    ensures ParseOr(RenderOr(f) + rest) == Ok((f, rest))
    decreases f, Rank(f, 0)
  {
    match f {
      case Or(terms) =>
        var first, tail := terms[0], OrTail(terms[1..]) + rest;
        assert RenderOr(f) + rest == RenderAnd(first) + tail;
        OrTailNotAnd(terms[1..], rest);
        AndRoundTrip(first, tail);
        OrTailRoundTrip(terms, 1, rest);
        assert terms[..1] == [first];
      case _ =>
        AndRoundTrip(f, rest);
    }
  }

  lemma OrTailNotAnd(terms: seq<Filter>, rest: seq<Tok>)
    requires !AtKeyword(rest, "AND")
    ensures !AtKeyword(OrTail(terms) + rest, "AND")
  {
    Keywords();
    if terms == [] {
      assert OrTail(terms) + rest == rest;
    } else {
      assert (OrTail(terms) + rest)[0] == Word("OR");
    }
  }

  lemma {:induction false} OrTailRoundTrip(terms: seq<Filter>, i: nat, rest: seq<Tok>)
    requires 1 <= i <= |terms| && |terms| >= 2 && forall j :: 0 <= j < |terms| ==> FilterOk(terms[j])
    requires !AtKeyword(rest, "OR") && !AtKeyword(rest, "AND")
    ensures ParseOrRest(OrTail(terms[i..]) + rest, terms[..i]) == Ok((Or(terms), rest))
    decreases terms, |terms| - i
  {
    hide RenderAnd, ParseAnd, FilterOk;
    if i == |terms| {
      assert OrTail(terms[i..]) + rest == rest;
      assert terms[..i] == terms;
    } else {
      Keywords();
      var ts := OrTail(terms[i..]) + rest;
      var after := OrTail(terms[i + 1..]) + rest;
      assert terms[i..][1..] == terms[i + 1..];
      assert ts == [Word("OR")] + (RenderAnd(terms[i]) + after);
      assert ts[1..] == RenderAnd(terms[i]) + after;
      OrTailNotAnd(terms[i + 1..], rest);
      AndRoundTrip(terms[i], after);
      assert terms[..i] + [terms[i]] == terms[..i + 1];
      OrTailRoundTrip(terms, i + 1, rest);
    }
  }

  lemma {:induction false} AndRoundTrip(f: Filter, rest: seq<Tok>)
    requires FilterOk(f) && !AtKeyword(rest, "AND")
    ensures ParseAnd(RenderAnd(f) + rest) == Ok((f, rest))
    decreases f, Rank(f, 1)
  {
    match f {
      case And(terms) =>
        var first, tail := terms[0], AndTail(terms[1..]) + rest;
        assert RenderAnd(f) + rest == RenderNot(first) + tail;
        NotRoundTrip(first, tail);
        AndTailRoundTrip(terms, 1, rest);
        assert terms[..1] == [first];
      case _ =>
        NotRoundTrip(f, rest);
    }
  }

  lemma {:induction false} AndTailRoundTrip(terms: seq<Filter>, i: nat, rest: seq<Tok>)
    requires 1 <= i <= |terms| && |terms| >= 2 && forall j :: 0 <= j < |terms| ==> FilterOk(terms[j])
    requires !AtKeyword(rest, "AND")
    ensures ParseAndRest(AndTail(terms[i..]) + rest, terms[..i]) == Ok((And(terms), rest))
    decreases terms, |terms| - i
  {
    hide RenderNot, ParseNot, FilterOk;
    if i == |terms| {
      assert AndTail(terms[i..]) + rest == rest;
      assert terms[..i] == terms;
    } else {
      Keywords();
      var ts := AndTail(terms[i..]) + rest;
      var after := AndTail(terms[i + 1..]) + rest;
      assert terms[i..][1..] == terms[i + 1..];
      assert ts == [Word("AND")] + (RenderNot(terms[i]) + after);
      assert ts[1..] == RenderNot(terms[i]) + after;
      NotRoundTrip(terms[i], after);
      assert terms[..i] + [terms[i]] == terms[..i + 1];
      AndTailRoundTrip(terms, i + 1, rest);
    }
  }

  lemma ComparisonRoundTrip(op: CmpOp, value: nat, rest: seq<Tok>)
    requires value <= U8_MAX
    ensures ParseNot([Word("Confidence"), Op(op), Word(Decimal(value))] + rest) == Ok((Confidence(op, value), rest))
  {
    hide Decimal, ParseUnsigned;
    Keywords();
    ParsePrinted(value, U8_MAX);
    var ts := [Word("Confidence"), Op(op), Word(Decimal(value))] + rest;
    assert ts[1..] == [Op(op), Word(Decimal(value))] + rest;
    assert ts[1..][1..] == [Word(Decimal(value))] + rest;
    assert ts[1..][1..][1..] == rest;
  }

  lemma {:induction false} NotRoundTrip(f: Filter, rest: seq<Tok>)
    requires FilterOk(f)
    ensures ParseNot(RenderNot(f) + rest) == Ok((f, rest))
    decreases f, Rank(f, 2)
  {
    Keywords();
    var ts := RenderNot(f) + rest;
    match f {
      case Not(inner) =>
        assert ts == [Word("NOT")] + (RenderNot(inner) + rest);
        NotRoundTrip(inner, rest);
      case Confidence(op, value) =>
        ComparisonRoundTrip(op, value, rest);
      case _ =>
        assert ts == [LParen] + (RenderOr(f) + ([RParen] + rest));
        OrRoundTrip(f, [RParen] + rest);
        assert ([RParen] + rest)[1..] == rest;
    }
  }

  // ---------------------------------------------------------------------------
  // What the filter parser returns, and where it stops
  // ---------------------------------------------------------------------------

  ghost predicate Suffix(rest: seq<Tok>, ts: seq<Tok>) {
    |rest| <= |ts| && rest == ts[|ts| - |rest|..]
  }

  lemma SuffixStep(a: seq<Tok>, b: seq<Tok>, c: seq<Tok>)
    requires Suffix(a, b) && Suffix(b, c)
    ensures Suffix(a, c)
  {
  }

  /** A parsed filter is well formed, and the parser stops at the first token that cannot continue it. */
  lemma {:induction false} OrSound(ts: seq<Tok>)
    requires ParseOr(ts).Ok?
    ensures var (f, rest) := ParseOr(ts).value;
            FilterOk(f) && Suffix(rest, ts) && !AtKeyword(rest, "OR") && !AtKeyword(rest, "AND")
    decreases |ts|, 4
  {
    AndSound(ts);
    var (first, rest) := ParseAnd(ts).value;
    OrRestSound(rest, [first]);
    SuffixStep(ParseOr(ts).value.1, rest, ts);
  }

  lemma {:induction false} OrRestSound(ts: seq<Tok>, terms: seq<Filter>)
    requires terms != [] && (forall i :: 0 <= i < |terms| ==> FilterOk(terms[i])) && !AtKeyword(ts, "AND")
    requires ParseOrRest(ts, terms).Ok?
    ensures var (f, rest) := ParseOrRest(ts, terms).value;
            FilterOk(f) && Suffix(rest, ts) && !AtKeyword(rest, "OR") && !AtKeyword(rest, "AND")
    decreases |ts|, 0
  {
    if AtKeyword(ts, "OR") {
      AndSound(ts[1..]);
      var (next, rest) := ParseAnd(ts[1..]).value;
      OrRestSound(rest, terms + [next]);
      assert Suffix(rest, ts);
      SuffixStep(ParseOrRest(ts, terms).value.1, rest, ts);
    }
  }

  lemma {:induction false} AndSound(ts: seq<Tok>)
    requires ParseAnd(ts).Ok?
    ensures var (f, rest) := ParseAnd(ts).value;
            FilterOk(f) && Suffix(rest, ts) && !AtKeyword(rest, "AND")
    decreases |ts|, 3
  {
    NotSound(ts);
    var (first, rest) := ParseNot(ts).value;
    AndRestSound(rest, [first]);
    SuffixStep(ParseAnd(ts).value.1, rest, ts);
  }

  lemma {:induction false} AndRestSound(ts: seq<Tok>, terms: seq<Filter>)
    requires terms != [] && forall i :: 0 <= i < |terms| ==> FilterOk(terms[i])
    requires ParseAndRest(ts, terms).Ok?
    ensures var (f, rest) := ParseAndRest(ts, terms).value;
            FilterOk(f) && Suffix(rest, ts) && !AtKeyword(rest, "AND")
    decreases |ts|, 0
  {
    if AtKeyword(ts, "AND") {
      NotSound(ts[1..]);
      var (next, rest) := ParseNot(ts[1..]).value;
      AndRestSound(rest, terms + [next]);
      assert Suffix(rest, ts);
      SuffixStep(ParseAndRest(ts, terms).value.1, rest, ts);
    }
  }

  lemma {:induction false} NotSound(ts: seq<Tok>)
    requires ParseNot(ts).Ok?
    ensures var (f, rest) := ParseNot(ts).value; FilterOk(f) && Suffix(rest, ts)
    decreases |ts|, 2
  {
    if AtKeyword(ts, "NOT") {
      NotSound(ts[1..]);
    } else if ts[0].LParen? {
      OrSound(ts[1..]);
    }
  }
}
