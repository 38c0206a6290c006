/** The knowledge query language (sdk/src/kql.rs): queries, tokens, and the grammar as functions on what is
    left of the token list. */
module Kql {
  import opened Results
  import opened Text

  // ---------------------------------------------------------------------------
  // Queries
  // ---------------------------------------------------------------------------

  datatype CmpOp = Gt | Ge | Lt | Le | Eq {
    predicate Apply(lhs: nat, rhs: nat) {
      match this
      case Gt => lhs > rhs
      case Ge => lhs >= rhs
      case Lt => lhs < rhs
      case Le => lhs <= rhs
      case Eq => lhs == rhs
    }
  }

  datatype Filter =
    | Confidence(op: CmpOp, value: nat)
    | And(terms: seq<Filter>)
    | Or(terms: seq<Filter>)
    | Not(inner: Filter)

  datatype SortDir = Asc | Desc

  datatype ReturnTarget = ReturnGraph | ReturnSources | ReturnDocuments

  datatype Query = Query(
    kind: Option<string>, text: Option<string>,
    related: Option<string>, via: Option<string>,
    filters: seq<Filter>,
    before: Option<string>, after: Option<string>,
    order: Option<SortDir>, limit: Option<nat>,
    targets: seq<ReturnTarget>)

  datatype KqlError =
    | UnterminatedString | EmptyQuery | MissingFind | MissingSelector
    | ExpectedWord | ExpectedClause | UnknownClause | ExpectedParen
    | UnsupportedField | ExpectedOperator | BadValue | BadDate | BadLimit | UnknownTarget

  const U8_MAX: nat := 255
  const USIZE_MAX: nat := 0xFFFF_FFFF_FFFF_FFFF

  datatype Tok = Word(word: string) | Str(text: string) | Op(op: CmpOp) | Plus | LParen | RParen

  // ---------------------------------------------------------------------------
  // The grammar
  // ---------------------------------------------------------------------------

  type Parsed<T> = Result<(T, seq<Tok>), KqlError>

  predicate AtKeyword(ts: seq<Tok>, keyword: string) {
    ts != [] && ts[0].Word? && EqIgnoreCase(ts[0].word, keyword)
  }

  function NextWord(ts: seq<Tok>): (r: Parsed<string>)
    ensures r.Ok? ==> ts != [] && ts[0] == Word(r.value.0) && r.value.1 == ts[1..]
  {
    if ts != [] && ts[0].Word? then Ok((ts[0].word, ts[1..])) else Err(ExpectedWord)
  }

  /** `or := and ("OR" and)*`; a single term stands for itself. */
  function ParseOr(ts: seq<Tok>): (r: Parsed<Filter>)
    ensures r.Ok? ==> |r.value.1| < |ts|
    decreases |ts|, 4
  {
    var first := ParseAnd(ts);
    if first.Err? then Err(first.error) else ParseOrRest(first.value.1, [first.value.0])
  }

  function ParseOrRest(ts: seq<Tok>, terms: seq<Filter>): (r: Parsed<Filter>)
    requires terms != []
    ensures r.Ok? ==> |r.value.1| <= |ts|
    decreases |ts|, 0
  {
    if AtKeyword(ts, "OR") then
      var next := ParseAnd(ts[1..]);
      if next.Err? then Err(next.error) else ParseOrRest(next.value.1, terms + [next.value.0])
    else Ok((if |terms| == 1 then terms[0] else Or(terms), ts))
  }

  /** `and := not ("AND" not)*` */
  function ParseAnd(ts: seq<Tok>): (r: Parsed<Filter>)
    ensures r.Ok? ==> |r.value.1| < |ts|
    decreases |ts|, 3
  {
    var first := ParseNot(ts);
    if first.Err? then Err(first.error) else ParseAndRest(first.value.1, [first.value.0])
  }

  function ParseAndRest(ts: seq<Tok>, terms: seq<Filter>): (r: Parsed<Filter>)
    requires terms != []
    ensures r.Ok? ==> |r.value.1| <= |ts|
    decreases |ts|, 0
  {
    if AtKeyword(ts, "AND") then
      var next := ParseNot(ts[1..]);
      if next.Err? then Err(next.error) else ParseAndRest(next.value.1, terms + [next.value.0])
    else Ok((if |terms| == 1 then terms[0] else And(terms), ts))
  }

  /** `not := "NOT" not | atom` */
  function ParseNot(ts: seq<Tok>): (r: Parsed<Filter>)
    ensures r.Ok? ==> |r.value.1| < |ts|
    decreases |ts|, 2
  {
    if AtKeyword(ts, "NOT") then
      var inner := ParseNot(ts[1..]);
      if inner.Err? then Err(inner.error) else Ok((Not(inner.value.0), inner.value.1))
    else ParseAtom(ts)
  }

  /** `atom := "(" or ")" | "Confidence" op value` */
  function ParseAtom(ts: seq<Tok>): (r: Parsed<Filter>)
    ensures r.Ok? ==> |r.value.1| < |ts|
    decreases |ts|, 1
  {
    if ts != [] && ts[0].LParen? then
      var inner := ParseOr(ts[1..]);
      if inner.Err? then Err(inner.error)
      else if inner.value.1 != [] && inner.value.1[0].RParen? then Ok((inner.value.0, inner.value.1[1..]))
      else Err(ExpectedParen)
    else ParseComparison(ts)
  }

  function ParseComparison(ts: seq<Tok>): (r: Parsed<Filter>)
    ensures r.Ok? ==> |r.value.1| < |ts|
  {
    var field := NextWord(ts);
    if field.Err? then Err(field.error)
    else if !EqIgnoreCase(field.value.0, "Confidence") then Err(UnsupportedField)
    else
      var ts1 := field.value.1;
      if ts1 == [] || !ts1[0].Op? then Err(ExpectedOperator)
      else
        var word := NextWord(ts1[1..]);
        if word.Err? then Err(word.error)
        else
          var value := ParseUnsigned(word.value.0, U8_MAX);
          if value.None? then Err(BadValue)
          else Ok((Confidence(ts1[0].op, value.value), word.value.1))
  }

  /** Well-formed `YYYY-MM-DD` with month and day in range; not a calendar check. */
  predicate IsIsoDate(s: string) {
    && |s| == 10 && s[4] == '-' && s[7] == '-'
    && (forall i :: 0 <= i < 10 && i != 4 && i != 7 ==> IsDigit(s[i]))
    && 1 <= TwoDigits(s[5], s[6]) <= 12 && 1 <= TwoDigits(s[8], s[9]) <= 31
  }

  function TwoDigits(tens: char, units: char): int {
    (tens as int - '0' as int) * 10 + (units as int - '0' as int)
  }

  function ParseDate(ts: seq<Tok>): (r: Parsed<string>)
    ensures r.Ok? ==> |r.value.1| < |ts|
  {
    var word := NextWord(ts);
    if word.Err? then Err(word.error)
    else if !IsIsoDate(word.value.0) then Err(BadDate)
    else word
  }

  function ParseOrder(ts: seq<Tok>): (r: Parsed<SortDir>)
    ensures r.Ok? ==> |r.value.1| < |ts|
  {
    var field := NextWord(if AtKeyword(ts, "BY") then ts[1..] else ts);
    if field.Err? then Err(field.error)
    else if !EqIgnoreCase(field.value.0, "Confidence") then Err(UnsupportedField)
    else
      var rest := field.value.1;
      if AtKeyword(rest, "ASC") then Ok((Asc, rest[1..]))
      else if AtKeyword(rest, "DESC") then Ok((Desc, rest[1..]))
      else Ok((Desc, rest))
  }

  function ParseLimit(ts: seq<Tok>): (r: Parsed<nat>)
    ensures r.Ok? ==> |r.value.1| < |ts|
  {
    var word := NextWord(ts);
    if word.Err? then Err(word.error)
    else
      var n := ParseUnsigned(word.value.0, USIZE_MAX);
      if n.None? then Err(BadLimit) else Ok((n.value, word.value.1))
  }

  function TargetOf(word: string): Option<ReturnTarget> {
    var up := Upper(word);
    if up == "GRAPH" then Some(ReturnGraph)
    else if up == "SOURCES" then Some(ReturnSources)
    else if up == "DOCUMENTS" then Some(ReturnDocuments)
    else None
  }

  function ParseReturns(ts: seq<Tok>): (r: Parsed<seq<ReturnTarget>>)
    ensures r.Ok? ==> |r.value.1| < |ts|
    decreases |ts|
  {
    var word := NextWord(ts);
    if word.Err? then Err(word.error)
    else
      var target := TargetOf(word.value.0);
      if target.None? then Err(UnknownTarget)
      else if word.value.1 != [] && word.value.1[0].Plus? then
        var more := ParseReturns(word.value.1[1..]);
        if more.Err? then Err(more.error) else Ok(([target.value] + more.value.0, more.value.1))
      else Ok(([target.value], word.value.1))
  }

  const CLAUSES: seq<string> := ["RELATED", "FILTER", "BEFORE", "AFTER", "ORDER", "LIMIT", "RETURN"]

  predicate IsClause(word: string) {
    Upper(word) in CLAUSES
  }

  /** One clause, whose keyword has just been read. */
  function ParseClause(keyword: string, ts: seq<Tok>, q: Query): (r: Parsed<Query>)
    ensures r.Ok? ==> |r.value.1| < |ts|
  {
    if keyword == "RELATED" then
      var word := NextWord(ts);
      if word.Err? then Err(word.error)
      else
        var q1 := q.(related := Some(word.value.0));
        if AtKeyword(word.value.1, "VIA") then
          var via := NextWord(word.value.1[1..]);
          if via.Err? then Err(via.error) else Ok((q1.(via := Some(via.value.0)), via.value.1))
        else Ok((q1, word.value.1))
    else if keyword == "FILTER" then
      var f := ParseOr(ts);
      if f.Err? then Err(f.error) else Ok((q.(filters := q.filters + [f.value.0]), f.value.1))
    else if keyword == "BEFORE" then
      var d := ParseDate(ts);
      if d.Err? then Err(d.error) else Ok((q.(before := Some(d.value.0)), d.value.1))
    else if keyword == "AFTER" then
      var d := ParseDate(ts);
      if d.Err? then Err(d.error) else Ok((q.(after := Some(d.value.0)), d.value.1))
    else if keyword == "ORDER" then
      var o := ParseOrder(ts);
      if o.Err? then Err(o.error) else Ok((q.(order := Some(o.value.0)), o.value.1))
    else if keyword == "LIMIT" then
      var n := ParseLimit(ts);
      if n.Err? then Err(n.error) else Ok((q.(limit := Some(n.value.0)), n.value.1))
    else if keyword == "RETURN" then
      var t := ParseReturns(ts);
      if t.Err? then Err(t.error) else Ok((q.(targets := t.value.0), t.value.1))
    else Err(UnknownClause)
  }

  function ParseClauses(ts: seq<Tok>, q: Query): Result<Query, KqlError>
    decreases |ts|
  {
    if ts == [] then Ok(if q.targets == [] then q.(targets := [ReturnDocuments]) else q)
    else if !ts[0].Word? then Err(ExpectedClause)
    else
      var r := ParseClause(Upper(ts[0].word), ts[1..], q);
      if r.Err? then Err(r.error) else ParseClauses(r.value.1, r.value.0)
  }

  const NoClauses: Query := Query(None, None, None, None, [], None, None, None, None, [])

  /** The `FIND` selector: an optional kind or `*`, then optional quoted text. */
  function ParseSelector(ts: seq<Tok>): (r: Parsed<Query>)
    ensures r.Ok? ==> |r.value.1| < |ts|
  {
    var hasWord := ts != [] && ts[0].Word? && !IsClause(ts[0].word);
    var any := hasWord && ts[0].word == "*";
    var kind := if hasWord && !any then Some(ts[0].word) else None;
    var ts1 := if hasWord then ts[1..] else ts;
    var hasText := ts1 != [] && ts1[0].Str?;
    var text := if hasText then Some(ts1[0].text) else None;
    if kind.None? && text.None? && !any then Err(MissingSelector)
    else Ok((NoClauses.(kind := kind, text := text), if hasText then ts1[1..] else ts1))
  }

  function ParseTokens(ts: seq<Tok>): Result<Query, KqlError> {
    if ts == [] then Err(EmptyQuery)
    else if !AtKeyword(ts, "FIND") then Err(MissingFind)
    else
      var s := ParseSelector(ts[1..]);
      if s.Err? then Err(s.error) else ParseClauses(s.value.1, s.value.0)
  }

  // ---------------------------------------------------------------------------
  // Tokens
  // ---------------------------------------------------------------------------

  /** The characters of a bare word. */
  predicate WordChar(c: char) {
    !IsWhitespace(c) && c !in "\"+><=()"
  }

  /** How many characters of `s` come before the first that is not a word character. */
  function WordLength(s: string): (n: nat)
    ensures n <= |s| && (forall i :: 0 <= i < n ==> WordChar(s[i])) && (n < |s| ==> !WordChar(s[n]))
  {
    if s == "" || !WordChar(s[0]) then 0 else 1 + WordLength(s[1..])
  }

  /** The operator that starts with `c`, with or without an equals sign after it. */
  function Operator(c: char, equals: bool): CmpOp {
    if equals then (if c == '>' then Ge else if c == '<' then Le else Eq)
    else if c == '>' then Gt else if c == '<' then Lt else Eq
  }

  /** The token at the start of `s`, and what follows it. */
  function NextToken(s: string): (r: Result<(Tok, string), KqlError>)
    requires s != "" && !IsWhitespace(s[0])
    ensures r.Ok? ==> |r.value.1| < |s|
  {
    var c, rest := s[0], s[1..];
    if c == '"' then
      var n := LengthUntil(rest, '"');
      if n == |rest| then Err(UnterminatedString) else Ok((Str(rest[..n]), rest[n + 1..]))
    else if c == '+' then Ok((Plus, rest))
    else if c == '(' then Ok((LParen, rest))
    else if c == ')' then Ok((RParen, rest))
    else if c == '>' || c == '<' || c == '=' then
      var equals := rest != "" && rest[0] == '=';
      Ok((Op(Operator(c, equals)), if equals then rest[1..] else rest))
    else
      var n := WordLength(s);
      Ok((Word(s[..n]), s[n..]))
  }

  function Tokenize(s: string): Result<seq<Tok>, KqlError>
    decreases |s|
  {
    if s == "" then Ok([])
    else if IsWhitespace(s[0]) then Tokenize(s[1..])
    else
      var t := NextToken(s);
      if t.Err? then Err(t.error)
      else
        var more := Tokenize(t.value.1);
        if more.Err? then more else Ok([t.value.0] + more.value)
  }

  function Parse(input: string): Result<Query, KqlError> {
    var ts := Tokenize(input);
    if ts.Err? then Err(ts.error) else ParseTokens(ts.value)
  }
}
