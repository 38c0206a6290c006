/** Queries as text: reading a written query gives it back, and reading returns nothing else. */
module KqlText {
  import opened Results
  import opened Text
  import opened Kql
  import opened KqlFilters
  import opened KqlQueries

  // ---------------------------------------------------------------------------
  // Tokens
  // ---------------------------------------------------------------------------

  ghost function OperatorText(op: CmpOp): string {
    match op
    case Gt => ">"
    case Ge => ">="
    case Lt => "<"
    case Le => "<="
    case Eq => "="
  }

  ghost function TokenText(t: Tok): string {
    match t
    case Word(word) => word
    case Str(text) => "\"" + text + "\""
    case Op(op) => OperatorText(op)
    case Plus => "+"
    case LParen => "("
    case RParen => ")"
  }

  /** The tokens as text, a blank after each. */
  ghost function RenderText(ts: seq<Tok>): string {
    if ts == [] then "" else TokenText(ts[0]) + " " + RenderText(ts[1..])
  }

  lemma WordToken(word: string, tail: string)
    requires WordOk(word) && tail != "" && !WordChar(tail[0])
    ensures !IsWhitespace(word[0]) && NextToken(word + tail) == Ok((Word(word), tail))
  {
    hide IsWhitespace;
    var s := word + tail;
    assert forall i :: 0 <= i < |word| ==> WordChar(word[i]) && s[i] == word[i];
    assert s[|word|] == tail[0];
    var n := WordLength(s);
    assert n == |word|;
    assert s[..n] == word && s[n..] == tail;
  }

  lemma TextToken(text: string, tail: string)
    requires TextOk(text)
    ensures NextToken("\"" + text + "\"" + tail) == Ok((Str(text), tail))
  {
    hide IsWhitespace;
    var s := "\"" + text + "\"" + tail;
    Specials();
    assert s[1..] == text + "\"" + tail;
    assert s[1..][..|text|] == text;
    LengthUntilAt(s[1..], '"', |text|);
    assert s[1..][|text| + 1..] == tail;
  }

  lemma OperatorToken(op: CmpOp, tail: string)
    requires tail != "" && tail[0] != '='
    ensures NextToken(OperatorText(op) + tail) == Ok((Op(op), tail))
  {
    hide IsWhitespace;
    var s := OperatorText(op) + tail;
    Specials();
    if op.Ge? || op.Le? {
      assert s[1..][0] == '=' && s[1..][1..] == tail;
    } else {
      assert s[1..] == tail;
    }
  }

  /** A token written out and followed by a blank is read back whole. */
  lemma TokenRoundTrip(t: Tok, tail: string)
    requires TokOk(t) && tail != "" && tail[0] == ' '
    ensures TokenText(t) != "" && !IsWhitespace(TokenText(t)[0])
    ensures NextToken(TokenText(t) + tail) == Ok((t, tail))
  {
    hide IsWhitespace;
    Specials();
    if t.Word? {
      WordToken(t.word, tail);
    } else if t.Str? {
      TextToken(t.text, tail);
    } else if t.Op? {
      OperatorToken(t.op, tail);
    } else {
      assert (TokenText(t) + tail)[1..] == tail;
    }
  }

  lemma Specials()
    ensures IsWhitespace(' ')
    ensures forall c :: c in "\"+><=()" ==> !IsWhitespace(c)
  {
  }

  lemma BlankSkipped(s: string)
    ensures Tokenize(" " + s) == Tokenize(s)
  {
    assert (" " + s)[1..] == s;
  }

  lemma {:induction false} TokensRoundTrip(ts: seq<Tok>)
    requires ToksOk(ts)
    ensures Tokenize(RenderText(ts)) == Ok(ts)
  {
    if ts != [] {
      hide TokOk, NextToken, TokenText, IsWhitespace;
      var tail := " " + RenderText(ts[1..]);
      assert TokOk(ts[0]);
      TokenRoundTrip(ts[0], tail);
      TokensRoundTrip(ts[1..]);
      BlankSkipped(RenderText(ts[1..]));
      TokenFirst(ts[0], tail, ts[1..]);
      assert RenderText(ts) == TokenText(ts[0]) + tail;
      assert ts == [ts[0]] + ts[1..];
    }
  }

  lemma TokenFirst(t: Tok, tail: string, more: seq<Tok>)
    requires TokenText(t) != "" && !IsWhitespace(TokenText(t)[0])
    requires NextToken(TokenText(t) + tail) == Ok((t, tail)) && Tokenize(tail) == Ok(more)
    ensures Tokenize(TokenText(t) + tail) == Ok([t] + more)
  {
    hide NextToken, TokenText, IsWhitespace;
    assert (TokenText(t) + tail)[0] == TokenText(t)[0];
  }

  lemma TokenSound(s: string)
    requires s != "" && !IsWhitespace(s[0]) && NextToken(s).Ok?
    ensures TokOk(NextToken(s).value.0)
  {
    hide IsWhitespace;
    var c := s[0];
    if c != '"' && c != '+' && c != '(' && c != ')' && c != '>' && c != '<' && c != '=' {
      assert WordChar(c);
    }
  }

  lemma {:induction false} TokensSound(s: string)
    requires Tokenize(s).Ok?
    ensures ToksOk(Tokenize(s).value)
    decreases |s|
  {
    hide NextToken, TokOk, IsWhitespace;
    if s == "" {
    } else if IsWhitespace(s[0]) {
      TokensSound(s[1..]);
    } else {
      TokenSound(s);
      TokensSound(NextToken(s).value.1);
    }
  }

  // ---------------------------------------------------------------------------
  // Queries
  // ---------------------------------------------------------------------------

  predicate Plain(c: char) {
    'A' <= c <= 'Z' || 'a' <= c <= 'z' || IsDigit(c) || c == '*'
  }

  lemma PlainIsWord(w: string)
    requires w != "" && forall i :: 0 <= i < |w| ==> Plain(w[i])
    ensures WordOk(w)
  {
  }

  lemma KeywordsAreWords()
    ensures forall w :: w in CLAUSES ==> WordOk(w)
    ensures forall w :: w in ["FIND", "BY", "VIA", "ASC", "DESC", "AND", "OR", "NOT", "Confidence", "*"] ==> WordOk(w)
    ensures forall t :: WordOk(TargetName(t))
  {
    hide WordOk;
    forall w | w in CLAUSES + ["FIND", "BY", "VIA", "ASC", "DESC", "AND", "OR", "NOT", "Confidence", "*"]
      ensures WordOk(w)
    {
      PlainIsWord(w);
    }
    forall t ensures WordOk(TargetName(t)) {
      PlainIsWord(TargetName(t));
    }
  }

  lemma DecimalIsWord(n: nat)
    ensures WordOk(Decimal(n))
  {
    PlainIsWord(Decimal(n));
  }

  lemma {:induction false} OrToks(f: Filter)
    ensures ToksOk(RenderOr(f))
    decreases f, Rank(f, 0)
  {
    hide WordOk;
    KeywordsAreWords();
    match f {
      case Or(terms) =>
        if terms != [] {
          AndToks(terms[0]);
          OrTailToks(terms[1..]);
        }
      case _ => AndToks(f);
    }
  }

  lemma {:induction false} OrTailToks(terms: seq<Filter>)
    ensures ToksOk(OrTail(terms))
    decreases terms, 0
  {
    hide WordOk;
    KeywordsAreWords();
    if terms != [] {
      AndToks(terms[0]);
      OrTailToks(terms[1..]);
    }
  }

  lemma {:induction false} AndToks(f: Filter)
    ensures ToksOk(RenderAnd(f))
    decreases f, Rank(f, 1)
  {
    hide WordOk;
    KeywordsAreWords();
    match f {
      case And(terms) =>
        if terms != [] {
          NotToks(terms[0]);
          AndTailToks(terms[1..]);
        }
      case _ => NotToks(f);
    }
  }

  lemma {:induction false} AndTailToks(terms: seq<Filter>)
    ensures ToksOk(AndTail(terms))
    decreases terms, 0
  {
    hide WordOk;
    KeywordsAreWords();
    if terms != [] {
      NotToks(terms[0]);
      AndTailToks(terms[1..]);
    }
  }

  lemma {:induction false} NotToks(f: Filter)
    ensures ToksOk(RenderNot(f))
    decreases f, Rank(f, 2)
  {
    hide WordOk;
    KeywordsAreWords();
    match f {
      case Not(inner) => NotToks(inner);
      case Confidence(op, value) => DecimalIsWord(value);
      case _ => OrToks(f);
    }
  }

  lemma {:induction false} FiltersToks(filters: seq<Filter>)
    ensures ToksOk(RenderFilters(filters))
  {
    hide WordOk, RenderOr;
    KeywordsAreWords();
    if filters != [] {
      OrToks(filters[0]);
      FiltersToks(filters[1..]);
    }
  }

  lemma {:induction false} TargetsToks(targets: seq<ReturnTarget>)
    ensures ToksOk(RenderTargets(targets))
  {
    hide WordOk, TargetName;
    KeywordsAreWords();
    if targets != [] {
      TargetsToks(targets[1..]);
    }
  }

  lemma TailToks(q: Query)
    requires ClausesOk(q)
    ensures ToksOk(RenderBefore(q))
  {
    hide WordOk, TextOk, FilterOk, IsIsoDate, RenderTargets, TargetName;
    KeywordsAreWords();
    TargetsToks(q.targets);
    assert ToksOk(RenderReturn(q));
    if q.limit.Some? {
      DecimalIsWord(q.limit.value);
    }
    assert ToksOk(RenderLimit(q));
    assert ToksOk(RenderOrder(q));
    assert ToksOk(RenderAfter(q));
  }

  lemma QueryToks(q: Query)
    requires ClausesOk(q)
    ensures ToksOk(RenderQuery(q))
  {
    hide WordOk, TextOk, FilterOk, IsIsoDate, RenderBefore, RenderFilters;
    KeywordsAreWords();
    TailToks(q);
    FiltersToks(q.filters);
    assert ToksOk(RenderSelector(q));
    assert ToksOk(RenderRelated(q));
  }

  /** Reading a written query gives the query back. */
  lemma TextRoundTrip(q: Query)
    requires QueryOk(q)
    ensures Parse(RenderText(RenderQuery(q))) == Ok(q)
  {
    hide ParseTokens, RenderQuery, RenderText, ToksOk, ClausesOk;
    QueryToks(q);
    TokensRoundTrip(RenderQuery(q));
    QueryRoundTrip(q);
  }

  /** Whatever text is read, a query that comes out is one the renderer covers. */
  lemma ParseSound(input: string)
    requires Parse(input).Ok?
    ensures QueryOk(Parse(input).value)
  {
    hide FilterOk, WordOk, TextOk, IsIsoDate, IsClause, ParseClauses;
    TokensSound(input);
    var ts := Tokenize(input).value;
    assert TokOk(ts[0]) && (|ts| > 1 ==> TokOk(ts[1])) && (|ts| > 2 ==> TokOk(ts[2]));
    var (q, rest) := ParseSelector(ts[1..]).value;
    ClausesSound(rest, q);
  }

  /** So reading is a projection onto normal form: writing a query that was read, and reading it again, changes
      nothing, however the text spelled it first. */
  lemma ReadingIsNormal(input: string)
    requires Parse(input).Ok?
    ensures Parse(RenderText(RenderQuery(Parse(input).value))) == Parse(input)
  {
    hide Parse, RenderText, RenderQuery, QueryOk;
    ParseSound(input);
    TextRoundTrip(Parse(input).value);
  }
}
