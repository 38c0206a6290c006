/** The tokenizer and the recursive-descent parser as sdk/src/kql.rs runs them: a cursor that moves forward, loops
    that collect terms. Each method is proved to compute its grammar function. */
module KqlParser {
  import opened Results
  import opened Text
  import opened Kql

  // ---------------------------------------------------------------------------
  // Tokenizer
  // ---------------------------------------------------------------------------

  /** The characters from `start` up to the next quote, and where they end. */
  method ReadString(input: string, start: nat) returns (text: string, end: nat)
    requires start <= |input|
    ensures end == start + LengthUntil(input[start..], '"') && text == input[start..end]
  {
    text, end := "", start;
    while end < |input| && input[end] != '"'
      invariant start <= end <= |input| && text == input[start..end]
      invariant LengthUntil(input[start..], '"') == end - start + LengthUntil(input[end..], '"')
    {
      assert input[end..][1..] == input[end + 1..];
      text := text + [input[end]];
      end := end + 1;
    }
  }

  /** The word characters from `start` on, and where they end. */
  method ReadWord(input: string, start: nat) returns (word: string, end: nat)
    requires start <= |input|
    ensures end == start + WordLength(input[start..]) && word == input[start..end]
  {
    hide WordChar;
    word, end := "", start;
    while end < |input| && WordChar(input[end])
      invariant start <= end <= |input| && word == input[start..end]
      invariant WordLength(input[start..]) == end - start + WordLength(input[end..])
    {
      assert input[end..][1..] == input[end + 1..];
      word := word + [input[end]];
      end := end + 1;
    }
  }

  /** One token, and where the next one may start. */
  method ReadToken(input: string, i: nat) returns (t: Result<Tok, KqlError>, next: nat)
    requires i < |input| && !IsWhitespace(input[i])
    ensures i < next <= |input|
    ensures t.Ok? ==> NextToken(input[i..]) == Ok((t.value, input[next..]))
    ensures t.Err? ==> NextToken(input[i..]) == Err(t.error)
  {
    hide WordChar, IsWhitespace;
    var c := input[i];
    next := i + 1;
    assert input[i..][1..] == input[i + 1..];
    if c == '"' {
      var text, end := ReadString(input, i + 1);
      if end == |input| {
        t := Err(UnterminatedString);
      } else {
        t, next := Ok(Str(text)), end + 1;
        assert input[i + 1..][..end - i - 1] == text && input[i + 1..][end - i..] == input[end + 1..];
      }
    } else if c == '+' {
      t := Ok(Plus);
    } else if c == '(' {
      t := Ok(LParen);
    } else if c == ')' {
      t := Ok(RParen);
    } else if c == '>' || c == '<' || c == '=' {
      var equals := next < |input| && input[next] == '=';
      if equals {
        assert input[i + 1..][1..] == input[i + 2..];
        next := next + 1;
      }
      t := Ok(Op(Operator(c, equals)));
    } else {
      var word, end := ReadWord(input, i);
      assert WordLength(input[i..]) > 0 by { OtherwiseWord(c); }
      assert input[i..][..end - i] == word && input[i..][end - i..] == input[end..];
      t, next := Ok(Word(word)), end;
    }
  }

  lemma OtherwiseWord(c: char)
    requires !IsWhitespace(c) && c != '"' && c != '+' && c != '(' && c != ')' && c != '>' && c != '<' && c != '='
    ensures WordChar(c)
  {
  }

  ghost function Prepend(toks: seq<Tok>, r: Result<seq<Tok>, KqlError>): Result<seq<Tok>, KqlError> {
    if r.Err? then r else Ok(toks + r.value)
  }

  method ReadTokens(input: string) returns (r: Result<seq<Tok>, KqlError>)
    ensures r == Tokenize(input)
  {
    hide NextToken, IsWhitespace;
    var toks: seq<Tok> := [];
    var i := 0;
    assert input[0..] == input;
    assert Tokenize(input).Ok? ==> [] + Tokenize(input).value == Tokenize(input).value;
    while i < |input|
      invariant i <= |input|
      invariant Tokenize(input) == Prepend(toks, Tokenize(input[i..]))
    {
      assert input[i..][1..] == input[i + 1..];
      if IsWhitespace(input[i]) {
        i := i + 1;
      } else {
        var t, next := ReadToken(input, i);
        if t.Err? {
          return Err(t.error);
        }
        var more := Tokenize(input[next..]);
        assert more.Ok? ==> toks + ([t.value] + more.value) == (toks + [t.value]) + more.value;
        toks, i := toks + [t.value], next;
      }
    }
    assert toks + [] == toks;
    return Ok(toks);
  }

  // ---------------------------------------------------------------------------
  // Parser
  // ---------------------------------------------------------------------------

  /** The outcome and the tokens left agree with what the grammar says. */
  ghost predicate Agrees<T>(r: Result<T, KqlError>, rest: seq<Tok>, spec: Parsed<T>) {
    if spec.Ok? then r == Ok(spec.value.0) && rest == spec.value.1 else r == Err(spec.error)
  }

  class Parser {
    const toks: seq<Tok>
    var pos: nat

    constructor (toks: seq<Tok>)
      ensures Valid() && this.toks == toks && Rest() == toks
    {
      this.toks := toks;
      pos := 0;
    }

    ghost predicate Valid()
      reads this
    {
      pos <= |toks|
    }

    ghost function Rest(): seq<Tok>
      requires Valid()
      reads this
    {
      toks[pos..]
    }

    method Advance()
      requires Valid() && pos < |toks|
      modifies this`pos
      ensures Valid() && pos == old(pos) + 1 && Rest() == old(Rest())[1..]
    {
      pos := pos + 1;
      assert toks[pos - 1..][1..] == toks[pos..];
    }

    method EatKeyword(keyword: string) returns (eaten: bool)
      requires Valid()
      modifies this`pos
      ensures Valid() && eaten == AtKeyword(old(Rest()), keyword)
      ensures if eaten then pos == old(pos) + 1 && Rest() == old(Rest())[1..] else pos == old(pos)
    {
      if pos < |toks| && toks[pos].Word? && EqIgnoreCase(toks[pos].word, keyword) {
        Advance();
        return true;
      }
      return false;
    }

    method Word() returns (r: Result<string, KqlError>)
      requires Valid()
      modifies this`pos
      ensures Valid() && old(pos) <= pos && (r.Ok? ==> pos == old(pos) + 1)
      ensures Agrees(r, Rest(), NextWord(old(Rest())))
    {
      if pos == |toks| {
        return Err(ExpectedWord);
      }
      var t := toks[pos];
      Advance();
      if t.Word? {
        return Ok(t.word);
      }
      return Err(ExpectedWord);
    }

    method FilterOr() returns (r: Result<Filter, KqlError>)
      requires Valid()
      modifies this`pos
      ensures Valid() && old(pos) <= pos && (r.Ok? ==> old(pos) < pos)
      ensures Agrees(r, Rest(), ParseOr(old(Rest())))
      decreases |toks| - pos, 4
    {
      hide ParseAnd, AtKeyword;
      var first := FilterAnd();
      if first.Err? {
        return first;
      }
      var terms := [first.value];
      ghost var before := Rest();
      var more := EatKeyword("OR");
      while more
        invariant Valid() && old(pos) < pos && terms != []
        invariant ParseOr(old(Rest())) == ParseOrRest(before, terms)
        invariant more == AtKeyword(before, "OR")
        invariant if more then before != [] && Rest() == before[1..] else Rest() == before
        decreases |toks| - pos
      {
        var next := FilterAnd();
        if next.Err? {
          return next;
        }
        terms := terms + [next.value];
        before := Rest();
        more := EatKeyword("OR");
      }
      return Ok(if |terms| == 1 then terms[0] else Or(terms));
    }

    method FilterAnd() returns (r: Result<Filter, KqlError>)
      requires Valid()
      modifies this`pos
      ensures Valid() && old(pos) <= pos && (r.Ok? ==> old(pos) < pos)
      ensures Agrees(r, Rest(), ParseAnd(old(Rest())))
      decreases |toks| - pos, 3
    {
      hide ParseNot, AtKeyword;
      var first := FilterNot();
      if first.Err? {
        return first;
      }
      var terms := [first.value];
      ghost var before := Rest();
      var more := EatKeyword("AND");
      while more
        invariant Valid() && old(pos) < pos && terms != []
        invariant ParseAnd(old(Rest())) == ParseAndRest(before, terms)
        invariant more == AtKeyword(before, "AND")
        invariant if more then before != [] && Rest() == before[1..] else Rest() == before
        decreases |toks| - pos
      {
        var next := FilterNot();
        if next.Err? {
          return next;
        }
        terms := terms + [next.value];
        before := Rest();
        more := EatKeyword("AND");
      }
      return Ok(if |terms| == 1 then terms[0] else And(terms));
    }

    method FilterNot() returns (r: Result<Filter, KqlError>)
      requires Valid()
      modifies this`pos
      ensures Valid() && old(pos) <= pos && (r.Ok? ==> old(pos) < pos)
      ensures Agrees(r, Rest(), ParseNot(old(Rest())))
      decreases |toks| - pos, 2
    {
      hide ParseAtom;
      var negated := EatKeyword("NOT");
      if negated {
        var inner := FilterNot();
        return if inner.Ok? then Ok(Not(inner.value)) else inner;
      }
      r := FilterAtom();
    }

    method FilterAtom() returns (r: Result<Filter, KqlError>)
      requires Valid()
      modifies this`pos
      ensures Valid() && old(pos) <= pos && (r.Ok? ==> old(pos) < pos)
      ensures Agrees(r, Rest(), ParseAtom(old(Rest())))
      decreases |toks| - pos, 1
    {
      hide ParseOr, ParseComparison;
      if pos < |toks| && toks[pos].LParen? {
        Advance();
        var inner := FilterOr();
        if inner.Err? {
          return inner;
        }
        if pos < |toks| && toks[pos].RParen? {
          Advance();
          return inner;
        }
        return Err(ExpectedParen);
      }
      r := Comparison();
    }

    method Comparison() returns (r: Result<Filter, KqlError>)
      requires Valid()
      modifies this`pos
      ensures Valid() && old(pos) <= pos && (r.Ok? ==> old(pos) < pos)
      ensures Agrees(r, Rest(), ParseComparison(old(Rest())))
    {
      hide ParseUnsigned, EqIgnoreCase;
      var field := Word();
      if field.Err? {
        return Err(field.error);
      }
      if !EqIgnoreCase(field.value, "Confidence") {
        return Err(UnsupportedField);
      }
      if pos == |toks| || !toks[pos].Op? {
        return Err(ExpectedOperator);
      }
      var op := toks[pos].op;
      Advance();
      var word := Word();
      if word.Err? {
        return Err(word.error);
      }
      var value := ParseUnsigned(word.value, U8_MAX);
      return if value.Some? then Ok(Confidence(op, value.value)) else Err(BadValue);
    }

    method Date() returns (r: Result<string, KqlError>)
      requires Valid()
      modifies this`pos
      ensures Valid() && old(pos) <= pos && (r.Ok? ==> old(pos) < pos)
      ensures Agrees(r, Rest(), ParseDate(old(Rest())))
    {
      hide IsIsoDate;
      r := Word();
      if r.Ok? && !IsIsoDate(r.value) {
        r := Err(BadDate);
      }
    }

    method Order() returns (r: Result<SortDir, KqlError>)
      requires Valid()
      modifies this`pos
      ensures Valid() && old(pos) <= pos && (r.Ok? ==> old(pos) < pos)
      ensures Agrees(r, Rest(), ParseOrder(old(Rest())))
    {
      hide EqIgnoreCase;
      var optional := EatKeyword("BY");
      var field := Word();
      if field.Err? {
        return Err(field.error);
      }
      if !EqIgnoreCase(field.value, "Confidence") {
        return Err(UnsupportedField);
      }
      var asc := EatKeyword("ASC");
      if asc {
        return Ok(Asc);
      }
      var desc := EatKeyword("DESC");
      return Ok(Desc);
    }

    method Limit() returns (r: Result<nat, KqlError>)
      requires Valid()
      modifies this`pos
      ensures Valid() && old(pos) <= pos && (r.Ok? ==> old(pos) < pos)
      ensures Agrees(r, Rest(), ParseLimit(old(Rest())))
    {
      hide ParseUnsigned;
      var word := Word();
      if word.Err? {
        return Err(word.error);
      }
      var n := ParseUnsigned(word.value, USIZE_MAX);
      return if n.Some? then Ok(n.value) else Err(BadLimit);
    }

    static ghost predicate Returning(start: seq<Tok>, targets: seq<ReturnTarget>, rest: seq<Tok>) {
      var (spec, more) := (ParseReturns(start), ParseReturns(rest));
      if more.Ok? then spec == Ok((targets + more.value.0, more.value.1)) else spec == Err(more.error)
    }

    /** One more target read: an error, the last target, or further ones after a plus sign. */
    static lemma ReturningNext(start: seq<Tok>, targets: seq<ReturnTarget>, rest: seq<Tok>)
      requires Returning(start, targets, rest)
      ensures var (spec, word) := (ParseReturns(start), NextWord(rest));
              if word.Err? then spec == Err(word.error)
              else if TargetOf(word.value.0).None? then spec == Err(UnknownTarget)
              else
                var all := targets + [TargetOf(word.value.0).value];
                if word.value.1 != [] && word.value.1[0].Plus? then Returning(start, all, word.value.1[1..])
                else spec == Ok((all, word.value.1))
    {
      hide TargetOf;
      var word := NextWord(rest);
      if word.Ok? && TargetOf(word.value.0).Some? && word.value.1 != [] && word.value.1[0].Plus? {
        var one, more := [TargetOf(word.value.0).value], ParseReturns(word.value.1[1..]);
        assert more.Ok? ==> targets + (one + more.value.0) == targets + one + more.value.0;
      }
    }

    static lemma NothingReturned(start: seq<Tok>)
      ensures Returning(start, [], start)
    {
      var spec := ParseReturns(start);
      assert spec.Ok? ==> [] + spec.value.0 == spec.value.0;
    }

    method Returns() returns (r: Result<seq<ReturnTarget>, KqlError>)
      requires Valid()
      modifies this`pos
      ensures Valid() && old(pos) <= pos && (r.Ok? ==> old(pos) < pos)
      ensures Agrees(r, Rest(), ParseReturns(old(Rest())))
    {
      hide TargetOf, ParseReturns, Returning;
      var targets: seq<ReturnTarget> := [];
      NothingReturned(Rest());
      while true
        invariant Valid() && old(pos) <= pos && Returning(old(Rest()), targets, Rest())
        decreases |toks| - pos
      {
        ReturningNext(old(Rest()), targets, Rest());
        var word := Word();
        if word.Err? {
          return Err(word.error);
        }
        var target := TargetOf(word.value);
        if target.None? {
          return Err(UnknownTarget);
        }
        targets := targets + [target.value];
        if pos == |toks| || !toks[pos].Plus? {
          return Ok(targets);
        }
        Advance();
      }
    }

    method Selector() returns (r: Result<Query, KqlError>)
      requires Valid()
      modifies this`pos
      ensures Valid() && Agrees(r, Rest(), ParseSelector(old(Rest())))
    {
      hide IsClause;
      var q := NoClauses;
      var any := false;
      if pos < |toks| && toks[pos].Word? && !IsClause(toks[pos].word) {
        if toks[pos].word == "*" {
          any := true;
        } else {
          q := q.(kind := Some(toks[pos].word));
        }
        Advance();
      }
      if pos < |toks| && toks[pos].Str? {
        q := q.(text := Some(toks[pos].text));
        Advance();
      }
      return if q.kind.None? && q.text.None? && !any then Err(MissingSelector) else Ok(q);
    }

    method Related(q: Query) returns (r: Result<Query, KqlError>)
      requires Valid()
      modifies this`pos
      ensures Valid() && old(pos) <= pos && Agrees(r, Rest(), ParseClause("RELATED", old(Rest()), q))
    {
      hide AtKeyword;
      var word := Word();
      if word.Err? {
        return Err(word.error);
      }
      var via := EatKeyword("VIA");
      if !via {
        return Ok(q.(related := Some(word.value)));
      }
      var edge := Word();
      if edge.Err? {
        return Err(edge.error);
      }
      return Ok(q.(related := Some(word.value), via := Some(edge.value)));
    }

    method Clause(keyword: string, q: Query) returns (r: Result<Query, KqlError>)
      requires Valid()
      modifies this`pos
      ensures Valid() && old(pos) <= pos && Agrees(r, Rest(), ParseClause(keyword, old(Rest()), q))
    {
      hide ParseOr, ParseDate, ParseOrder, ParseLimit, ParseReturns;
      if keyword == "RELATED" {
        r := Related(q);
      } else if keyword == "FILTER" {
        var f := FilterOr();
        r := if f.Ok? then Ok(q.(filters := q.filters + [f.value])) else Err(f.error);
      } else if keyword == "BEFORE" {
        var d := Date();
        r := if d.Ok? then Ok(q.(before := Some(d.value))) else Err(d.error);
      } else if keyword == "AFTER" {
        var d := Date();
        r := if d.Ok? then Ok(q.(after := Some(d.value))) else Err(d.error);
      } else if keyword == "ORDER" {
        var o := Order();
        r := if o.Ok? then Ok(q.(order := Some(o.value))) else Err(o.error);
      } else if keyword == "LIMIT" {
        var n := Limit();
        r := if n.Ok? then Ok(q.(limit := Some(n.value))) else Err(n.error);
      } else if keyword == "RETURN" {
        var t := Returns();
        r := if t.Ok? then Ok(q.(targets := t.value)) else Err(t.error);
      } else {
        r := Err(UnknownClause);
      }
    }

    method Clauses(start: Query) returns (r: Result<Query, KqlError>)
      requires Valid()
      modifies this`pos
      ensures Valid() && r == ParseClauses(old(Rest()), start)
    {
      hide ParseClause, Upper;
      var q := start;
      while pos < |toks|
        invariant Valid() && ParseClauses(old(Rest()), start) == ParseClauses(Rest(), q)
        decreases |toks| - pos
      {
        var t := toks[pos];
        if !t.Word? {
          return Err(ExpectedClause);
        }
        Advance();
        var next := Clause(Upper(t.word), q);
        if next.Err? {
          return next;
        }
        q := next.value;
      }
      return Ok(if q.targets == [] then q.(targets := [ReturnDocuments]) else q);
    }
  }

  /** The whole of `parse`. */
  method ParseQuery(input: string) returns (r: Result<Query, KqlError>)
    ensures r == Parse(input)
  {
    hide Tokenize, ParseSelector, ParseClauses;
    var toks := ReadTokens(input);
    if toks.Err? {
      return Err(toks.error);
    }
    if toks.value == [] {
      return Err(EmptyQuery);
    }
    var p := new Parser(toks.value);
    var find := p.EatKeyword("FIND");
    if !find {
      return Err(MissingFind);
    }
    var q := p.Selector();
    if q.Err? {
      return q;
    }
    r := p.Clauses(q.value);
  }
}
