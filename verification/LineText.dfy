/** Text cut into lines and fields, and put together from them. */
module LineText {
  import opened Results
  import opened Text

  /** The lines of a text: a final line end starts no further line, and a carriage return before a line end
      belongs to it. */
  function Lines(s: string): seq<string> {
    if s == "" then []
    else
      var n := LengthUntil(s, '\n');
      if n == |s| then [s]
      else [if n > 0 && s[n - 1] == '\r' then s[..n - 1] else s[..n]] + Lines(s[n + 1..])
  }

  /** The pieces between separators. */
  function Pieces(s: string, c: char): (r: seq<string>)
    ensures r != []
    decreases |s|
  {
    var n := LengthUntil(s, c);
    if n == |s| then [s] else [s[..n]] + Pieces(s[n + 1..], c)
  }

  /** A line as written: not empty, on one line, and not ending in what would be taken for part of a line end. */
  ghost predicate Clean(line: string) {
    line != "" && '\n' !in line && line[|line| - 1] != '\r'
  }

  lemma {:induction false} LinesAreSingle(s: string)
    ensures forall i :: 0 <= i < |Lines(s)| ==> '\n' !in Lines(s)[i]
    decreases |s|
  {
    if s != "" {
      var n := LengthUntil(s, '\n');
      if n < |s| {
        LinesAreSingle(s[n + 1..]);
        assert n > 0 ==> s[..n - 1] == s[..n][..n - 1];
      }
    }
  }

  /** Lines end with a line feed, or with a carriage return and a line feed. */
  lemma LineEnds(line: string, more: string)
    requires '\n' !in line && (line != "" ==> line[|line| - 1] != '\r')
    ensures Lines(line + "\n" + more) == Lines(line + "\r\n" + more) == [line] + Lines(more)
  {
    var s, t := line + "\n" + more, line + "\r\n" + more;
    LengthUntilAt(s, '\n', |line|);
    LengthUntilAt(t, '\n', |line| + 1);
    assert s[..|line|] == line && s[|line| + 1..] == more;
    assert t[..|line| + 1][..|line|] == line && t[|line| + 2..] == more && t[..|line|] == line;
  }

  function Terminated(lines: seq<string>): string {
    if lines == [] then "" else Terminated(lines[..|lines| - 1]) + lines[|lines| - 1] + "\n"
  }

  lemma TerminatedSnoc(lines: seq<string>, line: string)
    ensures Terminated(lines + [line]) == Terminated(lines) + line + "\n"
  {
    assert (lines + [line])[..|lines|] == lines;
  }

  ghost function Joined(lines: seq<string>): string {
    if lines == [] then "" else if |lines| == 1 then lines[0] else lines[0] + "\n" + Joined(lines[1..])
  }

  lemma {:induction false} TerminatedFront(lines: seq<string>)
    requires lines != []
    ensures Terminated(lines) == lines[0] + "\n" + Terminated(lines[1..])
  {
    var front := lines[..|lines| - 1];
    if |lines| == 1 {
      assert front == [] && lines[1..] == [];
    } else {
      TerminatedFront(front);
      assert lines[1..][..|lines[1..]| - 1] == front[1..];
    }
  }

  lemma {:induction false} TerminatedIsJoined(lines: seq<string>)
    requires lines != []
    ensures Terminated(lines) == Joined(lines) + "\n"
  {
    TerminatedFront(lines);
    if |lines| > 1 {
      TerminatedIsJoined(lines[1..]);
    } else {
      assert lines[1..] == [];
    }
  }

  lemma JoinedFirst(lines: seq<string>)
    requires lines != [] && Clean(lines[0])
    ensures Joined(lines) != "" && Joined(lines)[0] == lines[0][0]
  {
  }

  lemma FirstLine(line: string, more: string)
    requires Clean(line)
    ensures Lines(line + "\n" + more) == [line] + Lines(more)
  {
    var s := line + "\n" + more;
    assert s[..|line|] == line && s[|line|] == '\n' && s[|line| + 1..] == more;
    LengthUntilAt(s, '\n', |line|);
    assert s[|line| - 1] == line[|line| - 1];
  }

  lemma OnlyLine(line: string)
    requires Clean(line)
    ensures Lines(line) == [line]
  {
    assert LengthUntil(line, '\n') == |line|;
  }

  lemma NoLines()
    ensures Lines("") == []
  {
  }

  lemma {:induction false} LinesOfJoined(lines: seq<string>)
    requires forall i :: 0 <= i < |lines| ==> Clean(lines[i])
    ensures Lines(Joined(lines)) == lines
  {
    hide Lines;
    if lines == [] {
      NoLines();
    } else if |lines| == 1 {
      OnlyLine(lines[0]);
      assert lines == [lines[0]];
    } else if |lines| > 1 {
      FirstLine(lines[0], Joined(lines[1..]));
      LinesOfJoined(lines[1..]);
      assert lines == [lines[0]] + lines[1..];
    }
  }

  lemma {:induction false} LinesOfTerminated(lines: seq<string>)
    requires forall i :: 0 <= i < |lines| ==> Clean(lines[i])
    ensures Lines(Terminated(lines)) == lines
  {
    hide Lines, Terminated;
    if lines == [] {
      NothingTerminated();
      NoLines();
    } else {
      TerminatedFront(lines);
      FirstLine(lines[0], Terminated(lines[1..]));
      LinesOfTerminated(lines[1..]);
      assert lines == [lines[0]] + lines[1..];
    }
  }

  lemma NothingTerminated()
    ensures Terminated([]) == ""
  {
  }

  function Separated(fields: seq<string>, c: char): string {
    if fields == [] then ""
    else if |fields| == 1 then fields[0]
    else fields[0] + [c] + Separated(fields[1..], c)
  }

  lemma FirstPiece(field: string, c: char, more: string)
    requires c !in field
    ensures Pieces(field + [c] + more, c) == [field] + Pieces(more, c)
  {
    var s := field + [c] + more;
    assert s[..|field|] == field && s[|field|] == c && s[|field| + 1..] == more;
    LengthUntilAt(s, c, |field|);
  }

  lemma OnlyPiece(field: string, c: char)
    requires c !in field
    ensures Pieces(field, c) == [field]
  {
    assert LengthUntil(field, c) == |field|;
  }

  lemma {:induction false} PiecesOfSeparated(fields: seq<string>, c: char)
    requires fields != [] && forall i :: 0 <= i < |fields| ==> c !in fields[i]
    ensures Pieces(Separated(fields, c), c) == fields
  {
    hide Pieces;
    if |fields| == 1 {
      OnlyPiece(fields[0], c);
      assert fields == [fields[0]];
    } else {
      FirstPiece(fields[0], c, Separated(fields[1..], c));
      PiecesOfSeparated(fields[1..], c);
      assert fields == [fields[0]] + fields[1..];
    }
  }

  // ---------------------------------------------------------------------------
  // Cutting what was put together
  // ---------------------------------------------------------------------------

  ghost function Prefixed(a: string, r: Option<(string, string)>): Option<(string, string)> {
    if r.None? then None else Some((a + r.value.0, r.value.1))
  }

  /** A cut is not found inside text that lacks the separator's first character. */
  lemma {:induction false} CutSkips(a: string, rest: string, sep: string)
    requires sep != "" && sep[0] !in a && |rest| >= |sep|
    ensures SplitOnce(a + rest, sep) == Prefixed(a, SplitOnce(rest, sep))
  {
    if a == "" {
      assert a + rest == rest;
      assert SplitOnce(rest, sep).Some? ==> "" + SplitOnce(rest, sep).value.0 == SplitOnce(rest, sep).value.0;
    } else {
      var s := a + rest;
      assert s[..|sep|][0] == a[0];
      assert s[1..] == a[1..] + rest;
      CutSkips(a[1..], rest, sep);
      var r := SplitOnce(rest, sep);
      assert r.Some? ==> [a[0]] + (a[1..] + r.value.0) == a + r.value.0;
    }
  }

  lemma CutNow(b: string, sep: string)
    requires sep != ""
    ensures SplitOnce(sep + b, sep) == Some(("", b))
  {
    assert (sep + b)[..|sep|] == sep && (sep + b)[|sep|..] == b;
  }

  lemma CutHere(a: string, b: string, sep: string)
    requires sep != "" && sep[0] !in a
    ensures SplitOnce(a + sep + b, sep) == Some((a, b))
  {
    hide SplitOnce;
    CutNow(b, sep);
    CutSkips(a, sep + b, sep);
    assert a + (sep + b) == a + sep + b;
    assert a + "" == a;
  }

  /** A cut is made at the first place where the separator stands. */
  lemma {:induction false} CutFirst(a: string, b: string, sep: string)
    requires sep != "" && !Contains(a + sep[..|sep| - 1], sep)
    ensures SplitOnce(a + sep + b, sep) == Some((a, b))
  {
    var s := a + sep + b;
    if a == "" {
      CutNow(b, sep);
      assert s == sep + b;
    } else {
      var probe := a + sep[..|sep| - 1];
      assert probe[1..] == a[1..] + sep[..|sep| - 1];
      assert s[1..] == a[1..] + sep + b;
      assert s[..|sep|] == probe[..|sep|];
      CutFirst(a[1..], b, sep);
      assert [a[0]] + a[1..] == a;
    }
  }

  /** What comes before a cut does not hold the separator, not even with the start of it added. */
  lemma {:induction false} CutIsFirst(s: string, sep: string)
    requires sep != ""
    ensures var r := SplitOnce(s, sep);
            if r.None? then !Contains(s, sep) else !Contains(r.value.0 + sep[..|sep| - 1], sep)
  {
    hide SplitOnce, Contains;
    CutStep(s, sep);
    if |s| < |sep| {
      TooShort(s, sep);
    } else if s[..|sep|] == sep {
      assert "" + sep[..|sep| - 1] == sep[..|sep| - 1];
      TooShort(sep[..|sep| - 1], sep);
    } else {
      CutIsFirst(s[1..], sep);
      ContainsStep(s, sep);
      var r := SplitOnce(s[1..], sep);
      if r.Some? {
        var probe := r.value.0 + sep[..|sep| - 1];
        var longer := [s[0]] + r.value.0 + sep[..|sep| - 1];
        assert longer == [s[0]] + probe && longer[1..] == probe;
        assert s == [s[0]] + (r.value.0 + sep + r.value.1);
        assert longer[..|sep|] == s[..|sep|];
        ContainsStep(longer, sep);
      }
    }
  }

  lemma CutStep(s: string, sep: string)
    requires sep != ""
    ensures SplitOnce(s, sep) ==
            if |s| < |sep| then None
            else if s[..|sep|] == sep then Some(("", s[|sep|..]))
            else Prefixed([s[0]], SplitOnce(s[1..], sep))
  {
  }

  lemma ContainsStep(s: string, sep: string)
    requires s != "" && |sep| <= |s|
    ensures Contains(s, sep) <==> s[..|sep|] == sep || Contains(s[1..], sep)
  {
  }

  lemma {:induction false} TooShort(s: string, sep: string)
    requires |s| < |sep|
    ensures !Contains(s, sep)
  {
    if s != "" {
      TooShort(s[1..], sep);
    }
  }

  lemma {:induction false} NotContained(s: string, sep: string)
    requires sep != "" && !Contains(s, sep)
    ensures SplitOnce(s, sep).None?
  {
    if |s| >= |sep| {
      NotContained(s[1..], sep);
    }
  }

  /** No piece holds the separator, and every character of a piece comes from the text. */
  lemma {:induction false} PiecesLack(s: string, c: char)
    ensures forall i :: 0 <= i < |Pieces(s, c)| ==> c !in Pieces(s, c)[i] && forall x :: x in Pieces(s, c)[i] ==> x in s
    decreases |s|
  {
    var n := LengthUntil(s, c);
    if n < |s| {
      PiecesLack(s[n + 1..], c);
      assert forall x :: x in s[n + 1..] ==> x in s;
      assert forall x :: x in s[..n] ==> x in s;
    }
  }
}
