/** Characters, ASCII case, and decimal numbers as text. */
module Text {
  import opened Results

  /** Unicode White_Space. */
  predicate IsWhitespace(c: char) {
    || '\t' <= c <= '\r'
    || c == ' '
    || c in "\U{85}\U{A0}\U{1680}\U{2028}\U{2029}\U{202F}\U{205F}\U{3000}"
    || '\U{2000}' <= c <= '\U{200A}'
  }

  /** The twenty-five characters that Unicode calls White_Space, by number. */
  lemma WhitespaceIs(c: char)
    ensures IsWhitespace(c) <==>
            c as int in {9, 10, 11, 12, 13, 32, 133, 160, 5760, 8192, 8193, 8194, 8195, 8196, 8197, 8198, 8199, 8200,
                         8201, 8202, 8232, 8233, 8239, 8287, 12288}
  {
  }

  function UpperChar(c: char): char {
    if 'a' <= c <= 'z' then (c as int - 32) as char else c
  }

  /** ASCII upper case, character by character. */
  function Upper(s: string): (r: string)
    ensures |r| == |s|
  {
    seq(|s|, i requires 0 <= i < |s| => UpperChar(s[i]))
  }

  predicate EqIgnoreCase(a: string, b: string) {
    Upper(a) == Upper(b)
  }

  /** How many characters of `s` come before the first `c`; all of them when there is none. */
  function LengthUntil(s: string, c: char): (n: nat)
    ensures n <= |s| && c !in s[..n] && (n < |s| ==> s[n] == c)
  {
    if s == "" || s[0] == c then 0 else 1 + LengthUntil(s[1..], c)
  }

  lemma LengthUntilAt(s: string, c: char, n: nat)
    requires n < |s| && s[n] == c && c !in s[..n]
    ensures LengthUntil(s, c) == n
  {
    var m := LengthUntil(s, c);
    assert forall i :: 0 <= i < n ==> s[..n][i] == s[i];
    assert forall i :: 0 <= i < m ==> s[..m][i] == s[i];
  }

  /** The text before and after the first occurrence of `sep`. */
  function SplitOnce(s: string, sep: string): (r: Option<(string, string)>)
    requires sep != ""
    ensures r.Some? ==> s == r.value.0 + sep + r.value.1
  {
    if |s| < |sep| then None
    else if s[..|sep|] == sep then Some(("", s[|sep|..]))
    else
      var r := SplitOnce(s[1..], sep);
      if r.None? then None else Some(([s[0]] + r.value.0, r.value.1))
  }

  /** The cut is made where the separator occurs first, if it occurs at all. */
  lemma {:induction false} SplitOnceIsFirst(s: string, sep: string)
    requires sep != ""
    ensures match SplitOnce(s, sep)
            case None => !OccursIn(sep, s)
            case Some((a, _)) => OccursAt(sep, s, |a|) && forall i :: OccursAt(sep, s, i) ==> |a| <= i
  {
    OccursNext(s, sep);
    if |s| >= |sep| && s[..|sep|] != sep {
      SplitOnceIsFirst(s[1..], sep);
      OccursLater(s, sep);
      hide OccursAt, SplitOnce;
    } else if |s| >= |sep| {
      assert OccursAt(sep, s, 0);
    }
  }

  lemma OccursLater(s: string, part: string)
    requires s != "" && part != "" && !(part <= s)
    ensures forall i :: OccursAt(part, s[1..], i) ==> OccursAt(part, s, i + 1)
    ensures forall i :: OccursAt(part, s, i) ==> i > 0 && OccursAt(part, s[1..], i - 1)
  {
    var rest := s[1..];
    forall i
      ensures OccursAt(part, rest, i) ==> OccursAt(part, s, i + 1)
    {
      if OccursAt(part, rest, i) {
        assert s[i + 1..i + 1 + |part|] == rest[i..i + |part|];
      }
    }
    forall i | OccursAt(part, s, i)
      ensures i > 0 && OccursAt(part, rest, i - 1)
    {
      if i > 0 {
        assert rest[i - 1..i - 1 + |part|] == s[i..i + |part|];
      }
    }
  }

  predicate Contains(s: string, part: string) {
    part <= s || (s != "" && Contains(s[1..], part))
  }

  /** The same letter, in either case. */
  ghost predicate SameLetter(a: char, b: char) {
    || a == b
    || ('a' <= a <= 'z' && a as int == b as int + 32)
    || ('a' <= b <= 'z' && b as int == a as int + 32)
  }

  lemma EqualApartFromCase(a: string, b: string)
    ensures EqIgnoreCase(a, b) <==> |a| == |b| && forall i :: 0 <= i < |a| ==> SameLetter(a[i], b[i])
  {
    assert |Upper(a)| == |a| && |Upper(b)| == |b|;
    assert forall i :: 0 <= i < |a| ==> Upper(a)[i] == UpperChar(a[i]);
    assert forall i :: 0 <= i < |b| ==> Upper(b)[i] == UpperChar(b[i]);
    forall x: char, y: char
      ensures UpperChar(x) == UpperChar(y) <==> SameLetter(x, y)
    {
    }
    hide UpperChar, SameLetter, Upper;
    if |a| == |b| && forall i :: 0 <= i < |a| ==> SameLetter(a[i], b[i]) {
      assert Upper(a) == Upper(b);
    }
  }

  ghost predicate OccursIn(part: string, s: string) {
    exists i :: OccursAt(part, s, i)
  }

  ghost predicate OccursAt(part: string, s: string, i: int) {
    0 <= i && i + |part| <= |s| && s[i..i + |part|] == part
  }

  lemma {:induction false} ContainsIsOccurs(s: string, part: string)
    ensures Contains(s, part) <==> OccursIn(part, s)
  {
    OccursNext(s, part);
    hide OccursIn;
    if s != "" {
      ContainsIsOccurs(s[1..], part);
    }
  }

  lemma OccursNext(s: string, part: string)
    ensures OccursIn(part, s) <==> part <= s || (s != "" && OccursIn(part, s[1..]))
  {
    if part <= s {
      assert OccursAt(part, s, 0);
    }
    if i :| OccursAt(part, s, i) {
      if i == 0 {
        assert part <= s;
      } else {
        assert s[1..][i - 1..i - 1 + |part|] == s[i..i + |part|];
        assert OccursAt(part, s[1..], i - 1);
      }
    }
    if s != "" {
      if i :| OccursAt(part, s[1..], i) {
        assert s[i + 1..i + 1 + |part|] == s[1..][i..i + |part|];
        assert OccursAt(part, s, i + 1);
      }
    }
  }

  function TrimStart(s: string): string {
    if s != "" && IsWhitespace(s[0]) then TrimStart(s[1..]) else s
  }

  function TrimEnd(s: string): string {
    if s != "" && IsWhitespace(s[|s| - 1]) then TrimEnd(s[..|s| - 1]) else s
  }

  function Trim(s: string): string {
    TrimEnd(TrimStart(s))
  }

  /** Not blank, and no white space at either end. */
  ghost predicate Tidy(s: string) {
    s != "" && !IsWhitespace(s[0]) && !IsWhitespace(s[|s| - 1])
  }

  lemma {:induction false} ContainsPart(a: string, s: string, b: string, part: string)
    requires Contains(s, part)
    ensures Contains(a + s + b, part)
  {
    var t := a + s + b;
    if a != "" {
      assert t[1..] == a[1..] + s + b;
      ContainsPart(a[1..], s, b, part);
    } else if !(part <= s) {
      assert t == s + b && t[1..] == s[1..] + b;
      ContainsPart("", s[1..], b, part);
      assert "" + s[1..] + b == t[1..];
    } else {
      assert part <= t;
    }
  }

  ghost predicate AllBlank(s: string) {
    forall i :: 0 <= i < |s| ==> IsWhitespace(s[i])
  }

  /** Trimming takes blanks off both ends; what is left is nothing or tidy. */
  lemma TrimIsPart(s: string) returns (a: string, b: string)
    ensures s == a + Trim(s) + b && AllBlank(a) && AllBlank(b) && (Trim(s) == "" || Tidy(Trim(s)))
  {
    hide TrimStart, TrimEnd;
    a := TrimStartIsPart(s);
    b := TrimEndIsPart(TrimStart(s));
  }

  lemma {:induction false} TrimStartIsPart(s: string) returns (a: string)
    ensures |a| <= |s| && s == a + TrimStart(s) && TrimStart(s) == s[|a|..]
    ensures AllBlank(a) && (TrimStart(s) == "" || !IsWhitespace(TrimStart(s)[0]))
  {
    hide IsWhitespace;
    if s != "" && IsWhitespace(s[0]) {
      var rest := TrimStartIsPart(s[1..]);
      a := [s[0]] + rest;
    } else {
      a := "";
    }
  }

  lemma {:induction false} TrimEndIsPart(s: string) returns (b: string)
    ensures |b| <= |s| && s == TrimEnd(s) + b && TrimEnd(s) == s[..|s| - |b|]
    ensures AllBlank(b) && (TrimEnd(s) == "" || !IsWhitespace(TrimEnd(s)[|TrimEnd(s)| - 1]))
  {
    hide IsWhitespace, TrimEnd;
    b := "";
    TrimEndNext(s);
    if s != "" && IsWhitespace(s[|s| - 1]) {
      var front, last := s[..|s| - 1], s[|s| - 1];
      var rest := TrimEndIsPart(front);
      b := rest + [last];
      assert s == front + [last] == TrimEnd(s) + b;
      hide AllBlank;
      assert s[..|s| - |b|] == front[..|front| - |rest|];
    }
  }

  lemma TrimEndNext(s: string)
    ensures TrimEnd(s) == if s != "" && IsWhitespace(s[|s| - 1]) then TrimEnd(s[..|s| - 1]) else s
  {
  }

  lemma NothingToTrim()
    ensures Trim("") == ""
  {
  }

  /** What a text lacks, it lacks after trimming. */
  lemma TrimmedLacks(s: string, part: string)
    ensures Contains(Trim(s), part) ==> Contains(s, part)
    ensures forall c :: c in Trim(s) ==> c in s
  {
    var a, b := TrimIsPart(s);
    if Contains(Trim(s), part) {
      ContainsPart(a, Trim(s), b, part);
    }
  }

  lemma TidyNotEmpty(s: string)
    requires Tidy(s)
    ensures s != ""
  {
  }

  lemma TidyStays(s: string)
    requires Tidy(s)
    ensures Trim(s) == s
  {
  }

  predicate IsDigit(c: char) {
    '0' <= c <= '9'
  }

  predicate AllDigits(s: string) {
    forall i :: 0 <= i < |s| ==> IsDigit(s[i])
  }

  function DigitChar(d: nat): (c: char)
    requires d < 10
    ensures IsDigit(c)
  {
    ('0' as int + d) as char
  }

  /** The decimal representation without leading zeros. */
  function Decimal(n: nat): (s: string)
    ensures s != "" && AllDigits(s)
  {
    if n < 10 then [DigitChar(n)] else Decimal(n / 10) + [DigitChar(n % 10)]
  }

  function DigitsValue(s: string): nat
    requires AllDigits(s)
  {
    if s == "" then 0 else DigitsValue(s[..|s| - 1]) * 10 + (s[|s| - 1] as int - '0' as int)
  }

  /** Parsing an unsigned integer: digits, after at most one plus sign, within the type's range. */
  function ParseUnsigned(s: string, max: nat): (r: Option<nat>)
    ensures r.Some? ==> r.value <= max
  {
    var t := if s != "" && s[0] == '+' then s[1..] else s;
    if t == "" || !AllDigits(t) || DigitsValue(t) > max then None else Some(DigitsValue(t))
  }

  lemma {:induction false} DecimalValue(n: nat)
    ensures DigitsValue(Decimal(n)) == n
  {
    if n < 10 {
      assert Decimal(n)[..0] == "";
    } else {
      DecimalValue(n / 10);
      assert Decimal(n)[..|Decimal(n)| - 1] == Decimal(n / 10);
    }
  }

  /** The ten digits, by what they look like. */
  lemma DigitsAre(d: nat, c: char)
    requires d < 10
    ensures DigitChar(d) == "0123456789"[d] && (IsDigit(c) <==> c in "0123456789")
  {
  }

  /** What is read as a number in range: digits, in any number, after at most one plus sign. */
  lemma UnsignedAre(s: string, max: nat, n: nat)
    ensures ParseUnsigned(s, max) == Some(n) <==>
            n <= max && exists t :: (s == t || s == "+" + t) && t != "" && AllDigits(t) && DigitsValue(t) == n
  {
    if t :| (s == t || s == "+" + t) && t != "" && AllDigits(t) && DigitsValue(t) == n {
      assert s == t ==> IsDigit(s[0]);
      assert s == "+" + t ==> s[1..] == t;
    }
    if ParseUnsigned(s, max) == Some(n) && s[0] == '+' {
      assert s == "+" + s[1..];
    }
  }

  /** Printing and parsing a number in range gives it back. */
  lemma ParsePrinted(n: nat, max: nat)
    requires n <= max
    ensures ParseUnsigned(Decimal(n), max) == Some(n)
  {
    DecimalValue(n);
    assert IsDigit(Decimal(n)[0]);
  }
}
