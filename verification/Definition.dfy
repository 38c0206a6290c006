/** Workflow definitions as text (workflow/src/lib.rs): what they say, and that whatever is accepted can run. */
module Definitions {
  import opened Results
  import opened Sequences
  import opened Text
  import opened LineText
  import opened Tasks
  import opened Workflow
  import opened Trace
  import Execution

  /** One step as a definition gives it; dependencies are positions of earlier steps. */
  datatype StepSpec = StepSpec(name: string, capability: string, deps: seq<nat>)

  datatype Definition = Definition(name: string, steps: seq<StepSpec>)

  datatype DefinitionError =
    | UnexpectedLine | MissingColon | MissingName | MissingCapability | UnknownStep | DuplicateStep | NoSteps

  // ---------------------------------------------------------------------------
  // Reading
  // ---------------------------------------------------------------------------

  /** Where a name was defined. */
  function Find(names: seq<string>, name: string): (r: Option<nat>)
    ensures r.Some? ==> r.value < |names| && names[r.value] == name
    ensures r.None? ==> name !in names
  {
    if names == [] then None
    else if names[|names| - 1] == name then Some(|names| - 1)
    else
      assert names == names[..|names| - 1] + [names[|names| - 1]];
      Find(names[..|names| - 1], name)
  }

  /** The steps a list of names refers to; empty names are skipped. */
  function ReadDeps(names: seq<string>, pieces: seq<string>): (r: Result<seq<nat>, DefinitionError>)
    ensures r.Ok? ==> AllBelow(r.value, |names|)
  {
    if pieces == [] then Ok([])
    else if Trim(pieces[0]) == "" then ReadDeps(names, pieces[1..])
    else
      var first := Find(names, Trim(pieces[0]));
      if first.None? then Err(UnknownStep)
      else
        var more := ReadDeps(names, pieces[1..]);
        if more.Err? then more else Ok([first.value] + more.value)
  }

  ghost function NotEmpty(pieces: seq<string>): seq<string> {
    if pieces == [] then []
    else (if Trim(pieces[0]) == "" then [] else [Trim(pieces[0])]) + NotEmpty(pieces[1..])
  }

  /** Reading a list of names fails exactly if one of them, apart from empty ones, is not that of an earlier step; and
      otherwise it gives one position of such a step for each, in order. */
  lemma {:induction false} DepsExactly(names: seq<string>, pieces: seq<string>)
    ensures var (r, listed) := (ReadDeps(names, pieces), NotEmpty(pieces));
            && (r.Err? <==> exists name :: name in listed && name !in names)
            && (r.Err? ==> r.error == UnknownStep)
            && (r.Ok? ==> |r.value| == |listed|
                          && forall j :: 0 <= j < |listed| ==> r.value[j] < |names| && names[r.value[j]] == listed[j])
  {
    hide Trim;
    if pieces != [] {
      DepsExactly(names, pieces[1..]);
      var rest := NotEmpty(pieces[1..]);
      if Trim(pieces[0]) != "" {
        assert NotEmpty(pieces) == [Trim(pieces[0])] + rest;
        assert Trim(pieces[0]) in NotEmpty(pieces) && forall x :: x in rest ==> x in NotEmpty(pieces);
      } else {
        assert NotEmpty(pieces) == rest;
      }
    }
  }

  /** A `step` line without its keyword, after steps of the given names. */
  function ReadStep(names: seq<string>, rest: string): (r: Result<StepSpec, DefinitionError>)
    ensures r.Ok? ==> r.value.name !in names && AllBelow(r.value.deps, |names|)
  {
    var colon := SplitOnce(rest, ":");
    if colon.None? then Err(MissingColon)
    else
      var name := Trim(colon.value.0);
      if name == "" then Err(MissingName)
      else
        var arrow := SplitOnce(colon.value.1, "<-");
        var capability := Trim(if arrow.Some? then arrow.value.0 else colon.value.1);
        if capability == "" then Err(MissingCapability)
        else
          var deps := if arrow.Some? then ReadDeps(names, Pieces(Trim(arrow.value.1), ',')) else Ok([]);
          if deps.Err? then Err(deps.error)
          else if name in names then Err(DuplicateStep)
          else Ok(StepSpec(name, capability, deps.value))
  }

  function Names(specs: seq<StepSpec>): (r: seq<string>)
    ensures |r| == |specs| && forall i :: 0 <= i < |r| ==> r[i] == specs[i].name
  {
    seq(|specs|, i requires 0 <= i < |specs| => specs[i].name)
  }

  /** What has been read: the name given last, and the definition as far as it goes. Its name is settled when its first
      step is. */
  datatype Draft = Draft(name: string, made: Definition) {
    function WithStep(step: StepSpec): Draft {
      this.(made := Definition(if made.steps == [] then name else made.name, made.steps + [step]))
    }
  }

  const DEFAULT_NAME := "workflow"

  /** One line taken in; comments and blank lines say nothing. */
  function ReadLine(d: Draft, raw: string): Result<Draft, DefinitionError> {
    var line := Trim(raw);
    if line == "" || line[0] == '#' then Ok(d)
    else if "workflow:" <= line then Ok(d.(name := Trim(line[9..])))
    else if !("step " <= line) then Err(UnexpectedLine)
    else
      var step := ReadStep(Names(d.made.steps), line[5..]);
      if step.Err? then Err(step.error) else Ok(d.WithStep(step.value))
  }

  function ReadLines(lines: seq<string>): Result<Draft, DefinitionError> {
    if lines == [] then Ok(Draft(DEFAULT_NAME, Definition(DEFAULT_NAME, [])))
    else
      var before := ReadLines(lines[..|lines| - 1]);
      if before.Err? then before else ReadLine(before.value, lines[|lines| - 1])
  }

  function Read(text: string): Result<Definition, DefinitionError> {
    var d := ReadLines(Lines(text));
    if d.Err? then Err(d.error) else if d.value.made.steps == [] then Err(NoSteps) else Ok(d.value.made)
  }

  /** Steps have different names and depend on earlier ones only. */
  ghost predicate SpecsOk(specs: seq<StepSpec>) {
    NoDup(Names(specs)) && forall i :: 0 <= i < |specs| ==> AllBelow(specs[i].deps, i)
  }

  // ---------------------------------------------------------------------------
  // Writing
  // ---------------------------------------------------------------------------

  ghost predicate OneLine(s: string) {
    '\n' !in s
  }

  ghost predicate TitleOk(name: string) {
    Trim(name) == name && OneLine(name)
  }

  ghost predicate NameOk(name: string) {
    Tidy(name) && OneLine(name) && ':' !in name
  }

  ghost predicate CapabilityOk(capability: string) {
    Tidy(capability) && OneLine(capability) && !Contains(capability, "<-")
  }

  /** Names that are listed as dependencies have no comma. */
  ghost predicate Listable(names: seq<string>, deps: seq<nat>) {
    AllBelow(deps, |names|) && forall d :: d in deps ==> ',' !in names[d]
  }

  ghost predicate StepsOk(specs: seq<StepSpec>) {
    SpecsOk(specs) && forall i :: 0 <= i < |specs| ==>
      NameOk(specs[i].name) && CapabilityOk(specs[i].capability) && Listable(Names(specs)[..i], specs[i].deps)
  }

  /** The definitions that can be written. */
  ghost predicate Writable(def: Definition) {
    TitleOk(def.name) && def.steps != [] && StepsOk(def.steps)
  }

  ghost function DepNames(names: seq<string>, deps: seq<nat>): (r: seq<string>)
    requires AllBelow(deps, |names|)
    ensures |r| == |deps| && forall i :: 0 <= i < |r| ==> deps[i] in deps && r[i] == names[deps[i]]
  {
    assert forall i :: 0 <= i < |deps| ==> deps[i] in deps;
    seq(|deps|, i requires 0 <= i < |deps| => names[deps[i]])
  }

  /** What follows the name of a step. */
  ghost function SpecText(names: seq<string>, capability: string, deps: seq<nat>): string
    requires AllBelow(deps, |names|)
  {
    " " + capability + if deps == [] then "" else " <- " + Separated(DepNames(names, deps), ',')
  }

  ghost function StepLine(names: seq<string>, s: StepSpec): string
    requires AllBelow(s.deps, |names|)
  {
    "step " + s.name + ":" + SpecText(names, s.capability, s.deps)
  }

  ghost function StepLines(specs: seq<StepSpec>): seq<string>
    requires SpecsOk(specs)
  {
    if specs == [] then []
    else
      FrontOk(specs);
      var front, last := specs[..|specs| - 1], specs[|specs| - 1];
      StepLines(front) + [StepLine(Names(front), last)]
  }

  lemma FrontOk(specs: seq<StepSpec>)
    requires specs != [] && SpecsOk(specs)
    ensures SpecsOk(specs[..|specs| - 1]) && specs[|specs| - 1].name !in Names(specs[..|specs| - 1])
    ensures Names(specs) == Names(specs[..|specs| - 1]) + [specs[|specs| - 1].name]
    ensures AllBelow(specs[|specs| - 1].deps, |Names(specs[..|specs| - 1])|)
  {
    var front := specs[..|specs| - 1];
    assert Names(specs) == Names(front) + [specs[|specs| - 1].name];
    NoDupSnoc(Names(front), specs[|specs| - 1].name);
    assert forall i :: 0 <= i < |front| ==> front[i] == specs[i];
  }

  lemma {:induction false} FindNamed(names: seq<string>, i: nat)
    requires NoDup(names) && i < |names|
    ensures Find(names, names[i]) == Some(i)
  {
    var r := Find(names, names[i]);
    assert names[i] in names;
    assert r.Some?;
  }

  lemma {:induction false} DepsRead(names: seq<string>, deps: seq<nat>)
    requires NoDup(names) && forall i :: 0 <= i < |names| ==> Tidy(names[i])
    requires AllBelow(deps, |names|)
    ensures ReadDeps(names, DepNames(names, deps)) == Ok(deps)
  {
    hide Find, Trim, NoDup, Tidy;
    if deps != [] {
      assert deps[0] in deps && forall d :: d in deps[1..] ==> d in deps;
      var first := names[deps[0]];
      TidyStays(first);
      TidyNotEmpty(first);
      FindNamed(names, deps[0]);
      assert DepNames(names, deps)[1..] == DepNames(names, deps[1..]);
      DepsRead(names, deps[1..]);
      assert [deps[0]] + deps[1..] == deps;
    }
  }

  lemma {:induction false} SeparatedTidy(fields: seq<string>)
    requires fields != [] && forall i :: 0 <= i < |fields| ==> NameOk(fields[i])
    ensures Tidy(Separated(fields, ',')) && OneLine(Separated(fields, ','))
  {
    hide IsWhitespace;
    if |fields| > 1 {
      SeparatedTidy(fields[1..]);
    }
  }

  lemma Padded(s: string)
    requires Tidy(s)
    ensures Trim(" " + s) == s && Trim(" " + s + " ") == s
  {
    BlankIsSpace();
    hide IsWhitespace;
    assert (" " + s)[1..] == s && (" " + s + " ")[1..] == s + " ";
    assert (s + " ")[..|s|] == s;
    assert TrimStart(" " + s) == TrimStart(s) == s;
    assert TrimStart(" " + s + " ") == TrimStart(s + " ") == s + " ";
    assert TrimEnd(s + " ") == TrimEnd(s) == s;
  }

  lemma BlankIsSpace()
    ensures IsWhitespace(' ') && IsWhitespace('\r')
  {
  }

  lemma {:induction false} BlankAround(s: string, k: nat)
    requires !Contains(s, "<-") && k <= |s|
    ensures !Contains(s[k..] + " <", "<-")
    decreases |s| - k
  {
    var t := s[k..] + " <";
    if k == |s| {
      assert t == " <" && t[1..] == "<" && t[0] == ' ';
      TooShort("<", "<-");
    } else {
      PartLacks(s, k);
      assert t[1..] == s[k + 1..] + " <";
      BlankAround(s, k + 1);
      assert t[0] == s[k] && t[1] == if k + 1 < |s| then s[k + 1] else ' ';
    }
  }

  lemma {:induction false} PartLacks(s: string, k: nat)
    requires !Contains(s, "<-") && k <= |s|
    ensures !Contains(s[k..], "<-")
  {
    assert s[..k] + s[k..] + "" == s;
    if Contains(s[k..], "<-") {
      ContainsPart(s[..k], s[k..], "", "<-");
    }
  }

  /** A capability without dependencies is read back. */
  lemma CapabilityAlone(capability: string)
    requires CapabilityOk(capability)
    ensures SplitOnce(" " + capability, "<-").None? && Trim(" " + capability) == capability
  {
    hide SplitOnce, Trim, IsWhitespace;
    assert (" " + capability)[1..] == capability && (" " + capability)[0] == ' ';
    NotContained(" " + capability, "<-");
    Padded(capability);
  }

  /** A capability and what follows the arrow are read back. */
  lemma CapabilityBeforeArrow(capability: string, d: string)
    requires CapabilityOk(capability) && Tidy(d)
    ensures var arrow := SplitOnce(" " + capability + (" <- " + d), "<-");
            arrow.Some? && Trim(arrow.value.0) == capability && Trim(arrow.value.1) == d
  {
    hide SplitOnce, Trim, IsWhitespace;
    Padded(capability);
    Padded(d);
    BlankAround(capability, 0);
    var before := " " + capability + " ";
    assert before + "<-"[..1] == " " + (capability + " <");
    assert (" " + (capability + " <"))[1..] == capability[0..] + " <";
    CutFirst(before, " " + d, "<-");
    assert " " + capability + (" <- " + d) == before + "<-" + (" " + d);
  }

  /** What follows the name is read back. */
  lemma SpecTextRead(names: seq<string>, s: StepSpec)
    requires NoDup(names) && Listable(names, s.deps) && forall i :: 0 <= i < |names| ==> NameOk(names[i])
    requires CapabilityOk(s.capability)
    ensures var arrow := SplitOnce(SpecText(names, s.capability, s.deps), "<-");
            if s.deps == [] then arrow.None? && Trim(SpecText(names, s.capability, s.deps)) == s.capability
            else arrow.Some? && Trim(arrow.value.0) == s.capability
                 && ReadDeps(names, Pieces(Trim(arrow.value.1), ',')) == Ok(s.deps)
  {
    hide SplitOnce, Trim, Separated, Pieces, ReadDeps, Tidy, Contains;
    if s.deps == [] {
      CapabilityAlone(s.capability);
      assert " " + s.capability + "" == " " + s.capability;
    } else {
      var deps := DepNames(names, s.deps);
      SeparatedTidy(deps);
      CapabilityBeforeArrow(s.capability, Separated(deps, ','));
      PiecesOfSeparated(deps, ',');
      DepsRead(names, s.deps);
    }
  }

  lemma StepRead(names: seq<string>, s: StepSpec)
    requires NoDup(names) && Listable(names, s.deps) && forall i :: 0 <= i < |names| ==> NameOk(names[i])
    requires NameOk(s.name) && CapabilityOk(s.capability) && s.name !in names
    ensures ReadStep(names, s.name + ":" + SpecText(names, s.capability, s.deps)) == Ok(s)
  {
    hide SplitOnce, Trim, Pieces, ReadDeps, SpecText, Tidy, Contains;
    CutHere(s.name, SpecText(names, s.capability, s.deps), ":");
    TidyStays(s.name);
    TidyNotEmpty(s.name);
    TidyNotEmpty(s.capability);
    SpecTextRead(names, s);
  }

  lemma StepLineTidy(names: seq<string>, s: StepSpec)
    requires AllBelow(s.deps, |names|) && forall i :: 0 <= i < |names| ==> NameOk(names[i])
    requires NameOk(s.name) && CapabilityOk(s.capability)
    ensures Tidy(StepLine(names, s)) && Clean(StepLine(names, s))
  {
    BlankIsSpace();
    hide IsWhitespace, Separated, Contains;
    LetterIsInk();
    if s.deps != [] {
      SeparatedTidy(DepNames(names, s.deps));
    }
  }

  lemma LetterIsInk()
    ensures !IsWhitespace('s') && !IsWhitespace('w') && !IsWhitespace(':')
  {
  }

  ghost function TitleLine(name: string): string {
    "workflow: " + name
  }

  /** The line with the workflow's name is read back. */
  lemma TitleRead(name: string, d: Draft)
    requires TitleOk(name)
    ensures ReadLine(d, TitleLine(name)) == Ok(d.(name := name)) && Clean(TitleLine(name))
  {
    hide Trim;
    TitleTrimmed(name);
    var line := Trim(TitleLine(name));
    assert line[0] == 'w' && "workflow:" <= line;
  }

  lemma TitleTrimmed(name: string)
    requires TitleOk(name)
    ensures Clean(TitleLine(name))
    ensures var line := Trim(TitleLine(name));
            "workflow:" <= line && Trim(line[9..]) == name
  {
    BlankIsSpace();
    LetterIsInk();
    var line := TitleLine(name);
    hide Trim, IsWhitespace;
    if name == "" {
      assert line == "workflow: ";
      BlankTitle();
    } else {
      var a, b := TrimIsPart(name);
      Padded(name);
      TidyStays(line);
      assert line[9..] == " " + name;
    }
  }

  lemma BlankTitle()
    ensures Trim("workflow: ") == "workflow:" && "workflow:"[9..] == "" && Trim("") == ""
  {
    BlankIsSpace();
    LetterIsInk();
    hide IsWhitespace;
    assert "workflow: "[..9] == "workflow:";
    assert TrimStart("workflow: ") == "workflow: ";
    assert TrimEnd("workflow: ") == TrimEnd("workflow:") == "workflow:";
  }

  /** What reading gives after the name and the lines of some steps. */
  ghost predicate SaysSo(r: Result<Draft, DefinitionError>, name: string, specs: seq<StepSpec>) {
    r.Ok? && r.value.name == name && r.value.made.steps == specs && (specs != [] ==> r.value.made.name == name)
  }

  lemma OneMoreSaid(d: Draft, name: string, front: seq<StepSpec>, last: StepSpec)
    requires SaysSo(Ok(d), name, front)
    ensures SaysSo(Ok(d.WithStep(last)), name, front + [last])
  {
  }

  /** Reading the lines of written steps, after the name, gives the steps back. */
  lemma {:induction false} LinesRead(name: string, specs: seq<StepSpec>)
    requires TitleOk(name) && StepsOk(specs)
    ensures SaysSo(ReadLines([TitleLine(name)] + StepLines(specs)), name, specs)
    ensures forall i :: 0 <= i < |StepLines(specs)| ==> Clean(StepLines(specs)[i])
  {
    hide ReadLines, ReadLine, ReadStep, Trim, StepLine, Clean, NameOk, CapabilityOk, NoDup, Listable;
    hide TitleOk, TitleLine;
    if specs == [] {
      OnlyTitleRead(name);
    } else {
      FrontStepsOk(specs);
      FrontOk(specs);
      var front, last := specs[..|specs| - 1], specs[|specs| - 1];
      LinesRead(name, front);
      var before, line := [TitleLine(name)] + StepLines(front), StepLine(Names(front), last);
      StepLinesNext(name, specs);
      hide StepLines;
      var d := ReadLines(before).value;
      LineRead(d, front, last);
      ReadLinesSnoc(before, line);
      OneMoreSaid(d, name, front, last);
      assert front + [last] == specs;
    }
  }

  lemma OnlyTitleRead(name: string)
    requires TitleOk(name)
    ensures ReadLines([TitleLine(name)] + StepLines([])) == Ok(Draft(name, Definition(DEFAULT_NAME, [])))
    ensures StepLines([]) == []
  {
    hide ReadLine, TitleOk, TitleLine;
    var title := [TitleLine(name)];
    assert title[..0] == [] && title + [] == title;
    TitleRead(name, Draft(DEFAULT_NAME, Definition(DEFAULT_NAME, [])));
  }

  lemma StepLinesNext(name: string, specs: seq<StepSpec>)
    requires specs != [] && SpecsOk(specs) && SpecsOk(specs[..|specs| - 1])
    ensures var (front, last) := (specs[..|specs| - 1], specs[|specs| - 1]);
            && AllBelow(last.deps, |front|)
            && StepLines(specs) == StepLines(front) + [StepLine(Names(front), last)]
            && [TitleLine(name)] + StepLines(specs)
               == [TitleLine(name)] + StepLines(front) + [StepLine(Names(front), last)]
  {
    hide StepLine, TitleLine;
    FrontOk(specs);
  }

  lemma ReadLinesSnoc(lines: seq<string>, line: string)
    requires ReadLines(lines).Ok?
    ensures ReadLines(lines + [line]) == ReadLine(ReadLines(lines).value, line)
  {
    hide ReadLine;
    assert (lines + [line])[..|lines|] == lines;
  }

  lemma FrontStepsOk(specs: seq<StepSpec>)
    requires specs != [] && StepsOk(specs)
    ensures var (front, last) := (specs[..|specs| - 1], specs[|specs| - 1]);
            && StepsOk(front) && NameOk(last.name) && CapabilityOk(last.capability) && Listable(Names(front), last.deps)
  {
    hide NameOk, CapabilityOk, Listable, NoDup;
    FrontOk(specs);
    var front := specs[..|specs| - 1];
    assert Names(specs)[..|front|] == Names(front);
    assert forall i :: 0 <= i < |front| ==> front[i] == specs[i] && Names(front)[..i] == Names(specs)[..i];
  }

  lemma LineRead(d: Draft, front: seq<StepSpec>, last: StepSpec)
    requires d.made.steps == front && StepsOk(front) && Listable(Names(front), last.deps) && last.name !in Names(front)
    requires NameOk(last.name) && CapabilityOk(last.capability)
    ensures ReadLine(d, StepLine(Names(front), last)) == Ok(d.WithStep(last))
    ensures Clean(StepLine(Names(front), last))
  {
    hide ReadStep, Trim, Tidy, SpecText, NoDup, Contains;
    var line := StepLine(Names(front), last);
    StepLineTidy(Names(front), last);
    TidyStays(line);
    StepRead(Names(front), last);
    assert line[5..] == last.name + ":" + SpecText(Names(front), last.capability, last.deps);
    assert line[0] == 's' && line[1] == 't' && line[4] == ' ' && line[..5] == "step ";
  }

  /** The text of a definition: its name, then its steps. */
  ghost function Written(def: Definition): string
    requires SpecsOk(def.steps)
  {
    Terminated([TitleLine(def.name)] + StepLines(def.steps))
  }

  lemma WrittenIsRead(def: Definition)
    requires Writable(def)
    ensures Read(Written(def)) == Ok(def)
  {
    hide ReadLines, StepLines, Lines, Terminated, NameOk, CapabilityOk, Listable, TitleOk, Clean;
    LinesRead(def.name, def.steps);
    TitleRead(def.name, Draft(DEFAULT_NAME, Definition(DEFAULT_NAME, [])));
    LinesOfTerminated([TitleLine(def.name)] + StepLines(def.steps));
  }

  // ---------------------------------------------------------------------------
  // What reading returns
  // ---------------------------------------------------------------------------

  lemma {:induction false} ReadDepsAreListable(names: seq<string>, pieces: seq<string>)
    requires ReadDeps(names, pieces).Ok? && forall i :: 0 <= i < |pieces| ==> ',' !in pieces[i]
    ensures Listable(names, ReadDeps(names, pieces).value)
  {
    hide Find, Trim;
    if pieces != [] {
      TrimmedLacks(pieces[0], ",");
      ReadDepsAreListable(names, pieces[1..]);
    }
  }

  lemma ReadStepIsOk(names: seq<string>, rest: string)
    requires ReadStep(names, rest).Ok? && OneLine(rest)
    ensures var s := ReadStep(names, rest).value;
            NameOk(s.name) && CapabilityOk(s.capability) && Listable(names, s.deps)
  {
    hide SplitOnce, Trim, Pieces, ReadDeps, Contains, Tidy;
    var colon := SplitOnce(rest, ":").value;
    assert rest == colon.0 + ":" + colon.1;
    NameIsOk(rest);
    CapabilityIsOk(colon.1);
    var arrow := SplitOnce(colon.1, "<-");
    if arrow.Some? {
      var text := Trim(arrow.value.1);
      PiecesLack(text, ',');
      ReadDepsAreListable(names, Pieces(text, ','));
    }
  }

  lemma NameIsOk(rest: string)
    requires OneLine(rest) && SplitOnce(rest, ":").Some? && Trim(SplitOnce(rest, ":").value.0) != ""
    ensures NameOk(Trim(SplitOnce(rest, ":").value.0))
  {
    hide SplitOnce, Trim, Tidy;
    var before := SplitOnce(rest, ":").value.0;
    CutIsFirst(rest, ":");
    assert before + ":"[..0] == before;
    LacksChar(before, ':');
    var a, b := TrimIsPart(before);
    TrimmedLacks(before, ":");
  }

  lemma {:induction false} LacksChar(s: string, c: char)
    ensures c in s <==> Contains(s, [c])
  {
    if s != "" {
      LacksChar(s[1..], c);
      assert s == [s[0]] + s[1..];
    }
  }

  lemma CapabilityIsOk(spec: string)
    requires OneLine(spec)
    requires var arrow := SplitOnce(spec, "<-"); Trim(if arrow.Some? then arrow.value.0 else spec) != ""
    ensures var arrow := SplitOnce(spec, "<-"); CapabilityOk(Trim(if arrow.Some? then arrow.value.0 else spec))
  {
    hide SplitOnce, Trim, Tidy, Contains;
    var arrow := SplitOnce(spec, "<-");
    var part := if arrow.Some? then arrow.value.0 else spec;
    CutIsFirst(spec, "<-");
    if arrow.Some? {
      assert spec == part + "<-" + arrow.value.1;
      assert "" + part + "<-"[..1] == part + "<-"[..1];
      if Contains(part, "<-") {
        ContainsPart("", part, "<-"[..1], "<-");
      }
    }
    var a, b := TrimIsPart(part);
    TrimmedLacks(part, "<-");
  }

  ghost predicate DraftOk(d: Draft) {
    TitleOk(d.name) && TitleOk(d.made.name) && StepsOk(d.made.steps)
  }

  /** Whatever lines are read: names are trimmed, steps have different names and depend on earlier ones only, and
      nothing is in them that writing would not keep. */
  lemma {:induction false} ReadingIsSound(lines: seq<string>)
    requires ReadLines(lines).Ok? && forall i :: 0 <= i < |lines| ==> OneLine(lines[i])
    ensures DraftOk(ReadLines(lines).value)
  {
    hide ReadLine, DraftOk, OneLine;
    if lines == [] {
      NothingReadIsOk();
    } else {
      ReadingIsSound(lines[..|lines| - 1]);
      LineKeepsOk(ReadLines(lines[..|lines| - 1]).value, lines[|lines| - 1]);
    }
  }

  lemma NothingReadIsOk()
    ensures DraftOk(Draft(DEFAULT_NAME, Definition(DEFAULT_NAME, [])))
  {
    LetterIsInk();
    TidyStays(DEFAULT_NAME);
  }

  lemma LineKeepsOk(d: Draft, raw: string)
    requires DraftOk(d) && OneLine(raw) && ReadLine(d, raw).Ok?
    ensures DraftOk(ReadLine(d, raw).value)
  {
    hide ReadStep, Trim, StepsOk, NameOk, CapabilityOk, Listable;
    TrimmedLacks(raw, "");
    var line := Trim(raw);
    if line != "" && line[0] != '#' {
      if "workflow:" <= line {
        TrimmedLacks(line[9..], "");
        TrimTwice(line[9..]);
      } else {
        var step := ReadStep(Names(d.made.steps), line[5..]).value;
        ReadStepIsOk(Names(d.made.steps), line[5..]);
        OneMoreStep(d.made.steps, step);
      }
    }
  }

  lemma TrimTwice(s: string)
    ensures Trim(Trim(s)) == Trim(s)
  {
    hide Trim;
    var a, b := TrimIsPart(s);
    if Trim(s) == "" {
      NothingToTrim();
    } else {
      TidyStays(Trim(s));
    }
  }

  lemma OneMoreStep(specs: seq<StepSpec>, step: StepSpec)
    requires StepsOk(specs) && NameOk(step.name) && CapabilityOk(step.capability) && Listable(Names(specs), step.deps)
    requires step.name !in Names(specs)
    ensures StepsOk(specs + [step])
  {
    hide NameOk, CapabilityOk, Listable, NoDup;
    ListableIsBelow(Names(specs), step.deps);
    var more := specs + [step];
    assert Names(more) == Names(specs) + [step.name];
    NoDupSnoc(Names(specs), step.name);
    assert forall i :: 0 <= i < |specs| ==> more[i] == specs[i] && Names(more)[..i] == Names(specs)[..i];
    assert Names(more)[..|specs|] == Names(specs);
  }

  lemma ListableIsBelow(names: seq<string>, deps: seq<nat>)
    requires Listable(names, deps)
    ensures AllBelow(deps, |names|)
  {
  }

  /** Whatever text is read, the definition that comes out can be written. */
  lemma ReadingIsWritable(text: string)
    requires Read(text).Ok?
    ensures Writable(Read(text).value)
  {
    hide ReadLines, Lines, StepsOk, TitleOk;
    LinesAreSingle(text);
    ReadingIsSound(Lines(text));
  }

  /** A definition reads back from its text exactly if it is one that reading can return. */
  lemma DefinitionRoundTrip(def: Definition)
    requires SpecsOk(def.steps)
    ensures Read(Written(def)) == Ok(def) <==> Writable(def)
  {
    hide Read, Writable, Written;
    if Writable(def) {
      WrittenIsRead(def);
    }
    if Read(Written(def)) == Ok(def) {
      ReadingIsWritable(Written(def));
    }
  }

  // ---------------------------------------------------------------------------
  // Building the workflow
  // ---------------------------------------------------------------------------

  /** The steps of the workflow are those of the definition, each with a task as it is created. */
  ghost predicate Builds(specs: seq<StepSpec>, capabilityOf: string -> Capability, ids: nat -> TaskId, steps: seq<Step>)
    reads set s | s in steps :: s.task
  {
    && |steps| == |specs|
    && forall i :: 0 <= i < |steps| ==>
         && steps[i].deps == specs[i].deps
         && steps[i].task.id == ids(i) && steps[i].task.capability == capabilityOf(specs[i].capability)
         && steps[i].task.state == Created && steps[i].task.attempts == 0
  }

  /** Task ids as they are minted, never the same one twice. */
  ghost predicate Fresh(ids: nat -> TaskId) {
    forall a, b :: a != b ==> ids(a) != ids(b)
  }

  /** What is kept while steps are added. */
  ghost predicate Building(specs: seq<StepSpec>, capabilityOf: string -> Capability, ids: nat -> TaskId,
                           steps: seq<Step>)
    reads set s | s in steps :: s.task
  {
    Builds(specs, capabilityOf, ids, steps) && SelfContained(steps)
  }

  method AddSpec(dag: Dag, spec: StepSpec, capabilityOf: string -> Capability, ids: nat -> TaskId,
                 ghost specs: seq<StepSpec>)
    requires Building(specs, capabilityOf, ids, dag.steps) && AllBelow(spec.deps, |specs|)
    modifies dag`steps
    ensures Building(specs + [spec], capabilityOf, ids, dag.steps)
    ensures forall s :: s in dag.steps ==> s in old(dag.steps) || fresh(s.task)
  {
    hide SelfContained, AllBelow, KnownIds;
    var task := new Task(ids(|dag.steps|), capabilityOf(spec.capability));
    assert SelfContained(dag.steps);
    var at := dag.AddStep(task, spec.deps);
    assert forall i :: 0 <= i < |old(dag.steps)| ==>
             dag.steps[i] == old(dag.steps)[i] && dag.steps[i] in old(dag.steps);
  }

  lemma BuiltRuns(specs: seq<StepSpec>, capabilityOf: string -> Capability, ids: nat -> TaskId, dag: Dag)
    requires Building(specs, capabilityOf, ids, dag.steps) && Fresh(ids)
    ensures Execution.FreshTasks(dag.steps)
    ensures InRange(dag.DepLists()) && !HasCycle(dag.DepLists())
    ensures Runnable(Execution.DepsOf(dag.steps))
  {
    var names := Execution.StepIds(dag.steps);
    assert forall i :: 0 <= i < |names| ==> names[i] == ids(i);
    EarlierDepsAreOrderable(dag.DepLists());
    hide SelfContained, InRange, HasCycle, Runnable;
    Execution.SelfContainedRuns(dag.steps);
  }

  /** The workflow built from the steps read so far; there is none before the first step. */
  twostate predicate Underway(made: Definition, capabilityOf: string -> Capability, ids: nat -> TaskId, new dag: Dag?)
    reads dag, if dag == null then {} else set s | s in dag.steps :: s.task
  {
    && (dag == null <==> made.steps == [])
    && (dag != null ==>
          && fresh(dag) && dag.name == made.name && Building(made.steps, capabilityOf, ids, dag.steps)
          && forall s :: s in dag.steps ==> fresh(s.task))
  }

  /** Whatever definition is accepted, the workflow built from it can be put in order and can run to the end. */
  method FromDefinition(text: string, workflow: WorkflowId, capabilityOf: string -> Capability, ids: nat -> TaskId)
      returns (r: Result<Dag, DefinitionError>)
    requires Fresh(ids)
    ensures r.Err? ==> Read(text) == Err(r.error)
    ensures r.Ok? ==>
              && Read(text).Ok? && fresh(r.value) && r.value.name == Read(text).value.name
              && Building(Read(text).value.steps, capabilityOf, ids, r.value.steps)
    ensures r.Ok? ==> Execution.FreshTasks(r.value.steps) && Runnable(Execution.DepsOf(r.value.steps))
    ensures r.Ok? ==> InRange(r.value.DepLists()) && !HasCycle(r.value.DepLists())
  {
    hide ReadStep, Lines, Building, InRange, HasCycle, Runnable, ReadLine;
    hide Execution.DepsOf, Execution.FreshTasks, Fresh;
    NothingBuilt(capabilityOf, ids);
    var dag: Dag? := null;
    var d := Draft(DEFAULT_NAME, Definition(DEFAULT_NAME, []));
    var lines := Lines(text);
    for i := 0 to |lines|
      invariant ReadLines(lines[..i]) == Ok(d)
      invariant Underway(d.made, capabilityOf, ids, dag)
    {
      assert lines[..i + 1][..i] == lines[..i];
      var after := ReadLine(d, lines[i]);
      if after.Err? {
        ReadLinesFail(lines, i + 1);
        return Err(after.error);
      }
      LineAddsOne(d, lines[i]);
      if |after.value.made.steps| > |d.made.steps| {
        var step := after.value.made.steps[|d.made.steps|];
        if dag == null {
          dag := new Dag(workflow, d.name);
        }
        AddSpec(dag, step, capabilityOf, ids, d.made.steps);
      }
      d := after.value;
    }
    assert lines[..|lines|] == lines;
    if dag == null {
      return Err(NoSteps);
    }
    BuiltRuns(d.made.steps, capabilityOf, ids, dag);
    return Ok(dag);
  }

  lemma NothingBuilt(capabilityOf: string -> Capability, ids: nat -> TaskId)
    ensures Building([], capabilityOf, ids, [])
  {
  }

  lemma LineAddsOne(d: Draft, line: string)
    requires ReadLine(d, line).Ok?
    ensures var after := ReadLine(d, line).value;
            || after.made == d.made
            || (|after.made.steps| == |d.made.steps| + 1
                && after == d.WithStep(after.made.steps[|d.made.steps|])
                && AllBelow(after.made.steps[|d.made.steps|].deps, |d.made.steps|))
  {
    hide ReadStep, Trim;
  }

  lemma {:induction false} ReadLinesFail(lines: seq<string>, n: nat)
    requires n <= |lines| && ReadLines(lines[..n]).Err?
    ensures ReadLines(lines) == ReadLines(lines[..n])
    decreases |lines|
  {
    hide ReadLine;
    if n < |lines| {
      assert lines[..|lines| - 1][..n] == lines[..n];
      ReadLinesFail(lines[..|lines| - 1], n);
    } else {
      assert lines[..n] == lines;
    }
  }
}
