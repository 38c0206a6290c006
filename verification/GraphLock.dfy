/** The locked load-modify-save protocol on the graph file (graph/src/store.rs), as interleaved steps of
    any number of threads in any number of processes, any of which may crash anywhere. */
module GraphLock {
  import opened Results
  import opened Sequences

  /** A thread of some process. */
  datatype Writer = Writer(process: nat, thread: nat)

  /** A scratch file, named after the process and its running count of saves. */
  datatype Scratch = Scratch(process: nat, count: nat)

  /** The text format, what a missing file stands for, and the change each writer makes. */
  datatype Store<!G> = Store(save: G -> string, load: string -> G, empty: G, update: Writer -> (G -> G))

  /** How far one writer has got. `holds` tells a save inside `update` from a bare one. */
  datatype Phase<G> =
    | Idle
    | Locked
    | Loaded(graph: G)
    | Ready(text: string, holds: bool)
    | Writing(text: string, path: Scratch, written: nat, holds: bool)
    | Renamed(holds: bool)
    | Done(saved: bool)
    | Failed
    | Crashed(held: bool)

  /** The directory and the processes. `acquired` and `renamed` record, in order, who took the lock and
      whose file was renamed into place. */
  datatype State<G> = State(
    lock: bool, file: Option<string>, scratch: map<Scratch, string>, counts: map<nat, nat>,
    phases: map<Writer, Phase<G>>, acquired: seq<Writer>, renamed: seq<Writer>)
  {
    ghost function Of(w: Writer): Phase<G> {
      if w in phases then phases[w] else Idle
    }

    ghost function Count(process: nat): nat {
      if process in counts then counts[process] else 0
    }
  }

  datatype Action<G> =
    | Acquire | Timeout | Load | Apply | BareSave(graph: G)
    | Create | Write(upTo: nat) | Rename | Release(removed: bool)
    | IoError(removed: bool) | Crash | BreakStale

  /** Writing at an offset: a file shorter than the offset is filled up with NUL characters. */
  function WriteAt(content: string, offset: nat, chunk: string): string {
    var padded := if |content| < offset then content + seq(offset - |content|, _ => '\0') else content;
    padded[..offset] + chunk + (if offset + |chunk| <= |padded| then padded[offset + |chunk|..] else [])
  }

  ghost function LoadFile<G>(store: Store<G>, file: Option<string>): G {
    if file.None? then store.empty else store.load(file.value)
  }

  ghost predicate HoldsLock<G>(p: Phase<G>) {
    match p
    case Locked => true
    case Loaded(_) => true
    case Ready(_, holds) => holds
    case Writing(_, _, _, holds) => holds
    case Renamed(holds) => holds
    case Crashed(held) => held
    case _ => false
  }

  /** Holds the lock and is still there to use it. */
  ghost predicate RunningHolder<G>(p: Phase<G>) {
    HoldsLock(p) && !p.Crashed?
  }

  ghost predicate Running<G>(p: Phase<G>) {
    !p.Idle? && !p.Done? && !p.Failed? && !p.Crashed?
  }

  /** Giving up the lock removes its file, unless that fails, which nobody is told. */
  ghost function Unlocked<G>(lock: bool, p: Phase<G>, removed: bool): bool {
    if HoldsLock(p) && removed then false else lock
  }

  /** One step of writer `w`. */
  ghost predicate Step<G>(store: Store<G>, s: State<G>, w: Writer, a: Action<G>, t: State<G>) {
    var p := s.Of(w);
    match a
    case Acquire =>
      p.Idle? && !s.lock && t == s.(lock := true, phases := s.phases[w := Locked], acquired := s.acquired + [w])
    case Timeout =>
      p.Idle? && s.lock && t == s.(phases := s.phases[w := Failed])
    case Load =>
      p.Locked? && t == s.(phases := s.phases[w := Loaded(LoadFile(store, s.file))])
    case Apply =>
      p.Loaded? && t == s.(phases := s.phases[w := Ready(store.save(store.update(w)(p.graph)), true)])
    case BareSave(g) =>
      p.Idle? && t == s.(phases := s.phases[w := Ready(store.save(g), false)])
    case Create =>
      && p.Ready?
      && var path := Scratch(w.process, s.Count(w.process));
         t == s.(scratch := s.scratch[path := ""],
                 counts := s.counts[w.process := s.Count(w.process) + 1],
                 phases := s.phases[w := Writing(p.text, path, 0, p.holds)])
    case Write(n) =>
      && p.Writing? && p.written < n <= |p.text| && p.path in s.scratch
      && t == s.(scratch := s.scratch[p.path := WriteAt(s.scratch[p.path], p.written, p.text[p.written..n])],
                 phases := s.phases[w := p.(written := n)])
    case Rename =>
      && p.Writing? && p.written == |p.text| && p.path in s.scratch
      && t == s.(file := Some(s.scratch[p.path]), scratch := s.scratch - {p.path},
                 phases := s.phases[w := Renamed(p.holds)], renamed := s.renamed + [w])
    case Release(removed) =>
      p.Renamed? && t == s.(lock := Unlocked(s.lock, p, removed), phases := s.phases[w := Done(true)])
    case IoError(removed) =>
      && (p.Idle? || p.Locked? || p.Loaded? || p.Ready? || p.Writing?)
      && t == s.(lock := Unlocked(s.lock, p, removed), phases := s.phases[w := Failed])
    case Crash =>
      Running(p) && t == s.(phases := s.phases[w := Crashed(HoldsLock(p))])
    case BreakStale =>
      p.Idle? && s.lock && t == s.(lock := false)
  }

  ghost predicate Initial<G>(s: State<G>) {
    && !s.lock && s.scratch == map[] && s.phases == map[]
    && s.acquired == [] && s.renamed == []
  }

  /** A run: any number of steps of any writers, in any order. */
  ghost predicate Run<G(!new)>(store: Store<G>, states: seq<State<G>>, moves: seq<(Writer, Action<G>)>) {
    && |states| == |moves| + 1
    && Initial(states[0])
    && forall k :: 0 <= k < |moves| ==> Step(store, states[k], moves[k].0, moves[k].1, states[k + 1])
  }

  // ---------------------------------------------------------------------------
  // The file is always one complete save
  // ---------------------------------------------------------------------------

  /** A writer in the middle of a save has its scratch file to itself, holding a prefix of its own text. */
  ghost predicate OwnScratch<G>(s: State<G>, w: Writer) {
    var p := s.Of(w);
    p.Writing? ==>
      && p.path.process == w.process && p.path.count < s.Count(w.process)
      && p.path in s.scratch && p.written <= |p.text| && s.scratch[p.path] == p.text[..p.written]
  }

  ghost predicate Apart<G>(s: State<G>, w: Writer, x: Writer) {
    w != x && s.Of(w).Writing? && s.Of(x).Writing? ==> s.Of(w).path != s.Of(x).path
  }

  ghost predicate Intact<G>(s: State<G>) {
    (forall w :: OwnScratch(s, w)) && (forall w, x :: Apart(s, w, x))
  }

  ghost predicate IsSave<G(!new)>(store: Store<G>, text: string) {
    exists g: G :: text == store.save(g)
  }

  /** A text on its way to the disk was produced by one call of `save`. */
  ghost predicate TextIsSave<G(!new)>(store: Store<G>, s: State<G>, w: Writer) {
    var p := s.Of(w);
    p.Ready? || p.Writing? ==> IsSave(store, p.text)
  }

  ghost predicate FileIsSave<G(!new)>(store: Store<G>, first: Option<string>, s: State<G>) {
    s.file == first || (s.file.Some? && IsSave(store, s.file.value))
  }

  ghost predicate Complete<G(!new)>(store: Store<G>, first: Option<string>, s: State<G>) {
    (forall w :: TextIsSave(store, s, w)) && FileIsSave(store, first, s)
  }

  lemma WriteAtEnd(text: string, k: nat, n: nat)
    requires k <= n <= |text|
    ensures WriteAt(text[..k], k, text[k..n]) == text[..n]
  {
  }

  lemma StepKeepsOwnScratch<G(!new)>(store: Store<G>, s: State<G>, w: Writer, a: Action<G>, t: State<G>, x: Writer)
    requires Step(store, s, w, a, t) && OwnScratch(s, w) && OwnScratch(s, x) && Apart(s, w, x)
    ensures OwnScratch(t, x)
  {
    if a.Write? && x == w {
      var p := s.Of(w);
      WriteAtEnd(p.text, p.written, a.upTo);
    }
  }

  lemma StepKeepsApart<G(!new)>(store: Store<G>, s: State<G>, w: Writer, a: Action<G>, t: State<G>, x: Writer,
        y: Writer)
    requires Step(store, s, w, a, t) && OwnScratch(s, x) && OwnScratch(s, y) && Apart(s, x, y)
    ensures Apart(t, x, y)
  {
  }

  lemma StepKeepsIntact<G(!new)>(store: Store<G>, s: State<G>, w: Writer, a: Action<G>, t: State<G>)
    requires Step(store, s, w, a, t) && Intact(s)
    ensures Intact(t)
  {
    hide Step, OwnScratch, Apart;
    forall x ensures OwnScratch(t, x) {
      StepKeepsOwnScratch(store, s, w, a, t, x);
    }
    forall x, y ensures Apart(t, x, y) {
      StepKeepsApart(store, s, w, a, t, x, y);
    }
  }

  lemma StepKeepsTexts<G(!new)>(store: Store<G>, s: State<G>, w: Writer, a: Action<G>, t: State<G>, x: Writer)
    requires Step(store, s, w, a, t) && TextIsSave(store, s, x)
    ensures TextIsSave(store, t, x)
  {
    if w == x && a.Apply? {
      assert IsSave(store, store.save(store.update(w)(s.Of(w).graph)));
    }
    if w == x && a.BareSave? {
      assert IsSave(store, store.save(a.graph));
    }
  }

  lemma StepKeepsFile<G(!new)>(store: Store<G>, first: Option<string>, s: State<G>, w: Writer, a: Action<G>,
        t: State<G>)
    requires Step(store, s, w, a, t) && OwnScratch(s, w) && TextIsSave(store, s, w) && FileIsSave(store, first, s)
    ensures FileIsSave(store, first, t)
  {
    if a.Rename? {
      var text := s.Of(w).text;
      assert text[..|text|] == text;
    }
  }

  lemma StepKeepsComplete<G(!new)>(store: Store<G>, first: Option<string>, s: State<G>, w: Writer,
        a: Action<G>, t: State<G>)
    requires Step(store, s, w, a, t) && Intact(s) && Complete(store, first, s)
    ensures Complete(store, first, t)
  {
    hide Step, TextIsSave, FileIsSave, OwnScratch;
    StepKeepsFile(store, first, s, w, a, t);
    forall x ensures TextIsSave(store, t, x) {
      StepKeepsTexts(store, s, w, a, t, x);
    }
  }

  /** Over every run, bare saves, broken locks and crashes included: the graph file is what it was at the
      start, or exactly the text of one save, never a truncation or a mixture. */
  lemma {:induction false} FileIsAlwaysOneSave<G(!new)>(store: Store<G>, states: seq<State<G>>,
        moves: seq<(Writer, Action<G>)>)
    requires Run(store, states, moves)
    ensures Intact(states[|moves|]) && Complete(store, states[0].file, states[|moves|])
    decreases |moves|
  {
    var n := |moves|;
    if n > 0 {
      FileIsAlwaysOneSave(store, states[..n], moves[..n - 1]);
      var (w, a) := moves[n - 1];
      StepKeepsIntact(store, states[n - 1], w, a, states[n]);
      StepKeepsComplete(store, states[0].file, states[n - 1], w, a, states[n]);
    }
  }

  // ---------------------------------------------------------------------------
  // No update is lost
  // ---------------------------------------------------------------------------

  ghost predicate NoRunningHolder<G>(s: State<G>) {
    forall w :: !RunningHolder(s.Of(w))
  }

  /** A move inside `update`; a lock is judged stale only when whoever took it is gone. */
  ghost predicate Disciplined<G>(s: State<G>, a: Action<G>) {
    !a.BareSave? && (a.BreakStale? ==> NoRunningHolder(s))
  }

  /** From move `from` on, every move is disciplined. */
  ghost predicate DisciplinedFrom<G>(states: seq<State<G>>, moves: seq<(Writer, Action<G>)>, from: nat)
    requires |states| == |moves| + 1
  {
    forall k :: from <= k < |moves| ==> Disciplined(states[k], moves[k].1)
  }

  /** The file after the listed updates, one after the other, each loading what the previous one saved. */
  ghost function Content<G>(store: Store<G>, first: Option<string>, log: seq<Writer>): Option<string> {
    if log == [] then first
    else
      var n := |log| - 1;
      Some(store.save(store.update(log[n])(LoadFile(store, Content(store, first, log[..n])))))
  }

  /** The entries of `order` that are in `kept`, in the same order. */
  ghost function Keep(order: seq<Writer>, kept: set<Writer>): seq<Writer> {
    if order == [] then []
    else
      var n := |order| - 1;
      Keep(order[..n], kept) + if order[n] in kept then [order[n]] else []
  }

  lemma {:induction false} KeepIgnores(order: seq<Writer>, kept: set<Writer>, w: Writer)
    requires w !in order
    ensures Keep(order, kept + {w}) == Keep(order, kept)
  {
    if order != [] {
      assert order[|order| - 1] in order;
      KeepIgnores(order[..|order| - 1], kept, w);
    }
  }

  lemma KeepAppend(order: seq<Writer>, kept: set<Writer>, w: Writer)
    ensures Keep(order + [w], kept) == Keep(order, kept) + if w in kept then [w] else []
  {
    assert (order + [w])[..|order|] == order;
  }

  /** What a writer inside `update` carries was computed from the file as it still is. */
  ghost predicate UpToDate<G>(store: Store<G>, s: State<G>, w: Writer) {
    match s.Of(w)
    case Loaded(g) => g == LoadFile(store, s.file)
    case Ready(text, holds) => holds && text == store.save(store.update(w)(LoadFile(store, s.file)))
    case Writing(text, _, _, holds) => holds && text == store.save(store.update(w)(LoadFile(store, s.file)))
    case Renamed(holds) => holds
    case _ => true
  }

  /** A running holder of the lock is the last writer that took it, and the lock file is there. */
  ghost predicate HoldsLast<G>(s: State<G>, w: Writer) {
    RunningHolder(s.Of(w)) ==> s.lock && s.acquired != [] && s.acquired[|s.acquired| - 1] == w
  }

  /** The logs agree with how far a writer has got. */
  ghost predicate Logged<G>(s: State<G>, w: Writer) {
    match s.Of(w)
    case Idle => w !in s.acquired && w !in s.renamed
    case Renamed(_) => w in s.renamed
    case Done(_) => w in s.renamed
    case Crashed(_) => true
    case _ => w !in s.renamed
  }

  ghost predicate InOrder<G>(store: Store<G>, first: Option<string>, s: State<G>) {
    && NoDup(s.acquired) && NoDup(s.renamed)
    && s.renamed == Keep(s.acquired, Elems(s.renamed))
    && s.file == Content(store, first, s.renamed)
  }

  ghost predicate Serial<G>(store: Store<G>, first: Option<string>, s: State<G>) {
    && (forall w :: OwnScratch(s, w) && UpToDate(store, s, w) && HoldsLast(s, w) && Logged(s, w))
    && InOrder(store, first, s)
  }

  lemma AtMostOneHolder<G>(s: State<G>, w: Writer, x: Writer)
    requires HoldsLast(s, w) && HoldsLast(s, x) && RunningHolder(s.Of(w)) && RunningHolder(s.Of(x))
    ensures w == x
  {
  }

  lemma StepKeepsHoldsLast<G(!new)>(store: Store<G>, s: State<G>, w: Writer, a: Action<G>, t: State<G>, x: Writer)
    requires Step(store, s, w, a, t) && Disciplined(s, a)
    requires HoldsLast(s, w) && HoldsLast(s, x) && UpToDate(store, s, w)
    ensures HoldsLast(t, x)
  {
  }

  lemma StepKeepsUpToDate<G(!new)>(store: Store<G>, s: State<G>, w: Writer, a: Action<G>, t: State<G>, x: Writer)
    requires Step(store, s, w, a, t) && Disciplined(s, a)
    requires HoldsLast(s, w) && HoldsLast(s, x) && UpToDate(store, s, w) && UpToDate(store, s, x)
    ensures UpToDate(store, t, x)
  {
  }

  lemma StepKeepsLogged<G(!new)>(store: Store<G>, s: State<G>, w: Writer, a: Action<G>, t: State<G>, x: Writer)
    requires Step(store, s, w, a, t) && Disciplined(s, a)
    requires Logged(s, w) && Logged(s, x)
    ensures Logged(t, x)
  {
    if a.Rename? {
      assert t.renamed[|s.renamed|] == w;
      assert forall y :: y in t.renamed <==> y in s.renamed || y == w;
    }
    if a.Acquire? {
      assert forall y :: y in t.acquired <==> y in s.acquired || y == w;
    }
  }

  lemma StepKeepsInOrder<G(!new)>(store: Store<G>, first: Option<string>, s: State<G>, w: Writer, a: Action<G>,
        t: State<G>)
    requires Step(store, s, w, a, t) && Disciplined(s, a)
    requires OwnScratch(s, w) && UpToDate(store, s, w) && HoldsLast(s, w) && Logged(s, w)
    requires InOrder(store, first, s)
    ensures InOrder(store, first, t)
  {
    hide Disciplined, NoDup, Keep, Content, OwnScratch;
    match a {
      case Acquire =>
        KeepAppend(s.acquired, Elems(s.renamed), w);
        NoDupSnoc(s.acquired, w);
      case Rename =>
        RenameExtendsLog(s.acquired, s.renamed, w);
        RenameExtendsContent(store, first, s, w, t);
      case _ =>
    }
  }

  lemma RenameExtendsLog(acquired: seq<Writer>, renamed: seq<Writer>, w: Writer)
    requires acquired != [] && acquired[|acquired| - 1] == w && NoDup(acquired)
    requires w !in renamed && NoDup(renamed) && renamed == Keep(acquired, Elems(renamed))
    ensures NoDup(renamed + [w]) && renamed + [w] == Keep(acquired, Elems(renamed + [w]))
  {
    hide Keep, NoDup;
    var before := acquired[..|acquired| - 1];
    assert acquired == before + [w];
    NoDupSnoc(before, w);
    NoDupSnoc(renamed, w);
    KeepIgnores(before, Elems(renamed), w);
    KeepAppend(before, Elems(renamed), w);
    KeepAppend(before, Elems(renamed) + {w}, w);
    assert Elems(renamed + [w]) == Elems(renamed) + {w};
  }

  lemma RenameExtendsContent<G(!new)>(store: Store<G>, first: Option<string>, s: State<G>, w: Writer, t: State<G>)
    requires Step(store, s, w, Rename, t) && OwnScratch(s, w) && UpToDate(store, s, w)
    requires s.file == Content(store, first, s.renamed)
    ensures t.file == Content(store, first, t.renamed)
  {
    var text := s.Of(w).text;
    assert text[..|text|] == text;
    assert t.renamed[..|s.renamed|] == s.renamed;
  }

  lemma StepKeepsSerial<G(!new)>(store: Store<G>, first: Option<string>, s: State<G>, w: Writer, a: Action<G>,
        t: State<G>)
    requires Step(store, s, w, a, t) && Disciplined(s, a)
    requires Intact(s) && Serial(store, first, s)
    ensures Serial(store, first, t)
  {
    hide Step, OwnScratch, UpToDate, HoldsLast, Logged, InOrder, Apart;
    StepKeepsInOrder(store, first, s, w, a, t);
    forall x ensures OwnScratch(t, x) && UpToDate(store, t, x) && HoldsLast(t, x) && Logged(t, x) {
      assert Apart(s, w, x);
      StepKeepsOwnScratch(store, s, w, a, t, x);
      StepKeepsUpToDate(store, s, w, a, t, x);
      StepKeepsHoldsLast(store, s, w, a, t, x);
      StepKeepsLogged(store, s, w, a, t, x);
    }
  }

  lemma {:induction false} RunIsSerial<G(!new)>(store: Store<G>, states: seq<State<G>>, moves: seq<(Writer, Action<G>)>)
    requires Run(store, states, moves) && DisciplinedFrom(states, moves, 0)
    ensures Intact(states[|moves|]) && Serial(store, states[0].file, states[|moves|])
    decreases |moves|
  {
    var n := |moves|;
    if n == 0 {
      assert Elems(states[0].renamed) == {};
    } else {
      RunIsSerial(store, states[..n], moves[..n - 1]);
      var (w, a) := moves[n - 1];
      assert Disciplined(states[n - 1], moves[n - 1].1);
      StepKeepsIntact(store, states[n - 1], w, a, states[n]);
      StepKeepsSerial(store, states[0].file, states[n - 1], w, a, states[n]);
    }
  }

  /** At most one running writer holds the lock. */
  ghost predicate Exclusive<G>(s: State<G>) {
    forall w, x :: RunningHolder(s.Of(w)) && RunningHolder(s.Of(x)) ==> w == x
  }

  /** Over every interleaving of `update` calls, crashes, I/O errors and the recovery from crashed holders included, as
      long as no running writer's lock is judged stale: at most one running writer holds the lock; the file is what the
      renamed updates make of it, one after the other in the order the lock was taken; every update that reported
      success is among them, once, and none that reported failure is. */
  lemma NoUpdateIsLost<G(!new)>(store: Store<G>, states: seq<State<G>>, moves: seq<(Writer, Action<G>)>)
    requires Run(store, states, moves) && DisciplinedFrom(states, moves, 0)
    ensures var s := states[|moves|];
            && Exclusive(s)
            && s.file == Content(store, states[0].file, s.renamed)
            && NoDup(s.renamed) && s.renamed == Keep(s.acquired, Elems(s.renamed))
            && (forall w :: s.Of(w).Done? ==> w in s.renamed)
            && (forall w :: s.Of(w).Failed? ==> w !in s.renamed)
  {
    hide Disciplined, UpToDate, OwnScratch, Intact, RunningHolder, Step;
    var s := states[|moves|];
    RunIsSerial(store, states, moves);
    forall w, x | RunningHolder(s.Of(w)) && RunningHolder(s.Of(x))
      ensures w == x
    {
      AtMostOneHolder(s, w, x);
    }
    forall w
      ensures s.Of(w).Done? ==> w in s.renamed
      ensures s.Of(w).Failed? ==> w !in s.renamed
    {
      assert Logged(s, w);
    }
  }

  // ---------------------------------------------------------------------------
  // Breaking locks
  // ---------------------------------------------------------------------------

  /** A run that starts with the moves of another one and is disciplined after them. */
  ghost predicate Continues<G(!new)>(store: Store<G>, states: seq<State<G>>, moves: seq<(Writer, Action<G>)>,
                                     states': seq<State<G>>, moves': seq<(Writer, Action<G>)>)
  {
    && Run(store, states', moves') && states <= states' && moves <= moves'
    && DisciplinedFrom(states', moves', |moves|)
  }

  /** If a running writer held the lock that was broken, then whoever broke it can take it too. */
  lemma BreakerTakesLock<G(!new)>(store: Store<G>, states: seq<State<G>>, moves: seq<(Writer, Action<G>)>,
                                  w: Writer, x: Writer)
    returns (states': seq<State<G>>, moves': seq<(Writer, Action<G>)>)
    requires Run(store, states, moves) && moves != [] && moves[|moves| - 1] == (x, BreakStale)
    requires RunningHolder(states[|moves| - 1].Of(w))
    ensures Continues(store, states, moves, states', moves') && |moves'| == |moves| + 1
    ensures w != x && RunningHolder(states'[|moves'|].Of(w)) && RunningHolder(states'[|moves'|].Of(x))
  {
    var n := |moves|;
    var s := states[n - 1];
    assert Step(store, s, moves[n - 1].0, moves[n - 1].1, states[n]);
    var t := states[n].(lock := true, phases := states[n].phases[x := Locked], acquired := states[n].acquired + [x]);
    assert Step(store, states[n], x, Acquire, t);
    states', moves' := states + [t], moves + [(x, Acquire)];
    assert moves'[..n] == moves && states'[..n + 1] == states;
  }

  /** When breaking a lock is harmless: after a disciplined run, whatever disciplined moves follow, at most one running
      writer holds the lock, exactly if no running writer held the broken one. */
  lemma BreakingIsHarmlessExactly<G(!new)>(store: Store<G>, states: seq<State<G>>, moves: seq<(Writer, Action<G>)>,
                                           x: Writer)
    requires Run(store, states, moves) && moves != [] && moves[|moves| - 1] == (x, BreakStale)
    requires DisciplinedFrom(states[..|moves|], moves[..|moves| - 1], 0)
    ensures NoRunningHolder(states[|moves| - 1]) <==>
            forall states', moves' :: Continues(store, states, moves, states', moves') ==> Exclusive(states'[|moves'|])
  {
    var n := |moves|;
    if NoRunningHolder(states[n - 1]) {
      forall states', moves' | Continues(store, states, moves, states', moves')
        ensures Exclusive(states'[|moves'|])
      {
        ContinuedIsDisciplined(store, states, moves, states', moves');
        NoUpdateIsLost(store, states', moves');
      }
    } else {
      var w :| RunningHolder(states[n - 1].Of(w));
      var states', moves' := BreakerTakesLock(store, states, moves, w, x);
      assert !Exclusive(states'[|moves'|]);
    }
  }

  lemma ContinuedIsDisciplined<G(!new)>(store: Store<G>, states: seq<State<G>>, moves: seq<(Writer, Action<G>)>,
                                        states': seq<State<G>>, moves': seq<(Writer, Action<G>)>)
    requires Continues(store, states, moves, states', moves') && |states| == |moves| + 1
    requires moves != [] && moves[|moves| - 1].1.BreakStale? && NoRunningHolder(states[|moves| - 1])
    requires DisciplinedFrom(states[..|moves|], moves[..|moves| - 1], 0)
    ensures |states'| == |moves'| + 1 && DisciplinedFrom(states', moves', 0)
  {
    hide Step, NoRunningHolder;
    var n := |moves|;
    forall k | 0 <= k < |moves'|
      ensures Disciplined(states'[k], moves'[k].1)
    {
      if k < n {
        assert states'[k] == states[k] && moves'[k] == moves[k];
        if k < n - 1 {
          assert states[..n][k] == states[k] && moves[..n - 1][k] == moves[k];
          assert Disciplined(states[..n][k], moves[..n - 1][k].1);
        }
      }
    }
  }

  /** A run in which a running writer's lock is broken: two writers then hold it at once. */
  lemma BrokenLockAdmitsTwo<G(!new)>(store: Store<G>, w: Writer, x: Writer)
    returns (states: seq<State<G>>, moves: seq<(Writer, Action<G>)>)
    requires w != x
    ensures Run(store, states, moves) && !Exclusive(states[|moves|])
  {
    var s0 := State<G>.State(false, None, map[], map[], map[], [], []);
    var s1 := s0.(lock := true, phases := map[w := Locked], acquired := [w]);
    var s2 := s1.(lock := false);
    assert Step(store, s0, w, Acquire, s1);
    assert Step(store, s1, x, BreakStale, s2);
    states, moves := BreakerTakesLock(store, [s0, s1, s2], [(w, Acquire), (x, BreakStale)], w, x);
  }
}
