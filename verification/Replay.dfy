/** Replay protection (sdk/src/security.rs): a guard that remembers nonces only while their timestamps are inside
    the freshness window, and the proof that forgetting the others loses nothing. */
module Replay {
  import opened Results

  datatype Envelope = Envelope(message: string, nonce: nat, timestamp: nat, signature: string)

  datatype SecurityError = BadSignature | Expired | Replayed

  /** The tag a message, nonce and timestamp get under the shared key. */
  type Sign = (string, nat, nat) -> string

  predicate Signed(sign: Sign, e: Envelope) {
    sign(e.message, e.nonce, e.timestamp) == e.signature
  }

  /** Within the window, on either side of the clock. */
  predicate Fresh(window: nat, timestamp: nat, now: nat) {
    (if now < timestamp then timestamp - now else now - timestamp) <= window
  }

  /** A timestamp is fresh exactly if neither it nor the clock is further ahead than the window allows. */
  lemma FreshExactly(window: nat, timestamp: nat, now: nat)
    ensures Fresh(window, timestamp, now) <==> timestamp <= now + window && now <= timestamp + window
  {
  }

  /** What is still inside the window. */
  function Kept(window: nat, seen: map<nat, nat>, now: nat): map<nat, nat> {
    map n | n in seen && Fresh(window, seen[n], now) :: seen[n]
  }

  /** What one check answers, and the nonces it remembers afterwards. */
  ghost function Checked(sign: Sign, window: nat, seen: map<nat, nat>, e: Envelope, now: nat)
    : (Result<(), SecurityError>, map<nat, nat>)
  {
    var kept := Kept(window, seen, now);
    if !Signed(sign, e) then (Err(BadSignature), seen)
    else if !Fresh(window, e.timestamp, now) then (Err(Expired), seen)
    else if e.nonce in kept then (Err(Replayed), kept)
    else (Ok(()), kept[e.nonce := e.timestamp])
  }

  class ReplayGuard {
    const sign: Sign
    const window: nat
    var seen: map<nat, nat>

    constructor (sign: Sign, window: nat)
      ensures this.sign == sign && this.window == window && seen == map[]
    {
      this.sign, this.window, this.seen := sign, window, map[];
    }

    method Verify(e: Envelope, now: nat) returns (r: Result<(), SecurityError>)
      modifies this`seen
      ensures (r, seen) == Checked(sign, window, old(seen), e, now)
    {
      if !Signed(sign, e) {
        return Err(BadSignature);
      }
      if !Fresh(window, e.timestamp, now) {
        return Err(Expired);
      }
      seen := Kept(window, seen, now);
      if e.nonce in seen {
        return Err(Replayed);
      }
      seen := seen[e.nonce := e.timestamp];
      return Ok(());
    }
  }

  // ---------------------------------------------------------------------------
  // Runs
  // ---------------------------------------------------------------------------

  datatype Call = Call(envelope: Envelope, now: nat)

  /** What a new guard remembers after the calls. */
  ghost function Remembered(sign: Sign, window: nat, calls: seq<Call>): map<nat, nat> {
    if calls == [] then map[]
    else
      var last := calls[|calls| - 1];
      Checked(sign, window, Remembered(sign, window, calls[..|calls| - 1]), last.envelope, last.now).1
  }

  /** What call number `k` was answered. */
  ghost function Answer(sign: Sign, window: nat, calls: seq<Call>, k: nat): Result<(), SecurityError>
    requires k < |calls|
  {
    Checked(sign, window, Remembered(sign, window, calls[..k]), calls[k].envelope, calls[k].now).0
  }

  /** A call that gets as far as forgetting: signed, and fresh. */
  ghost predicate Prunes(sign: Sign, window: nat, c: Call) {
    Signed(sign, c.envelope) && Fresh(window, c.envelope.timestamp, c.now)
  }

  /** Call `j` accepted its nonce, and no call since has found it aged out. */
  ghost predicate Held(sign: Sign, window: nat, calls: seq<Call>, j: nat) {
    && j < |calls| && Answer(sign, window, calls, j).Ok?
    && forall i :: j < i < |calls| && Prunes(sign, window, calls[i]) ==>
         Fresh(window, calls[j].envelope.timestamp, calls[i].now)
  }

  ghost predicate HeldAs(sign: Sign, window: nat, calls: seq<Call>, j: nat, nonce: nat) {
    Held(sign, window, calls, j) && calls[j].envelope.nonce == nonce
  }

  /** `seen` is what the held calls accepted. */
  ghost predicate Remembers(sign: Sign, window: nat, calls: seq<Call>, seen: map<nat, nat>) {
    && (forall n :: n in seen ==> exists j: nat :: HeldAs(sign, window, calls, j, n))
    && (forall j: nat, n: nat :: HeldAs(sign, window, calls, j, n) ==>
          n in seen && seen[n] == calls[j].envelope.timestamp)
  }

  lemma HeldStep(sign: Sign, window: nat, calls: seq<Call>, j: nat, n: nat)
    requires calls != []
    ensures var (front, last) := (calls[..|calls| - 1], calls[|calls| - 1]);
            HeldAs(sign, window, calls, j, n) <==>
              || (HeldAs(sign, window, front, j, n)
                  && (Prunes(sign, window, last) ==> Fresh(window, calls[j].envelope.timestamp, last.now)))
              || (j == |front| && Answer(sign, window, calls, j).Ok? && last.envelope.nonce == n)
  {
    hide Checked, Remembered, Fresh, Signed;
    var front := calls[..|calls| - 1];
    if j < |front| {
      assert front[..j] == calls[..j];
      assert forall i :: 0 <= i < |front| ==> front[i] == calls[i];
    }
  }

  /** Whatever the clock does: the guard remembers exactly the accepted nonces that no later check found aged out. */
  lemma {:induction false} MemoryExactly(sign: Sign, window: nat, calls: seq<Call>)
    ensures Remembers(sign, window, calls, Remembered(sign, window, calls))
  {
    if calls == [] {
      assert forall j: nat, n: nat :: !HeldAs(sign, window, calls, j, n);
    } else {
      var front, last := calls[..|calls| - 1], calls[|calls| - 1];
      MemoryExactly(sign, window, front);
      forall j: nat, n: nat
        ensures HeldAs(sign, window, calls, j, n) <==>
                || (HeldAs(sign, window, front, j, n)
                    && (Prunes(sign, window, last) ==> Fresh(window, front[j].envelope.timestamp, last.now)))
                || (j == |front| && Answer(sign, window, calls, j).Ok? && last.envelope.nonce == n)
      {
        HeldStep(sign, window, calls, j, n);
      }
      MemoryStep(sign, window, calls);
    }
  }

  lemma LastCall(sign: Sign, window: nat, calls: seq<Call>)
    requires calls != []
    ensures var (front, last) := (calls[..|calls| - 1], calls[|calls| - 1]);
            (Answer(sign, window, calls, |front|), Remembered(sign, window, calls))
            == Checked(sign, window, Remembered(sign, window, front), last.envelope, last.now)
  {
  }

  lemma MemoryStep(sign: Sign, window: nat, calls: seq<Call>)
    requires calls != []
    requires var front := calls[..|calls| - 1]; Remembers(sign, window, front, Remembered(sign, window, front))
    requires var (front, last) := (calls[..|calls| - 1], calls[|calls| - 1]);
             forall j: nat, n: nat :: HeldAs(sign, window, calls, j, n) <==>
               || (HeldAs(sign, window, front, j, n)
                   && (Prunes(sign, window, last) ==> Fresh(window, front[j].envelope.timestamp, last.now)))
               || (j == |front| && Answer(sign, window, calls, j).Ok? && last.envelope.nonce == n)
    ensures Remembers(sign, window, calls, Remembered(sign, window, calls))
  {
    hide HeldAs, Fresh, Signed, Remembered, Answer;
    var front, last := calls[..|calls| - 1], calls[|calls| - 1];
    var seen, seen' := Remembered(sign, window, front), Remembered(sign, window, calls);
    LastCall(sign, window, calls);
    forall n | n in seen'
      ensures exists j: nat :: HeldAs(sign, window, calls, j, n)
    {
      if Answer(sign, window, calls, |front|).Ok? && n == last.envelope.nonce {
        assert HeldAs(sign, window, calls, |front|, n);
      } else {
        var j: nat :| HeldAs(sign, window, front, j, n);
        assert HeldAs(sign, window, calls, j, n);
      }
    }
    forall j: nat, n: nat | HeldAs(sign, window, front, j, n)
      ensures j < |front| && front[j] == calls[j]
    {
      HeldIsEarlier(sign, window, calls, |front|, j, n);
    }
  }

  /** Whatever the clock does: a signed and fresh envelope is turned away exactly when some earlier call accepted its
      nonce and no check since, this one included, found that aged out. */
  lemma ReplayedExactly(sign: Sign, window: nat, calls: seq<Call>, k: nat)
    requires k < |calls| && Prunes(sign, window, calls[k])
    ensures Answer(sign, window, calls, k) == Err(Replayed) <==>
            exists j: nat :: HeldAs(sign, window, calls[..k], j, calls[k].envelope.nonce)
                             && Fresh(window, calls[j].envelope.timestamp, calls[k].now)
  {
    hide HeldAs, Fresh, Signed;
    MemoryExactly(sign, window, calls[..k]);
    var n, seen := calls[k].envelope.nonce, Remembered(sign, window, calls[..k]);
    if Answer(sign, window, calls, k) == Err(Replayed) {
      var j: nat :| HeldAs(sign, window, calls[..k], j, n);
      HeldIsEarlier(sign, window, calls, k, j, n);
    }
    forall j: nat | HeldAs(sign, window, calls[..k], j, n)
      ensures j < k && n in seen && seen[n] == calls[j].envelope.timestamp
    {
      HeldIsEarlier(sign, window, calls, k, j, n);
    }
  }

  lemma HeldIsEarlier(sign: Sign, window: nat, calls: seq<Call>, k: nat, j: nat, n: nat)
    requires k <= |calls| && HeldAs(sign, window, calls[..k], j, n)
    ensures j < k && calls[..k][j] == calls[j]
  {
  }

  /** Between the calls `j` and `k` a check finds what call `j` accepted aged out. */
  ghost predicate ForgottenBetween(sign: Sign, window: nat, calls: seq<Call>, j: nat, k: nat)
    requires j < k <= |calls|
  {
    exists i :: j < i < k && Prunes(sign, window, calls[i]) && !Fresh(window, calls[j].envelope.timestamp, calls[i].now)
  }

  /** Of the calls that accepted one nonce, at most the last one is held. */
  lemma OnlyLastIsHeld(sign: Sign, window: nat, calls: seq<Call>, i: nat, j: nat)
    requires i < j < |calls| && calls[i].envelope.nonce == calls[j].envelope.nonce
    requires Held(sign, window, calls, i)
    ensures !Answer(sign, window, calls, j).Ok?
  {
    var n := calls[i].envelope.nonce;
    MemoryExactly(sign, window, calls[..j]);
    assert calls[..j][..i] == calls[..i];
    assert HeldAs(sign, window, calls[..j], i, n);
  }

  /** Whatever the clock does: an envelope that was accepted is accepted again, while it is fresh, exactly when a check
      in between has found it aged out. Call `j` is the last that accepted the nonce. */
  lemma AcceptedAgainExactly(sign: Sign, window: nat, calls: seq<Call>, j: nat, k: nat)
    requires j < k < |calls| && calls[j].envelope == calls[k].envelope
    requires Answer(sign, window, calls, j).Ok? && Prunes(sign, window, calls[k])
    requires forall i :: j < i < k && calls[i].envelope.nonce == calls[j].envelope.nonce ==>
               !Answer(sign, window, calls, i).Ok?
    ensures Answer(sign, window, calls, k).Ok? <==> ForgottenBetween(sign, window, calls, j, k)
  {
    hide Fresh, Signed, Checked, Remembered;
    var n, front := calls[k].envelope.nonce, calls[..k];
    assert forall i :: 0 <= i < k ==> front[i] == calls[i] && front[..i] == calls[..i];
    assert HeldAs(sign, window, front, j, n) <==> !ForgottenBetween(sign, window, calls, j, k);
    ReplayedExactly(sign, window, calls, k);
    AnswersToFresh(sign, window, calls, k);
    forall i: nat | HeldAs(sign, window, front, i, n)
      ensures i == j
    {
      if i < j {
        OnlyLastIsHeld(sign, window, front, i, j);
      }
    }
  }

  lemma AnswersToFresh(sign: Sign, window: nat, calls: seq<Call>, k: nat)
    requires k < |calls| && Prunes(sign, window, calls[k])
    ensures Answer(sign, window, calls, k) == Ok(()) || Answer(sign, window, calls, k) == Err(Replayed)
  {
  }

  // ---------------------------------------------------------------------------
  // A clock that does not run backwards
  // ---------------------------------------------------------------------------

  ghost predicate ClockForward(calls: seq<Call>) {
    forall i, j :: 0 <= i < j < |calls| ==> calls[i].now <= calls[j].now
  }

  /** What is inside the window before and after is inside it in between. */
  lemma ForwardKeeps(sign: Sign, window: nat, calls: seq<Call>, j: nat, k: nat)
    requires ClockForward(calls) && j < k < |calls| && Answer(sign, window, calls, j).Ok?
    requires Fresh(window, calls[j].envelope.timestamp, calls[k].now)
    ensures HeldAs(sign, window, calls[..k], j, calls[j].envelope.nonce)
  {
    assert Prunes(sign, window, calls[j]);
    hide Remembered, Signed;
    assert calls[..k][..j] == calls[..j];
  }

  /** A signed and fresh envelope is turned away exactly when its nonce was accepted earlier in an envelope that is
      still inside the window. Nothing is lost by forgetting. */
  lemma ForgettingLosesNothing(sign: Sign, window: nat, calls: seq<Call>, k: nat)
    requires ClockForward(calls) && k < |calls| && Prunes(sign, window, calls[k])
    ensures Answer(sign, window, calls, k) == Err(Replayed) <==>
            exists j: nat :: && j < k && Answer(sign, window, calls, j).Ok?
                             && calls[j].envelope.nonce == calls[k].envelope.nonce
                             && Fresh(window, calls[j].envelope.timestamp, calls[k].now)
  {
    var n, front := calls[k].envelope.nonce, calls[..k];
    ReplayedExactly(sign, window, calls, k);
    assert forall i :: 0 <= i < k ==> front[i] == calls[i] && front[..i] == calls[..i];
    hide Fresh, Signed, Checked, Remembered, Prunes;
    forall j: nat | j < k && Answer(sign, window, calls, j).Ok? && calls[j].envelope.nonce == n
                    && Fresh(window, calls[j].envelope.timestamp, calls[k].now)
      ensures HeldAs(sign, window, front, j, n)
    {
      ForwardKeeps(sign, window, calls, j, k);
    }
  }

  /** No envelope is accepted twice. */
  lemma NeverAcceptedTwice(sign: Sign, window: nat, calls: seq<Call>, j: nat, k: nat)
    requires ClockForward(calls) && j < k < |calls| && calls[j].envelope == calls[k].envelope
    requires Answer(sign, window, calls, j).Ok?
    ensures !Answer(sign, window, calls, k).Ok?
  {
    if Prunes(sign, window, calls[k]) {
      ForgettingLosesNothing(sign, window, calls, k);
    }
  }

  /** A run whose clock steps back far enough: an envelope is accepted a second time. */
  lemma BackwardClockAdmitsReplay(sign: Sign)
    ensures exists calls: seq<Call>, j, k ::
              && 0 <= j < k < |calls| && calls[j].envelope == calls[k].envelope
              && Answer(sign, 5, calls, j).Ok? && Answer(sign, 5, calls, k).Ok?
  {
    var first := Envelope("a", 1, 10, sign("a", 1, 10));
    var other := Envelope("b", 2, 20, sign("b", 2, 20));
    var calls := [Call(first, 10), Call(other, 20), Call(first, 10)];
    assert calls[..0] == [] && calls[..1][..0] == [] && calls[..2][..1] == calls[..1];
    assert Remembered(sign, 5, calls[..1]) == map[1 := 10];
    assert Remembered(sign, 5, calls[..2]) == map[2 := 20];
    assert Answer(sign, 5, calls, 0).Ok? && Answer(sign, 5, calls, 2).Ok?;
  }
}
