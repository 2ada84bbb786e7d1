/** Properties of many consecutive calls of the typewriter callback: the typing and deleting
    phases of one phrase, the full cycle of a phrase, and the rotation through all phrases. */
module TypewriterCycle {

  import opened Wrappers
  import opened Typewriter

  /** Every state the callback reaches from its initial variables meets `Inv`. */
  lemma ReachableInv(roles: seq<string>, k: nat)
    requires WellFormedRoles(roles)
    ensures Inv(roles, Start)
    ensures Inv(roles, Run(roles, Start, k))
  {
  }

  /** Running `a` calls and then `b` more is running `a + b` calls. */
  lemma {:induction false} RunAdd(roles: seq<string>, s: State, a: nat, b: nat)
    requires s.role < |roles|
    ensures Run(roles, s, a + b) == Run(roles, Run(roles, s, a), b)
    decreases a
  {
    if a > 0 {
      RunAdd(roles, Step(roles, s).next, a - 1, b);
    }
  }

  /** The state after `k + 1` calls is one call after the state after `k` calls. */
  lemma RunLast(roles: seq<string>, s: State, k: nat)
    requires s.role < |roles|
    ensures Run(roles, s, k + 1) == Step(roles, Run(roles, s, k)).next
  {
    RunAdd(roles, s, k, 1);
  }

  /** The `j`-th output of a trace is one call made from the state after `j` calls. */
  lemma {:induction false} TraceAt(roles: seq<string>, s: State, k: nat, j: nat)
    requires s.role < |roles|
    requires j < k
    ensures Trace(roles, s, k)[j] == Step(roles, Run(roles, s, j))
    decreases j
  {
    if j > 0 {
      TraceAt(roles, Step(roles, s).next, k - 1, j - 1);
    }
  }

  /** Typing phrase `r`: after `j` calls the first `j` characters are shown, and after the
      last character the state switches to deleting with the role unchanged. */
  lemma {:induction false} TypingPhase(roles: seq<string>, r: nat, j: nat)
    requires WellFormedRoles(roles) && r < |roles|
    requires j <= |roles[r]|
    ensures Run(roles, TypingAt(r), j) == if j < |roles[r]| then State(r, j, false, false) else FullAt(roles, r)
    decreases j
  {
    if j > 0 {
      TypingPhase(roles, r, j - 1);
      RunLast(roles, TypingAt(r), j - 1);
    }
  }

  /** Deleting phrase `r`: after `j` calls `|roles[r]| - j` characters remain; once none
      remain the role advances (wrapping around) and the waiting flag is set. */
  lemma {:induction false} DeletingPhase(roles: seq<string>, r: nat, j: nat)
    requires WellFormedRoles(roles) && r < |roles|
    requires j <= |roles[r]|
    ensures Run(roles, FullAt(roles, r), j) ==
              if j < |roles[r]| then State(r, |roles[r]| - j, true, false)
              else State((r + 1) % |roles|, 0, false, true)
    decreases j
  {
    if j > 0 {
      DeletingPhase(roles, r, j - 1);
      RunLast(roles, FullAt(roles, r), j - 1);
    }
  }

  /** One phrase takes `2 * |phrase| + 1` calls: type it, delete it, wait once; the callback
      is then about to type the next phrase. */
  lemma FullCycle(roles: seq<string>, r: nat)
    requires WellFormedRoles(roles) && r < |roles|
    ensures Run(roles, TypingAt(r), 2 * |roles[r]| + 1) == TypingAt((r + 1) % |roles|)
  {
    var n := |roles[r]|;
    RunAdd(roles, TypingAt(r), n, n + 1);
    TypingPhase(roles, r, n);
    RunAdd(roles, FullAt(roles, r), n, 1);
    DeletingPhase(roles, r, n);
  }

  /** After the cycles of phrases `0..m-1` the callback is about to type phrase `m`
      (phrase `0` again once every phrase has had its turn). */
  lemma {:induction false} PartialRotation(roles: seq<string>, m: nat)
    requires WellFormedRoles(roles) && m <= |roles|
    ensures Run(roles, Start, RotationLength(roles, m)) == TypingAt(if m < |roles| then m else 0)
    decreases m
  {
    if m > 0 {
      var before := RotationLength(roles, m - 1);
      PartialRotation(roles, m - 1);
      RunAdd(roles, Start, before, 2 * |roles[m - 1]| + 1);
      FullCycle(roles, m - 1);
      NextRole(|roles|, m - 1);
    }
  }

  /** Advancing the role index with `% roles.length` wraps only after the last phrase. */
  lemma NextRole(count: nat, r: nat)
    requires r < count
    ensures (r + 1) % count == if r + 1 < count then r + 1 else 0
  {
  }

  /** The rotation is periodic: one pass through every phrase returns to the initial state. */
  lemma Rotation(roles: seq<string>)
    requires WellFormedRoles(roles)
    ensures Run(roles, Start, RotationLength(roles, |roles|)) == Start
  {
    PartialRotation(roles, |roles|);
  }

  /** What the `j`-th call of one phrase cycle shows, by phase: the prefixes of length
      `1..n` while typing, of length `n-1..0` while deleting, nothing while waiting. */
  function ExpectedRender(phrase: string, j: nat): Option<string>
    requires j <= 2 * |phrase|
  {
    if j < |phrase| then Some(phrase[..j + 1])
    else if j < 2 * |phrase| then Some(phrase[..2 * |phrase| - 1 - j])
    else None
  }

  /** The delay chosen by the `j`-th call of one phrase cycle. */
  function ExpectedDelay(phrase: string, j: nat): nat
    requires j <= 2 * |phrase|
  {
    if j + 1 < |phrase| then TypingDelay
    else if j + 1 == |phrase| then FullPause
    else if j + 1 < 2 * |phrase| then DeletingDelay
    else if j + 1 == 2 * |phrase| then EmptyPause
    else WaitPause
  }

  /** One call in one phrase cycle: what it shows and how long it waits. */
  lemma PhraseCallAt(roles: seq<string>, r: nat, j: nat)
    requires WellFormedRoles(roles) && r < |roles|
    requires j <= 2 * |roles[r]|
    ensures Step(roles, Run(roles, TypingAt(r), j)).rendered == ExpectedRender(roles[r], j)
    ensures Step(roles, Run(roles, TypingAt(r), j)).delay == ExpectedDelay(roles[r], j)
  {
    var n := |roles[r]|;
    if j < n {
      TypingPhase(roles, r, j);
    } else {
      RunAdd(roles, TypingAt(r), n, j - n);
      TypingPhase(roles, r, n);
      DeletingPhase(roles, r, j - n);
    }
  }

  /** The outputs of one phrase cycle, call by call: typing shows the successive prefixes of
      the phrase, deleting shows them again from longest to empty, the wait shows nothing. */
  lemma PhraseTrace(roles: seq<string>, r: nat)
    requires WellFormedRoles(roles) && r < |roles|
    ensures var t := Trace(roles, TypingAt(r), 2 * |roles[r]| + 1);
            forall j :: 0 <= j < |t| ==>
              t[j].rendered == ExpectedRender(roles[r], j) && t[j].delay == ExpectedDelay(roles[r], j)
  {
    var k := 2 * |roles[r]| + 1;
    forall j | 0 <= j < k
      ensures Trace(roles, TypingAt(r), k)[j].rendered == ExpectedRender(roles[r], j)
      ensures Trace(roles, TypingAt(r), k)[j].delay == ExpectedDelay(roles[r], j)
    {
      TraceAt(roles, TypingAt(r), k, j);
      PhraseCallAt(roles, r, j);
    }
  }

  /** Rotation lengths grow with the number of phrases counted. */
  lemma {:induction false} RotationLengthMonotone(roles: seq<string>, a: nat, b: nat)
    requires a <= b <= |roles|
    ensures RotationLength(roles, a) <= RotationLength(roles, b)
    decreases b - a
  {
    if a < b {
      RotationLengthMonotone(roles, a, b - 1);
    }
  }

  /** Phrase `r` starts after the cycles of the phrases before it. */
  lemma PhraseStart(roles: seq<string>, r: nat)
    requires WellFormedRoles(roles) && r < |roles|
    ensures Run(roles, Start, RotationLength(roles, r)) == TypingAt(r)
  {
    PartialRotation(roles, r);
  }

  /** The state just before the last typing call of phrase `r` in the first rotation. */
  lemma {:induction false} BeforeLastCharacter(roles: seq<string>, r: nat, k: nat)
    requires WellFormedRoles(roles) && r < |roles|
    requires k == RotationLength(roles, r) + (|roles[r]| - 1)
    ensures Run(roles, Start, k) == State(r, |roles[r]| - 1, false, false)
  {
    var base := RotationLength(roles, r);
    RunAdd(roles, Start, base, |roles[r]| - 1);
    PhraseStart(roles, r);
    TypingPhase(roles, r, |roles[r]| - 1);
  }

  /** Within the first rotation (and so, by `Rotation`, within every later one) each phrase
      is shown in full by some call: the last typing call of its cycle. */
  lemma EveryPhraseShown(roles: seq<string>, r: nat)
    requires WellFormedRoles(roles) && r < |roles|
    ensures exists k: nat :: k < RotationLength(roles, |roles|) && Step(roles, Run(roles, Start, k)).rendered == Some(roles[r])
  {
    var n := |roles[r]|;
    var k: nat := RotationLength(roles, r) + (n - 1);
    BeforeLastCharacter(roles, r, k);
    assert roles[r][..n] == roles[r];
    RotationLengthMonotone(roles, r + 1, |roles|);
  }

  /** Why every phrase must be non-empty: on an empty phrase the typing branch never sees
      `currentChar === current.length` again, so the count grows and deletion never starts. */
  lemma {:induction false} EmptyPhraseNeverCompletes(roles: seq<string>, r: nat, k: nat)
    requires r < |roles| && roles[r] == ""
    ensures Run(roles, TypingAt(r), k) == State(r, k, false, false)
    decreases k
  {
    if k > 0 {
      EmptyPhraseNeverCompletes(roles, r, k - 1);
      RunLast(roles, TypingAt(r), k - 1);
    }
  }

  /** The phrases of the page satisfy the requirements, and their rotation takes 131 calls. */
  lemma PageRotation()
    ensures WellFormedRoles(Roles)
    ensures Run(Roles, Start, 131) == Start
  {
    assert |Roles[0]| == 18 && |Roles[1]| == 21 && |Roles[2]| == 25;
    assert RotationLength(Roles, 3) == 131;
    Rotation(Roles);
  }

  /** A single phrase "Hi": type "H", "Hi", delete to "H", "", wait, and start again. */
  lemma SinglePhraseScenario()
    ensures var t := Trace(["Hi"], Start, 5);
            && t[0].rendered == Some("H") && t[1].rendered == Some("Hi")
            && t[2].rendered == Some("H") && t[3].rendered == Some("") && t[4].rendered == None
    ensures Run(["Hi"], Start, 5) == Start
  {
    var roles := ["Hi"];
    PhraseTrace(roles, 0);
    FullCycle(roles, 0);
    var t := Trace(roles, Start, 5);
    assert "Hi"[..1] == "H" && "Hi"[..2] == "Hi" && "Hi"[..0] == "";
    assert t[0].rendered == ExpectedRender("Hi", 0);
    assert t[1].rendered == ExpectedRender("Hi", 1);
    assert t[2].rendered == ExpectedRender("Hi", 2);
    assert t[3].rendered == ExpectedRender("Hi", 3);
    assert t[4].rendered == ExpectedRender("Hi", 4);
  }

  /** Two phrases "A" and "BB": after typing and deleting both (8 calls) the role index is 0
      again, and in between the callback is about to type "BB". */
  lemma TwoPhraseScenario()
    ensures Run(["A", "BB"], Start, 3) == TypingAt(1)
    ensures Run(["A", "BB"], Start, 8) == Start
  {
    var roles := ["A", "BB"];
    PartialRotation(roles, 1);
    assert RotationLength(roles, 1) == 3;
    PartialRotation(roles, 2);
    assert RotationLength(roles, 2) == 8;
  }
}
