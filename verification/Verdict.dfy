/** The multi-PE test verdict: shared status words, a scan that is not atomic, and
    the pass and fail counters. */
module Verdict {

  // ----- status words -----

  const TEST_PASS: nat := 0x4
  const TEST_FAIL: nat := 0x8
  const TEST_SKIP: nat := 0x9
  const TEST_PENDING: nat := 0xA

  function StateOf(w: nat): nat { w / 0x1000_0000 % 16 }

  predicate IsPass(w: nat) { StateOf(w) == TEST_PASS }
  predicate IsFail(w: nat) { StateOf(w) == TEST_FAIL }
  predicate IsSkip(w: nat) { StateOf(w) == TEST_SKIP }
  predicate IsPending(w: nat) { StateOf(w) == TEST_PENDING }
  predicate IsFinal(w: nat) { IsPass(w) || IsFail(w) || IsSkip(w) }

  /** State, test number and checkpoint packed into one word. */
  function Result(state: nat, testNum: nat, checkpoint: nat): nat
    requires state < 16 && testNum < 0x1000 && checkpoint < 0x1000
  {
    state * 0x1000_0000 + testNum * 0x1000 + checkpoint
  }

  lemma ResultState(state: nat, testNum: nat, checkpoint: nat)
    requires state < 16 && testNum < 0x1000 && checkpoint < 0x1000
    ensures StateOf(Result(state, testNum, checkpoint)) == state
  {
    var low := testNum * 0x1000 + checkpoint;
    assert low < 0x1000_0000;
    assert Result(state, testNum, checkpoint) / 0x1000_0000 == state;
  }

  /** The states as ranges of 32-bit words, and the words the suite writes itself. */
  lemma StatusWords(w: nat, testNum: nat)
    requires w < 0x1_0000_0000 && testNum < 0x1000
    ensures IsPass(w) <==> 0x4000_0000 <= w < 0x5000_0000
    ensures IsFail(w) <==> 0x8000_0000 <= w < 0x9000_0000
    ensures IsSkip(w) <==> 0x9000_0000 <= w < 0xA000_0000
    ensures IsPending(w) <==> 0xA000_0000 <= w < 0xB000_0000
    ensures Result(TEST_PENDING, testNum, 0) == 0xA000_0000 + 0x1000 * testNum
    ensures Result(TEST_FAIL, testNum, 0xF) == 0x8000_000F + 0x1000 * testNum
  {
    assert w / 0x1000_0000 < 16;
  }

  // ----- the other PEs -----

  /** One PE reports once: its slot goes from pending to a final result. */
  datatype Report = Report(pe: nat, word: nat)

  function Deliver(s: seq<nat>, r: Report): seq<nat> {
    if r.pe < |s| && IsPending(s[r.pe]) && IsFinal(r.word) then s[r.pe := r.word] else s
  }

  function DeliverAll(s: seq<nat>, rs: seq<Report>): (s': seq<nat>)
    ensures Moved(s, s')
    decreases |rs|
  {
    if rs == [] then s else DeliverAll(Deliver(s, rs[0]), rs[1..])
  }

  /** Slots only move from pending to final. */
  ghost predicate Moved(s: seq<nat>, s': seq<nat>) {
    |s'| == |s| && forall i :: 0 <= i < |s| ==> s'[i] == s[i] || (IsPending(s[i]) && IsFinal(s'[i]))
  }

  ghost predicate AllFinal(s: seq<nat>, n: nat) {
    n <= |s| && forall i :: 0 <= i < n ==> IsFinal(s[i])
  }

  ghost predicate AllPass(s: seq<nat>, n: nat) {
    n <= |s| && forall i :: 0 <= i < n ==> IsPass(s[i])
  }

  ghost predicate SomeFailed(s: seq<nat>, n: nat) {
    n <= |s| && exists i :: 0 <= i < n && IsFail(s[i])
  }

  ghost predicate SomeSkipped(s: seq<nat>, n: nat) {
    n <= |s| && exists i :: 0 <= i < n && IsSkip(s[i])
  }

  /** Slot i is the first of n that failed or skipped. */
  ghost predicate FirstReported(s: seq<nat>, n: nat, i: int) {
    && 0 <= i < n <= |s| && (IsFail(s[i]) || IsSkip(s[i]))
    && forall k :: 0 <= k < i ==> !IsFail(s[k]) && !IsSkip(s[k])
  }

  /** What the wait leaves: everybody reported, or somebody is marked failed. */
  ghost predicate Settled(s: seq<nat>, n: nat) { AllFinal(s, n) || SomeFailed(s, n) }

  /** Slots never move back. */
  lemma MovedBack(s: seq<nat>, s': seq<nat>)
    requires Moved(s, s') && Moved(s', s)
    ensures s == s'
  {
  }

  /** 1 + the last of the first n slots that is pending, or 0. */
  function LastPending(s: seq<nat>, n: nat): (j: nat)
    requires n <= |s|
    ensures j <= n && (j > 0 ==> IsPending(s[j - 1])) && forall k :: j <= k < n ==> !IsPending(s[k])
  {
    if n == 0 then 0 else if IsPending(s[n - 1]) then n else LastPending(s, n - 1)
  }

  datatype Outcome = Pass | Fail | Skip

  class Board {
    var status: seq<nat>
    var passed: nat
    var failed: nat
    const me: nat
    /** The other PEs never report. */
    const quiet: bool

    constructor (pes: nat, me: nat, quiet: bool)
      requires me < pes
      ensures |status| == pes && passed == 0 && failed == 0 && this.me == me && this.quiet == quiet
    {
      this.me, this.quiet := me, quiet;
      status, passed, failed := seq(pes, _ => 0), 0, 0;
    }

    method Interfere()
      modifies this`status
      ensures Moved(old(status), status) && (quiet ==> status == old(status))
    {
      var rs: seq<Report> := *;
      if !quiet { status := DeliverAll(status, rs); }
    }

    method GetStatus(i: nat) returns (w: nat)
      requires i < |status|
      modifies this`status
      ensures Moved(old(status), status) && w == status[i] && (quiet ==> status == old(status))
    {
      Interfere();
      w := status[i];
    }

    /** val_initialize_test: every slot is pending. */
    method Initialize(testNum: nat, numPe: nat)
      requires numPe <= |status| && testNum < 0x1000
      modifies this`status
      ensures |status| == old(|status|)
      ensures forall i :: 0 <= i < numPe ==> status[i] == Result(TEST_PENDING, testNum, 0) && IsPending(status[i])
      ensures forall i :: numPe <= i < |status| ==> status[i] == old(status[i])
    {
      ResultState(TEST_PENDING, testNum, 0);
      var i := 0;
      while i < numPe
        invariant i <= numPe && |status| == old(|status|)
        invariant forall k :: 0 <= k < i ==> status[k] == Result(TEST_PENDING, testNum, 0)
        invariant forall k :: numPe <= k < |status| ==> status[k] == old(status[k])
      {
        status := status[i := Result(TEST_PENDING, testNum, 0)];
        i := i + 1;
      }
    }

    /** One pass over the slots while the PEs report; 1 + the last index seen pending, or 0. */
    method Scan(numPe: nat) returns (j: nat)
      requires numPe <= |status|
      requires forall i :: 0 <= i < numPe ==> IsPending(status[i]) || IsFinal(status[i])
      modifies this`status
      ensures Moved(old(status), status) && j <= numPe
      ensures j == 0 ==> AllFinal(status, numPe)
      ensures quiet ==> status == old(status) && j == LastPending(status, numPe)
    {
      j := 0;
      var i := 0;
      while i < numPe
        invariant i <= numPe && j <= i && Moved(old(status), status)
        invariant j == 0 ==> forall k :: 0 <= k < i ==> IsFinal(status[k])
        invariant quiet ==> status == old(status) && j == LastPending(status, i)
      {
        var w := GetStatus(i);
        if IsPending(w) { j := i + 1; }
        i := i + 1;
      }
    }

    /** val_wait_for_test_completion: polls, then marks one late PE failed. */
    method WaitForCompletion(testNum: nat, numPe: nat, limit: nat)
      requires 1 < numPe <= |status| && testNum < 0x1000 && limit >= 2
      requires forall i :: 0 <= i < numPe ==> IsPending(status[i]) || IsFinal(status[i])
      modifies this`status
      ensures |status| == old(|status|) && Settled(status, numPe)
      ensures forall i :: 0 <= i < numPe ==> IsPending(status[i]) || IsFinal(status[i])
      ensures quiet ==>
                var j := LastPending(old(status), numPe);
                status == if j == 0 then old(status) else old(status)[j - 1 := Result(TEST_FAIL, testNum, 0xF)]
    {
      var timeout := limit - 1;
      var j := 0;
      while timeout > 0
        invariant Moved(old(status), status) && j <= numPe && (timeout == limit - 1 || j > 0)
        invariant quiet ==> status == old(status) && (timeout < limit - 1 ==> j == LastPending(status, numPe))
      {
        j := Scan(numPe);
        if j == 0 { return; }
        timeout := timeout - 1;
      }
      ResultState(TEST_FAIL, testNum, 0xF);
      status := status[j - 1 := Result(TEST_FAIL, testNum, 0xF)];
      assert IsFail(status[j - 1]);
    }

    /** val_check_for_error: the verdict, read while late PEs may still report. */
    method CheckForError(numPe: nat) returns (v: Outcome)
      requires numPe <= |status| && me < |status|
      modifies this
      ensures Moved(old(status), status)
      ensures numPe > 1 && Settled(old(status), numPe) ==> (v == Pass <==> AllPass(status, numPe))
      ensures numPe > 1 && status == old(status) ==> v == VerdictOf(status, numPe)
      ensures numPe > 1 && status == old(status) ==>
                forall i :: FirstReported(status, numPe, i) ==>
                  (v == Skip <==> IsSkip(status[i])) && (v == Fail <==> IsFail(status[i]))
      ensures numPe > 1 && v == Skip ==> SomeSkipped(status, numPe)
      ensures numPe > 1 && SomeFailed(old(status), numPe) && !SomeSkipped(status, numPe) ==> v == Fail
      ensures numPe == 1 ==> (v == Skip <==> IsSkip(status[me]))
      ensures quiet ==> status == old(status)
      ensures numPe == 1 ==> (v == Pass <==> IsPass(status[me]))
      ensures numPe == 0 ==> v == Fail
      ensures passed == old(passed) + (if v == Pass then 1 else 0)
      ensures failed == old(failed) + (if v == Fail then 1 else 0)
    {
      var w := 0;
      if numPe == 1 {
        w := GetStatus(me);
      } else {
        w := ScanForFailure(numPe);
        if numPe > 1 && status == old(status) { FirstBadIs(status, numPe, 0); }
      }
      if IsPass(w) {
        passed := passed + 1;
        return Pass;
      }
      if IsSkip(w) { return Skip; }
      failed := failed + 1;
      return Fail;
    }

    /** The first failed or skipped word, or the last word read. */
    method ScanForFailure(numPe: nat) returns (w: nat)
      requires numPe <= |status|
      modifies this`status
      ensures Moved(old(status), status)
      ensures numPe > 0 && Settled(old(status), numPe) ==> (IsPass(w) <==> AllPass(status, numPe))
      ensures numPe > 0 && status == old(status) ==> w == FirstBad(status, numPe, 0)
      ensures IsSkip(w) ==> SomeSkipped(status, numPe)
      ensures SomeFailed(old(status), numPe) ==> IsFail(w) || IsSkip(w)
      ensures quiet ==> status == old(status)
      ensures numPe == 0 ==> w == 0
    {
      w := 0;
      var i := 0;
      while i < numPe
        invariant i <= numPe && Moved(old(status), status) && (i == 0 ==> w == 0) && !IsSkip(w)
        invariant forall k :: 0 <= k < i ==> !IsFail(old(status)[k])
        invariant AllFinal(old(status), numPe) ==> forall k :: 0 <= k < i ==> IsPass(status[k])
        invariant i > 0 && AllFinal(old(status), numPe) ==> IsPass(w)
        invariant quiet ==> status == old(status)
        invariant i < numPe && status == old(status) ==> FirstBad(status, numPe, 0) == FirstBad(status, numPe, i)
        invariant i == numPe > 0 && status == old(status) ==> FirstBad(status, numPe, 0) == w
      {
        ghost var before := status;
        w := GetStatus(i);
        if status == old(status) { MovedBack(status, before); }
        if IsFail(w) || IsSkip(w) {
          return;
        }
        i := i + 1;
      }
    }

    /** val_run_test_payload and val_check_for_error: the payload leaves a result on this PE, or
        its slot pending; the others are started and report whenever they like. */
    method RunTest(testNum: nat, numPe: nat, mine: nat, limit: nat) returns (v: Outcome)
      requires 1 <= numPe <= |status| && me < |status| && (numPe > 1 ==> me < numPe)
      requires testNum < 0x1000 && (IsFinal(mine) || IsPending(mine)) && limit >= 2
      modifies this
      ensures |status| == old(|status|)
      ensures numPe > 1 ==> (v == Pass <==> AllPass(status, numPe))
      ensures numPe == 1 ==> (v == Pass <==> IsPass(status[me])) && (IsFinal(mine) ==> status[me] == mine)
      ensures numPe > 1 && v == Skip ==> SomeSkipped(status, numPe)
      ensures numPe > 1 && SomeFailed(status, numPe) && !SomeSkipped(status, numPe) ==> v == Fail
      ensures numPe == 1 ==> (v == Skip <==> IsSkip(status[me]))
      ensures passed == old(passed) + (if v == Pass then 1 else 0)
      ensures failed == old(failed) + (if v == Fail then 1 else 0)
    {
      Initialize(testNum, numPe);
      status := status[me := mine];
      if numPe > 1 {
        WaitForCompletion(testNum, numPe, limit);
      }
      v := CheckForError(numPe);
    }
  }

  // ----- what the assumption on late reports buys -----

  /** The verdict of one scan over a fixed board. */
  function VerdictOf(s: seq<nat>, n: nat): Outcome
    requires 1 < n <= |s|
  {
    var w := FirstBad(s, n, 0);
    if IsPass(w) then Pass else if IsSkip(w) then Skip else Fail
  }

  function FirstBad(s: seq<nat>, n: nat, i: nat): nat
    requires 0 < n <= |s| && i < n
    decreases n - i
  {
    if IsFail(s[i]) || IsSkip(s[i]) || i == n - 1 then s[i] else FirstBad(s, n, i + 1)
  }

  lemma {:induction false} FirstBadIsPass(s: seq<nat>, n: nat, i: nat)
    requires 0 < n <= |s| && i < n
    ensures IsPass(FirstBad(s, n, i)) <==> IsPass(s[n - 1]) && forall k :: i <= k < n ==> !IsFail(s[k]) && !IsSkip(s[k])
    decreases n - i
  {
    if !(IsFail(s[i]) || IsSkip(s[i]) || i == n - 1) { FirstBadIsPass(s, n, i + 1); }
  }

  lemma {:induction false} FirstBadIs(s: seq<nat>, n: nat, i: nat)
    requires 0 < n <= |s| && i < n && forall k :: 0 <= k < i ==> !IsFail(s[k]) && !IsSkip(s[k])
    ensures forall j :: FirstReported(s, n, j) ==> FirstBad(s, n, i) == s[j]
    decreases n - i
  {
    if !(IsFail(s[i]) || IsSkip(s[i]) || i == n - 1) { FirstBadIs(s, n, i + 1); }
  }

  /** A board gets a PASS it does not deserve exactly when its last slot passed, nobody
      failed or skipped, and some slot is neither (still pending). */
  lemma UndeservedPass(s: seq<nat>, n: nat)
    requires 1 < n <= |s| && forall i :: 0 <= i < n ==> IsPending(s[i]) || IsFinal(s[i])
    ensures VerdictOf(s, n) == Pass && !AllPass(s, n) <==>
            && IsPass(s[n - 1]) && (forall k :: 0 <= k < n ==> !IsFail(s[k]) && !IsSkip(s[k]))
            && exists k :: 0 <= k < n && IsPending(s[k])
  {
    FirstBadIsPass(s, n, 0);
  }

  /** A run that ends on such a board: three PEs of which the last two never report in time.
      The wait marks the last one failed; that one then reports a pass over its mark, and the
      check says PASS with the other still pending. */
  method LateReportRun() returns (v: Outcome, board: seq<nat>)
    ensures v == Pass && |board| == 3 && IsPending(board[1]) && !AllPass(board, 3)
  {
    ResultState(TEST_PASS, 1, 0);
    ResultState(TEST_PENDING, 1, 0);
    var b := new Board(3, 0, true);
    b.Initialize(1, 3);
    b.status := b.status[0 := Result(TEST_PASS, 1, 0)];
    assert LastPending(b.status, 3) == 3;
    b.WaitForCompletion(1, 3, 2);
    b.status := b.status[2 := Result(TEST_PASS, 1, 0)];
    FirstBadIsPass(b.status, 3, 0);
    v := b.CheckForError(3);
    board := b.status;
  }
}
