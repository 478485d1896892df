/**
 * The polling tail of `view_log`: a byte-size baseline compared against
 * successive answers of the remote size probe, each answer leading to a
 * delta read, nothing, or a reset with a fresh 50-line read.
 */
module LogTail {
  import opened Wrappers
  import opened Text

  /** What one poll makes the client do, in order. */
  datatype Action =
    | ProbeSize            // run `stat -c %s <log> 2>/dev/null || stat -f %z <log>`
    | ReadBytes(count: nat) // run `tail -c <count> <log>`
    | ResetNotice          // print "[Log file was reset/truncated]"
    | ReadLines(count: nat) // run `tail -n <count> <log>`

  /** How many lines the initial view and a reset fetch. */
  const TailLines: nat := 50

  /** The shell command an action runs on the log's server; the notice runs none. */
  function CommandText(a: Action, logFile: string): Option<string> {
    match a
    case ProbeSize => Some("stat -c %s " + logFile + " 2>/dev/null || stat -f %z " + logFile)
    case ReadBytes(n) => Some("tail -c " + NatToString(n) + " " + logFile)
    case ResetNotice => None
    case ReadLines(n) => Some("tail -n " + NatToString(n) + " " + logFile)
  }

  /**
   * A probe answer read as a size: `int(r.strip())` when the answer is
   * truthy and its stripped text is all digits, nothing otherwise.
   */
  function SizeOf(answer: Option<string>): (r: Option<nat>)
    ensures r.Some? <==> answer.Some? && IsDigits(Strip(answer.value))
  {
    if answer.Some? && IsDigits(Strip(answer.value)) then Some(ParseDigits(Strip(answer.value))) else None
  }

  /** The starting baseline: the probed size, or 0 when the probe gave no size. */
  function Baseline(probe: Option<string>): (b: nat)
    ensures SizeOf(probe).None? ==> b == 0
    ensures SizeOf(probe).Some? ==> b == SizeOf(probe).value
  {
    match SizeOf(probe)
    case Some(n) => n
    case None => 0
  }

  /** The probe answers of successive polls, read as sizes. */
  function Readings(answers: seq<Option<string>>): (r: seq<Option<nat>>)
    ensures |r| == |answers|
    ensures forall i :: 0 <= i < |answers| ==> r[i] == SizeOf(answers[i])
  {
    seq(|answers|, i requires 0 <= i < |answers| => SizeOf(answers[i]))
  }

  /** One iteration of the `while True` loop on the poll's size reading: the new baseline and the actions taken. */
  function Step(prev: nat, reading: Option<nat>): (nat, seq<Action>) {
    match reading
    case None => (prev, [ProbeSize])
    case Some(cur) =>
      if cur > prev then (cur, [ProbeSize, ReadBytes(cur - prev)])
      else if cur < prev then (cur, [ProbeSize, ResetNotice, ReadLines(TailLines)])
      else (prev, [ProbeSize])
  }

  /** The loop run over a finite sequence of size readings. */
  function Follow(prev: nat, readings: seq<Option<nat>>): (nat, seq<Action>) {
    if readings == [] then (prev, [])
    else
      var (p, acts) := Follow(prev, readings[..|readings| - 1]);
      var (q, more) := Step(p, readings[|readings| - 1]);
      (q, acts + more)
  }

  /**
   * Each poll: an unreadable answer skips the poll and keeps the baseline; a
   * larger size reads exactly the new bytes; a smaller one prints the reset
   * notice before re-reading the last 50 lines; an equal one runs nothing
   * more; after any readable answer the baseline is that size.
   */
  lemma StepCases(prev: nat, answer: Option<string>)
    ensures SizeOf(answer).None? ==> Step(prev, SizeOf(answer)) == (prev, [ProbeSize])
    ensures SizeOf(answer).Some? ==> Step(prev, SizeOf(answer)).0 == SizeOf(answer).value
    ensures SizeOf(answer).Some? && SizeOf(answer).value > prev ==>
      Step(prev, SizeOf(answer)).1 == [ProbeSize, ReadBytes(SizeOf(answer).value - prev)]
    ensures SizeOf(answer).Some? && SizeOf(answer).value < prev ==>
      Step(prev, SizeOf(answer)).1 == [ProbeSize, ResetNotice, ReadLines(50)]
    ensures SizeOf(answer).Some? && SizeOf(answer).value == prev ==>
      Step(prev, SizeOf(answer)).1 == [ProbeSize]
  {
  }

  /** The size of the last size reading, or `prev` when there is none. */
  function LastSize(prev: nat, readings: seq<Option<nat>>): nat {
    if readings == [] then prev
    else match readings[|readings| - 1]
      case Some(n) => n
      case None => LastSize(prev, readings[..|readings| - 1])
  }

  /** The baseline always ends at the last size the probe reported. */
  lemma {:induction false} FollowEndsAtLastSize(prev: nat, readings: seq<Option<nat>>)
    ensures Follow(prev, readings).0 == LastSize(prev, readings)
  {
    if readings != [] {
      FollowEndsAtLastSize(prev, readings[..|readings| - 1]);
    }
  }

  /** Total bytes requested by delta reads. */
  function BytesRequested(acts: seq<Action>): nat {
    if acts == [] then 0
    else BytesRequested(acts[..|acts| - 1]) + (if acts[|acts| - 1].ReadBytes? then acts[|acts| - 1].count else 0)
  }

  lemma {:induction false} BytesRequestedAppend(a: seq<Action>, b: seq<Action>)
    ensures BytesRequested(a + b) == BytesRequested(a) + BytesRequested(b)
  {
    if b != [] {
      BytesRequestedAppend(a, b[..|b| - 1]);
      assert (a + b)[..|a + b| - 1] == a + b[..|b| - 1];
    } else {
      assert a + b == a;
    }
  }

  /**
   * Without a reset, the delta reads cover exactly the growth of the file:
   * the bytes requested add up to the final size minus the starting
   * baseline, so no byte is read twice and none is skipped.
   */
  lemma {:induction false} DeltaReadsCoverGrowth(prev: nat, readings: seq<Option<nat>>)
    requires ResetNotice !in Follow(prev, readings).1
    ensures Follow(prev, readings).0 >= prev
    ensures BytesRequested(Follow(prev, readings).1) == Follow(prev, readings).0 - prev
  {
    if readings != [] {
      var front := readings[..|readings| - 1];
      var (p, acts) := Follow(prev, front);
      var (q, more) := Step(p, readings[|readings| - 1]);
      assert Follow(prev, readings).1 == acts + more;
      assert ResetNotice !in acts;
      assert ResetNotice !in more;
      DeltaReadsCoverGrowth(prev, front);
      BytesRequestedAppend(acts, more);
      assert BytesRequested([ProbeSize]) == 0;
      assert [ProbeSize, ReadBytes(q - p)][..1] == [ProbeSize];
    }
  }

  /** Every delta read asks for at least one byte, and every reset notice is followed by the 50-line read. */
  predicate WellFormed(acts: seq<Action>) {
    && (forall i :: 0 <= i < |acts| && acts[i].ReadBytes? ==> acts[i].count > 0)
    && (forall i :: 0 <= i < |acts| && acts[i] == ResetNotice ==>
          i + 1 < |acts| && acts[i + 1] == ReadLines(TailLines))
  }

  lemma WellFormedAppend(a: seq<Action>, b: seq<Action>)
    requires WellFormed(a) && WellFormed(b)
    ensures WellFormed(a + b)
  {
    var all := a + b;
    forall i | 0 <= i < |all| && all[i] == ResetNotice
      ensures i + 1 < |all| && all[i + 1] == ReadLines(TailLines)
    {
      if i < |a| {
        assert all[i] == a[i];
        assert all[i + 1] == a[i + 1];
      } else {
        assert all[i] == b[i - |a|];
        assert all[i + 1] == b[i + 1 - |a|];
      }
    }
    forall i | 0 <= i < |all| && all[i].ReadBytes? ensures all[i].count > 0 {
      if i < |a| {
        assert all[i] == a[i];
      } else {
        assert all[i] == b[i - |a|];
      }
    }
  }

  /** Whatever the readings, the actions of the loop are well formed. */
  lemma {:induction false} FollowWellFormed(prev: nat, readings: seq<Option<nat>>)
    ensures WellFormed(Follow(prev, readings).1)
  {
    if readings != [] {
      var front := readings[..|readings| - 1];
      FollowWellFormed(prev, front);
      var (p, acts) := Follow(prev, front);
      var (q, more) := Step(p, readings[|readings| - 1]);
      assert WellFormed(more);
      WellFormedAppend(acts, more);
    }
  }

  /** `stat` prints the size followed by a newline; such an answer reads back as that size. */
  lemma SizeOfStatLine(n: nat)
    ensures SizeOf(Some(NatToString(n) + "\n")) == Some(n)
  {
    var digits := NatToString(n);
    var line := digits + "\n";
    assert !IsSpace(line[0]) && !IsSpace(digits[|digits| - 1]);
    assert StripLeft(line) == line;
    assert line[..|line| - 1] == digits;
    assert StripRight(line) == StripRight(digits) == digits;
    ParseNatToString(n);
  }

  /** One more reading appends one more poll. */
  lemma FollowSnoc(prev: nat, readings: seq<Option<nat>>, r: Option<nat>)
    ensures Follow(prev, readings + [r]).0 == Step(Follow(prev, readings).0, r).0
    ensures Follow(prev, readings + [r]).1 == Follow(prev, readings).1 + Step(Follow(prev, readings).0, r).1
  {
    assert (readings + [r])[..|readings|] == readings;
  }

  /** The same, for successive prefixes of one sequence of readings. */
  lemma FollowPrefix(prev: nat, readings: seq<Option<nat>>, p: nat)
    requires p < |readings|
    ensures Follow(prev, readings[..p + 1]).0 == Step(Follow(prev, readings[..p]).0, readings[p]).0
    ensures Follow(prev, readings[..p + 1]).1 == Follow(prev, readings[..p]).1 + Step(Follow(prev, readings[..p]).0, readings[p]).1
  {
    assert readings[..p + 1][..p] == readings[..p];
  }

  /**
   * Sizes 100 (the starting probe), then 100, 250 and 40: the first poll
   * reads nothing, the second reads exactly 150 bytes, and the third prints
   * the reset notice and re-reads 50 lines instead of a delta.
   */
  lemma ShrinkAfterGrowth()
    ensures Follow(100, [Some(100), Some(250), Some(40)]) ==
      (40, [ProbeSize, ProbeSize, ReadBytes(150), ProbeSize, ResetNotice, ReadLines(50)])
  {
    var none: seq<Option<nat>> := [];
    assert Follow(100, none) == (100, []);
    FollowSnoc(100, none, Some(100));
    assert none + [Some(100)] == [Some(100)];
    assert Follow(100, [Some(100)]).0 == 100;
    assert Follow(100, [Some(100)]).1 == [ProbeSize];
    FollowSnoc(100, [Some(100)], Some(250));
    assert [Some(100)] + [Some(250)] == [Some(100), Some(250)];
    assert Follow(100, [Some(100), Some(250)]).0 == 250;
    assert Follow(100, [Some(100), Some(250)]).1 == [ProbeSize, ProbeSize, ReadBytes(150)];
    FollowSnoc(100, [Some(100), Some(250)], Some(40));
    assert [Some(100), Some(250)] + [Some(40)] == [Some(100), Some(250), Some(40)];
    assert Follow(100, [Some(100), Some(250), Some(40)]).0 == 40;
    assert [ProbeSize, ProbeSize, ReadBytes(150)] + [ProbeSize, ResetNotice, ReadLines(TailLines)] ==
      [ProbeSize, ProbeSize, ReadBytes(150), ProbeSize, ResetNotice, ReadLines(50)];
  }
}
