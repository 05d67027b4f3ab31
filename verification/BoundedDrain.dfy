/** A child process, one drain thread for each of its streams, and the supervisor that joins them
    (`_bounded_process_output`), as steps that may interleave in any order. */
module BoundedDrain {
  import opened Sequences
  import opened Utf8

  const PIPE_READ_SIZE := 64 * 1024

  /** Where a drain thread stands. `Holding` has read a chunk and not stored it yet. */
  datatype Drain = Reading | Holding(chunk: Bytes) | Overflowing | Failing | Done

  /** One stream: what its writers wrote, whether a writer remains, how far it was read, and the buffer. */
  datatype Channel = Channel(written: Bytes, open: bool, position: nat, buffer: Bytes, drain: Drain)

  datatype Child = Running | Exited(code: int)

  datatype Which = Stdout | Stderr

  /** Where the supervisor stands, one point for each test or wait it makes. */
  datatype Supervisor =
    | Polling | TestingOverflow | TestingFailure | TestingDeadline | Pausing
    | JoiningStdout | JoiningStderr | TestingStdoutAlive | TestingStderrAlive
    | RaisingTimeout | RaisingOverflow | RaisingFailure
    | Returned(code: int, stdout: Bytes, stderr: Bytes)
    | Raised

  datatype State = State(
    stdout: Channel, stderr: Channel, overflow: bool, readFailure: bool, child: Child,
    stopped: bool, timedOut: bool, supervisor: Supervisor)

  datatype Limits = Limits(stdout: nat, stderr: nat)

  function ChannelOf(s: State, w: Which): Channel {
    if w == Stdout then s.stdout else s.stderr
  }

  function LimitOf(l: Limits, w: Which): nat {
    if w == Stdout then l.stdout else l.stderr
  }

  function With(s: State, w: Which, c: Channel): State {
    if w == Stdout then s.(stdout := c) else s.(stderr := c)
  }

  // ---- Steps ----

  predicate Initial(s: State) {
    && s.stdout == Channel([], true, 0, [], Reading) && s.stderr == Channel([], true, 0, [], Reading)
    && !s.overflow && !s.readFailure && s.child == Running && !s.stopped && !s.timedOut && s.supervisor == Polling
  }

  /** The child, or a process it left behind, writes to a stream it still holds open. */
  predicate Writes(s: State, t: State, w: Which, bytes: Bytes) {
    var c := ChannelOf(s, w);
    c.open && t == With(s, w, c.(written := c.written + bytes))
  }

  /** The last writer of a stream closes it. */
  predicate Closes(s: State, t: State, w: Which) {
    t == With(s, w, ChannelOf(s, w).(open := false))
  }

  predicate Exits(s: State, t: State, code: int) {
    s.child == Running && t == s.(child := Exited(code))
  }

  /** `stream.read(64 * 1024)` returns some bytes. */
  predicate Reads(s: State, t: State, w: Which, n: nat) {
    var c := ChannelOf(s, w);
    && c.drain == Reading && 1 <= n <= PIPE_READ_SIZE && c.position + n <= |c.written|
    && t == With(s, w, c.(position := c.position + n, drain := Holding(c.written[c.position..c.position + n])))
  }

  /** `stream.read` returns no bytes: every writer is gone and everything was read. */
  predicate ReadsEnd(s: State, t: State, w: Which) {
    var c := ChannelOf(s, w);
    && c.drain == Reading && !c.open && c.position == |c.written|
    && t == With(s, w, c.(drain := Done))
  }

  /** The chunk fits and is kept, or only its front is kept before overflow is announced. */
  predicate Stores(s: State, t: State, w: Which, limit: nat) {
    var c := ChannelOf(s, w);
    && c.drain.Holding?
    && var remaining := limit - |c.buffer|;
       if remaining <= 0 || |c.drain.chunk| > remaining
       then t == With(s, w, c.(buffer := if remaining > 0 then c.buffer + c.drain.chunk[..Minimum(remaining, |c.drain.chunk|)] else c.buffer,
                               drain := Overflowing))
       else t == With(s, w, c.(buffer := c.buffer + c.drain.chunk, drain := Reading))
  }

  /** `overflow.set()` and the thread returns. */
  predicate Announces(s: State, t: State, w: Which) {
    var c := ChannelOf(s, w);
    c.drain == Overflowing && t == With(s, w, c.(drain := Done)).(overflow := true)
  }

  /** Any exception inside the drain. */
  predicate Throws(s: State, t: State, w: Which) {
    var c := ChannelOf(s, w);
    (c.drain == Reading || c.drain.Holding? || c.drain == Overflowing) && t == With(s, w, c.(drain := Failing))
  }

  /** `read_failure.set()` and the thread returns. */
  predicate Fails(s: State, t: State, w: Which) {
    var c := ChannelOf(s, w);
    c.drain == Failing && t == With(s, w, c.(drain := Done)).(readFailure := true)
  }

  /** One move of the supervisor; `late` and `impatient` are what the clock decides. */
  predicate Supervises(s: State, t: State, late: bool, impatient: bool) {
    match s.supervisor
    case Polling => t == s.(supervisor := if s.child.Exited? then JoiningStdout else TestingOverflow)
    case TestingOverflow =>
      t == if s.overflow then s.(stopped := true, supervisor := JoiningStdout) else s.(supervisor := TestingFailure)
    case TestingFailure =>
      t == if s.readFailure then s.(stopped := true, supervisor := JoiningStdout) else s.(supervisor := TestingDeadline)
    case TestingDeadline =>
      t == if late then s.(timedOut := true, stopped := true, supervisor := JoiningStdout) else s.(supervisor := Pausing)
    case Pausing => t == s.(supervisor := Polling)
    case JoiningStdout => (s.stdout.drain == Done || impatient) && t == s.(supervisor := JoiningStderr)
    case JoiningStderr => (s.stderr.drain == Done || impatient) && t == s.(supervisor := TestingStdoutAlive)
    case TestingStdoutAlive =>
      t == if s.stdout.drain != Done then s.(stopped := true, supervisor := Raised) else s.(supervisor := TestingStderrAlive)
    case TestingStderrAlive =>
      t == if s.stderr.drain != Done then s.(stopped := true, supervisor := Raised) else s.(supervisor := RaisingTimeout)
    case RaisingTimeout => t == s.(supervisor := if s.timedOut then Raised else RaisingOverflow)
    case RaisingOverflow => t == s.(supervisor := if s.overflow then Raised else RaisingFailure)
    case RaisingFailure =>
      t == s.(supervisor :=
        if s.readFailure then Raised
        else if s.child.Exited? then Returned(s.child.code, s.stdout.buffer, s.stderr.buffer)
        else Raised)
    case Returned(_, _, _) => false
    case Raised => false
  }

  ghost predicate DrainSteps(s: State, t: State, w: Which, l: Limits) {
    || (exists n: nat :: Reads(s, t, w, n))
    || ReadsEnd(s, t, w) || Stores(s, t, w, LimitOf(l, w)) || Announces(s, t, w) || Throws(s, t, w) || Fails(s, t, w)
  }

  ghost predicate ChildSteps(s: State, t: State) {
    || (exists w, bytes :: Writes(s, t, w, bytes))
    || (exists w :: Closes(s, t, w))
    || (exists code :: Exits(s, t, code))
  }

  ghost predicate Next(s: State, t: State, l: Limits) {
    || ChildSteps(s, t)
    || (exists w :: DrainSteps(s, t, w, l))
    || (exists late, impatient :: Supervises(s, t, late, impatient))
  }

  ghost predicate Run(states: seq<State>, l: Limits) {
    && states != [] && Initial(states[0])
    && forall i :: 0 < i < |states| ==> Next(states[i - 1], states[i], l)
  }

  // ---- What always holds ----

  /** A buffer is a prefix of its stream within its limit, and its thread accounts for every byte it read. */
  predicate ChannelSafe(c: Channel, limit: nat, overflow: bool, readFailure: bool) {
    && |c.buffer| <= limit && |c.buffer| <= c.position <= |c.written|
    && c.buffer == c.written[..|c.buffer|]
    && (c.drain == Reading ==> c.position == |c.buffer|)
    && (c.drain.Holding? ==> c.drain.chunk != [] && c.position == |c.buffer| + |c.drain.chunk|
                             && c.drain.chunk == c.written[|c.buffer|..c.position])
    && (c.drain == Overflowing ==> |c.written| > limit)
    && (c.drain == Done ==> overflow || readFailure || (!c.open && c.buffer == c.written))
  }

  predicate InLoop(p: Supervisor) {
    p in {Polling, TestingOverflow, TestingFailure, TestingDeadline, Pausing}
  }

  predicate PastStdout(p: Supervisor) {
    p in {TestingStderrAlive, RaisingTimeout, RaisingOverflow, RaisingFailure} || p.Returned?
  }

  predicate PastStderr(p: Supervisor) { PastStdout(p) && p != TestingStderrAlive }

  /** The supervisor stops the child only for a reason it later raises, and otherwise waits for it. */
  predicate SupervisorSafe(s: State) {
    var p := s.supervisor;
    && (InLoop(p) ==> !s.stopped && !s.timedOut)
    && (!InLoop(p) && p != Raised ==> if s.stopped then s.overflow || s.readFailure || s.timedOut else s.child.Exited?)
    && (PastStdout(p) ==> s.stdout.drain == Done)
    && (PastStderr(p) ==> s.stderr.drain == Done)
    && (p in {RaisingOverflow, RaisingFailure} || p.Returned? ==> !s.timedOut)
    && (p == RaisingFailure || p.Returned? ==> !s.overflow)
    && (p.Returned? ==> !s.readFailure && s.child == Exited(p.code) && p.stdout == s.stdout.buffer && p.stderr == s.stderr.buffer)
  }

  /** Overflow is announced only when a stream really is longer than its limit. */
  predicate OverflowReal(s: State, l: Limits) {
    s.overflow ==> |s.stdout.written| > l.stdout || |s.stderr.written| > l.stderr
  }

  predicate Safe(s: State, l: Limits) {
    && ChannelSafe(s.stdout, l.stdout, s.overflow, s.readFailure)
    && ChannelSafe(s.stderr, l.stderr, s.overflow, s.readFailure)
    && SupervisorSafe(s) && OverflowReal(s, l)
  }

  lemma InitiallySafe(s: State, l: Limits)
    requires Initial(s)
    ensures Safe(s, l)
  {
  }

  // ---- Each kind of step keeps it ----

  lemma ChildKeepsChannel(c: Channel, d: Channel, limit: nat, overflow: bool, readFailure: bool)
    requires ChannelSafe(c, limit, overflow, readFailure)
    requires (exists bytes :: c.open && d == c.(written := c.written + bytes)) || d == c.(open := false)
    ensures ChannelSafe(d, limit, overflow, readFailure)
  {
    assert d.written[..|c.written|] == c.written;
    assert d.written[..|c.buffer|] == c.written[..|c.buffer|];
    if c.drain.Holding? { assert d.written[|c.buffer|..c.position] == c.written[|c.buffer|..c.position]; }
  }

  /** A stream may change as long as it stays safe, only grows, and keeps what its finished thread left. */
  lemma ReplacedKeepsSafe(s: State, t: State, w: Which, d: Channel, l: Limits)
    requires Safe(s, l) && t == With(s, w, d) && ChannelSafe(d, LimitOf(l, w), s.overflow, s.readFailure)
    requires |d.written| >= |ChannelOf(s, w).written|
    requires ChannelOf(s, w).drain == Done ==> d.drain == Done && d.buffer == ChannelOf(s, w).buffer
    ensures Safe(t, l)
  {
    hide ChannelSafe;
  }

  lemma ChildKeepsSafe(s: State, t: State, l: Limits)
    requires Safe(s, l) && ChildSteps(s, t)
    ensures Safe(t, l)
  {
    hide Safe, ChannelSafe;
    if w, bytes :| Writes(s, t, w, bytes) {
      WriteKeepsSafe(s, t, w, bytes, l);
    } else if w :| Closes(s, t, w) {
      CloseKeepsSafe(s, t, w, l);
    } else {
      var code :| Exits(s, t, code);
      ExitKeepsSafe(s, t, code, l);
    }
  }

  lemma WriteKeepsSafe(s: State, t: State, w: Which, bytes: Bytes, l: Limits)
    requires Safe(s, l) && Writes(s, t, w, bytes)
    ensures Safe(t, l)
  {
    hide ChannelSafe, SupervisorSafe;
    ChildKeepsChannel(ChannelOf(s, w), ChannelOf(t, w), LimitOf(l, w), s.overflow, s.readFailure);
    ReplacedKeepsSafe(s, t, w, ChannelOf(t, w), l);
  }

  lemma CloseKeepsSafe(s: State, t: State, w: Which, l: Limits)
    requires Safe(s, l) && Closes(s, t, w)
    ensures Safe(t, l)
  {
    hide ChannelSafe, SupervisorSafe;
    ChildKeepsChannel(ChannelOf(s, w), ChannelOf(t, w), LimitOf(l, w), s.overflow, s.readFailure);
    ReplacedKeepsSafe(s, t, w, ChannelOf(t, w), l);
  }

  lemma ExitKeepsSafe(s: State, t: State, code: int, l: Limits)
    requires Safe(s, l) && Exits(s, t, code)
    ensures Safe(t, l)
  {
    hide ChannelSafe;
  }

  lemma ReadKeepsChannel(c: Channel, n: nat, limit: nat, overflow: bool, readFailure: bool)
    requires ChannelSafe(c, limit, overflow, readFailure) && c.drain == Reading && 1 <= n && c.position + n <= |c.written|
    ensures ChannelSafe(c.(position := c.position + n, drain := Holding(c.written[c.position..c.position + n])), limit, overflow, readFailure)
  {
  }

  lemma EndKeepsChannel(c: Channel, limit: nat, overflow: bool, readFailure: bool)
    requires ChannelSafe(c, limit, overflow, readFailure) && c.drain == Reading && !c.open && c.position == |c.written|
    ensures ChannelSafe(c.(drain := Done), limit, overflow, readFailure)
  {
    assert c.written[..|c.written|] == c.written;
  }

  lemma StoreKeepsChannel(c: Channel, limit: nat, overflow: bool, readFailure: bool)
    requires ChannelSafe(c, limit, overflow, readFailure) && c.drain.Holding?
    ensures var remaining := limit - |c.buffer|;
      if remaining <= 0 || |c.drain.chunk| > remaining
      then ChannelSafe(c.(buffer := if remaining > 0 then c.buffer + c.drain.chunk[..Minimum(remaining, |c.drain.chunk|)] else c.buffer,
                          drain := Overflowing), limit, overflow, readFailure)
      else ChannelSafe(c.(buffer := c.buffer + c.drain.chunk, drain := Reading), limit, overflow, readFailure)
  {
    var remaining := limit - |c.buffer|;
    assert c.written[..c.position] == c.buffer + c.drain.chunk;
    if 0 < remaining < |c.drain.chunk| {
      assert c.written[..limit] == c.buffer + c.drain.chunk[..remaining];
    }
  }

  lemma DrainKeepsSafe(s: State, t: State, w: Which, l: Limits)
    requires Safe(s, l) && DrainSteps(s, t, w, l)
    ensures Safe(t, l)
  {
    hide Safe, ChannelSafe, Announces, Throws, Fails;
    if n: nat :| Reads(s, t, w, n) {
      ReadKeepsSafe(s, t, w, n, l);
    } else if ReadsEnd(s, t, w) {
      EndKeepsSafe(s, t, w, l);
    } else if Stores(s, t, w, LimitOf(l, w)) {
      StoreKeepsSafe(s, t, w, l);
    } else {
      FlagsKeepSafe(s, t, w, l);
    }
  }

  lemma ReadKeepsSafe(s: State, t: State, w: Which, n: nat, l: Limits)
    requires Safe(s, l) && Reads(s, t, w, n)
    ensures Safe(t, l)
  {
    hide ChannelSafe, SupervisorSafe;
    ReadKeepsChannel(ChannelOf(s, w), n, LimitOf(l, w), s.overflow, s.readFailure);
    ReplacedKeepsSafe(s, t, w, ChannelOf(t, w), l);
  }

  lemma EndKeepsSafe(s: State, t: State, w: Which, l: Limits)
    requires Safe(s, l) && ReadsEnd(s, t, w)
    ensures Safe(t, l)
  {
    hide ChannelSafe, SupervisorSafe;
    EndKeepsChannel(ChannelOf(s, w), LimitOf(l, w), s.overflow, s.readFailure);
    ReplacedKeepsSafe(s, t, w, ChannelOf(t, w), l);
  }

  lemma StoreKeepsSafe(s: State, t: State, w: Which, l: Limits)
    requires Safe(s, l) && Stores(s, t, w, LimitOf(l, w))
    ensures Safe(t, l)
  {
    hide ChannelSafe, SupervisorSafe;
    StoreKeepsChannel(ChannelOf(s, w), LimitOf(l, w), s.overflow, s.readFailure);
    ReplacedKeepsSafe(s, t, w, ChannelOf(t, w), l);
  }

  lemma FlagsKeepSafe(s: State, t: State, w: Which, l: Limits)
    requires Safe(s, l) && (Announces(s, t, w) || Throws(s, t, w) || Fails(s, t, w))
    ensures Safe(t, l)
  {
  }

  lemma SupervisorKeepsSafe(s: State, t: State, late: bool, impatient: bool, l: Limits)
    requires Safe(s, l) && Supervises(s, t, late, impatient)
    ensures Safe(t, l)
  {
    hide ChannelSafe, SupervisorSafe, Supervises;
    SupervisorTouches(s, t, late, impatient);
    if InLoop(s.supervisor) { LoopKeepsSafe(s, t, late, impatient); } else { TailKeepsSafe(s, t, late, impatient); }
  }

  /** The supervisor changes nothing but its own point, and whether it stopped the child and why. */
  lemma SupervisorTouches(s: State, t: State, late: bool, impatient: bool)
    requires Supervises(s, t, late, impatient)
    ensures t == s.(stopped := t.stopped, timedOut := t.timedOut, supervisor := t.supervisor)
  {
  }

  lemma LoopKeepsSafe(s: State, t: State, late: bool, impatient: bool)
    requires SupervisorSafe(s) && InLoop(s.supervisor) && Supervises(s, t, late, impatient)
    ensures SupervisorSafe(t)
  {
  }

  lemma TailKeepsSafe(s: State, t: State, late: bool, impatient: bool)
    requires SupervisorSafe(s) && !InLoop(s.supervisor) && Supervises(s, t, late, impatient)
    ensures SupervisorSafe(t)
  {
  }

  lemma NextKeepsSafe(s: State, t: State, l: Limits)
    requires Safe(s, l) && Next(s, t, l)
    ensures Safe(t, l)
  {
    hide Safe, ChildSteps, DrainSteps, Supervises;
    if ChildSteps(s, t) {
      ChildKeepsSafe(s, t, l);
    } else if w :| DrainSteps(s, t, w, l) {
      DrainKeepsSafe(s, t, w, l);
    } else {
      var late, impatient :| Supervises(s, t, late, impatient);
      SupervisorKeepsSafe(s, t, late, impatient, l);
    }
  }

  lemma {:induction false} RunIsSafe(states: seq<State>, l: Limits, i: nat)
    requires Run(states, l) && i < |states|
    ensures Safe(states[i], l)
  {
    hide Safe, Next, Initial;
    if i == 0 {
      InitiallySafe(states[0], l);
    } else {
      RunIsSafe(states, l, i - 1);
      NextKeepsSafe(states[i - 1], states[i], l);
    }
  }

  // ---- The theorems ----

  /** In every state of every run, each buffer is a prefix of its stream and within its limit. */
  lemma BuffersAreBoundedPrefixes(states: seq<State>, l: Limits, i: nat, w: Which)
    requires Run(states, l) && i < |states|
    ensures var c := ChannelOf(states[i], w);
      |c.buffer| <= LimitOf(l, w) && |c.buffer| <= |c.written| && c.buffer == c.written[..|c.buffer|]
  {
    hide Run;
    RunIsSafe(states, l, i);
  }

  /** A normal return means the child exited by itself and both buffers are the complete streams. */
  lemma ReturnIsComplete(states: seq<State>, l: Limits, i: nat)
    requires Run(states, l) && i < |states| && states[i].supervisor.Returned?
    ensures var s, r := states[i], states[i].supervisor;
      && s.child == Exited(r.code) && !s.stopped && !s.timedOut
      && !s.stdout.open && !s.stderr.open
      && r.stdout == s.stdout.written && r.stderr == s.stderr.written
      && |r.stdout| <= l.stdout && |r.stderr| <= l.stderr
  {
    hide Run;
    RunIsSafe(states, l, i);
  }

  /** The overflow flag is never spurious: some stream is longer than its limit. */
  lemma OverflowIsReal(states: seq<State>, l: Limits, i: nat)
    requires Run(states, l) && i < |states| && states[i].overflow
    ensures |states[i].stdout.written| > l.stdout || |states[i].stderr.written| > l.stderr
  {
    hide Run;
    RunIsSafe(states, l, i);
  }

  /** Nothing is raised without a reason: the deadline passed, a stream is longer than its limit, a drain failed,
      or one was still at work when joining gave up. The supervisor's last test never raises. */
  lemma RaisedForReason(states: seq<State>, l: Limits, i: nat)
    requires Run(states, l) && 0 < i < |states| && states[i].supervisor == Raised && states[i - 1].supervisor != Raised
    ensures var s := states[i];
      || s.timedOut || s.readFailure || s.stdout.drain != Done || s.stderr.drain != Done
      || |s.stdout.written| > l.stdout || |s.stderr.written| > l.stderr
  {
    hide ChannelSafe, Initial, ChildSteps, DrainSteps, Supervises;
    var s, t := states[i - 1], states[i];
    RunIsSafe(states, l, i - 1);
    assert Next(s, t, l);
    if ChildSteps(s, t) {
      ChildLeavesSupervisor(s, t);
    } else if w :| DrainSteps(s, t, w, l) {
      DrainLeavesSupervisor(s, t, w, l);
    } else {
      var late, impatient :| Supervises(s, t, late, impatient);
      RaisingStep(s, t, late, impatient, l);
    }
  }

  lemma ChildLeavesSupervisor(s: State, t: State)
    requires ChildSteps(s, t)
    ensures t.supervisor == s.supervisor
  {
  }

  lemma DrainLeavesSupervisor(s: State, t: State, w: Which, l: Limits)
    requires DrainSteps(s, t, w, l)
    ensures t.supervisor == s.supervisor
  {
    if w == Stdout { } else { }
  }

  lemma RaisingStep(s: State, t: State, late: bool, impatient: bool, l: Limits)
    requires Safe(s, l) && Supervises(s, t, late, impatient) && s.supervisor != Raised && t.supervisor == Raised
    ensures t.timedOut || t.overflow || t.readFailure || t.stdout.drain != Done || t.stderr.drain != Done
    ensures t.overflow ==> |t.stdout.written| > l.stdout || |t.stderr.written| > l.stderr
  {
    hide ChannelSafe;
  }

  // ---- Output within the limits can always be returned ----

  lemma Extend(run: seq<State>, t: State, l: Limits)
    requires Run(run, l) && Next(run[|run| - 1], t, l)
    ensures Run(run + [t], l)
  {
    hide Next;
  }

  /** A drain whose stream is closed and short enough reads it to its end, piece by piece. */
  lemma {:induction false} DrainedRun(run: seq<State>, w: Which, l: Limits) returns (more: seq<State>)
    requires run != [] && Run(run, l)
    requires var c := ChannelOf(run[|run| - 1], w);
      && !c.open && c.drain == Reading && c.position == |c.buffer| <= |c.written| <= LimitOf(l, w)
      && c.buffer == c.written[..c.position]
    ensures more != [] && Run(more, l)
    ensures var s := run[|run| - 1]; var c := ChannelOf(s, w);
      more[|more| - 1] == With(s, w, Channel(c.written, false, |c.written|, c.written, Done))
    decreases |ChannelOf(run[|run| - 1], w).written| - ChannelOf(run[|run| - 1], w).position
  {
    hide Run, ChildSteps, Supervises;
    var s := run[|run| - 1];
    var c := ChannelOf(s, w);
    if c.position == |c.written| {
      assert c.written[..c.position] == c.written;
      var t := With(s, w, c.(drain := Done));
      assert DrainSteps(s, t, w, l);
      Extend(run, t, l);
      more := run + [t];
    } else {
      var t, u := ReadAndStore(s, w, l);
      Extend(run, t, l);
      Extend(run + [t], u, l);
      more := DrainedRun(run + [t] + [u], w, l);
    }
  }

  lemma ReadAndStore(s: State, w: Which, l: Limits) returns (t: State, u: State)
    requires var c := ChannelOf(s, w);
      && !c.open && c.drain == Reading && c.position == |c.buffer| < |c.written| <= LimitOf(l, w)
      && c.buffer == c.written[..c.position]
    ensures Next(s, t, l) && Next(t, u, l)
    ensures var c, d := ChannelOf(s, w), ChannelOf(u, w);
      && u == With(s, w, d) && d.written == c.written && !d.open && d.drain == Reading
      && c.position < d.position == |d.buffer| <= |d.written| && d.buffer == d.written[..d.position]
  {
    hide ChildSteps, Supervises, DrainSteps;
    var c := ChannelOf(s, w);
    var n := Minimum(PIPE_READ_SIZE, |c.written| - c.position);
    var chunk := c.written[c.position..c.position + n];
    t := With(s, w, c.(position := c.position + n, drain := Holding(chunk)));
    u := With(s, w, c.(position := c.position + n, buffer := c.buffer + chunk, drain := Reading));
    ReadIsStep(s, t, w, l, n);
    StoreIsStep(t, u, w, l);
    assert c.buffer + chunk == c.written[..c.position + n];
  }

  lemma ReadIsStep(s: State, t: State, w: Which, l: Limits, n: nat)
    requires Reads(s, t, w, n)
    ensures DrainSteps(s, t, w, l)
  {
    hide Reads;
  }

  lemma StoreIsStep(s: State, t: State, w: Which, l: Limits)
    requires Stores(s, t, w, LimitOf(l, w))
    ensures DrainSteps(s, t, w, l)
  {
    hide Stores;
  }

  /** The child has written and exited, and both drains are done: the supervisor needs eight moves to return. */
  lemma SupervisedRun(run: seq<State>, l: Limits, code: int) returns (more: seq<State>)
    requires run != [] && Run(run, l)
    requires var s := run[|run| - 1];
      && s.supervisor == Polling && s.child == Exited(code) && s.stdout.drain == Done && s.stderr.drain == Done
      && !s.timedOut && !s.overflow && !s.readFailure
    ensures more != [] && Run(more, l)
    ensures var s := run[|run| - 1];
      more[|more| - 1].supervisor == Returned(code, s.stdout.buffer, s.stderr.buffer)
  {
    hide Run, ChildSteps, DrainSteps;
    var s := run[|run| - 1];
    var path := [JoiningStdout, JoiningStderr, TestingStdoutAlive, TestingStderrAlive, RaisingTimeout, RaisingOverflow,
                 RaisingFailure, Returned(code, s.stdout.buffer, s.stderr.buffer)];
    more := run;
    var k := 0;
    while k < 8
      invariant 0 <= k <= 8 && Run(more, l) && more != []
      invariant more[|more| - 1] == if k == 0 then s else s.(supervisor := path[k - 1])
    {
      var t := s.(supervisor := path[k]);
      assert Supervises(more[|more| - 1], t, false, false);
      Extend(more, t, l);
      more := more + [t];
      k := k + 1;
    }
  }

  /** Whatever the child writes within the limits and whatever its exit code, some run returns exactly that. */
  lemma WithinLimitsCanReturn(stdout: Bytes, stderr: Bytes, code: int, l: Limits) returns (run: seq<State>)
    requires |stdout| <= l.stdout && |stderr| <= l.stderr
    ensures run != [] && Run(run, l) && run[|run| - 1].supervisor == Returned(code, stdout, stderr)
  {
    hide DrainSteps, Supervises;
    var s := State(Channel([], true, 0, [], Reading), Channel([], true, 0, [], Reading), false, false, Running, false, false, Polling);
    var a := With(s, Stdout, s.stdout.(written := stdout));
    assert Writes(s, a, Stdout, stdout) by { assert [] + stdout == stdout; }
    var b := With(a, Stderr, a.stderr.(written := stderr));
    assert Writes(a, b, Stderr, stderr) by { assert [] + stderr == stderr; }
    var c := With(b, Stdout, b.stdout.(open := false));
    assert Closes(b, c, Stdout);
    var d := With(c, Stderr, c.stderr.(open := false));
    assert Closes(c, d, Stderr);
    var e := d.(child := Exited(code));
    assert Exits(d, e, code);
    run := [s, a, b, c, d, e];
    assert Run(run, l);
    hide Run, ChildSteps;
    run := DrainedRun(run, Stdout, l);
    run := DrainedRun(run, Stderr, l);
    run := SupervisedRun(run, l, code);
  }
}
