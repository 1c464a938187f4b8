/**
 Log lines around start-up: until the factory is started, lines are buffered
 for the file and delivered to the platform writer at once; Start takes the
 buffer under the mutex and flushes it to the file only; Close clears the buffer
 and then closes the file, after which a write to it reaches nothing. Any number
 of Log calls, Start and Close interleave; every access of the started flag, the
 mutex, the buffer, the file and the writers is one step. Fatal and panic lines, which
 bypass the buffer, are not part of this model.
 */
module LogStartup {
  import opened Options

  type Line = nat

  datatype Holder = Nobody | Logger(line: Line) | Starter | Closer

  datatype LogPc =
    | LoadStarted          // first, unlocked read of the flag
    | LockMutex
    | ReloadStarted        // second read, under the mutex
    | Append               // pendingEntries = append(...)
    | UnlockBuffered
    | UnlockDirect
    | WriteFile            // outputWith: the file path
    | WritePlatform
    | Done

  /**
   A Log call, how often its line has reached each writer and how often it was
   written to the file when that was closed.
   */
  datatype Call = Call(pc: LogPc, file: nat, late: nat, platform: nat)

  /** The log file of a factory that has a path: opened by Start, closed by Close if it finds it open. */
  datatype File = NotOpened | Opened | Shut

  datatype StartPc = OpenFile | StartLock | Take | StartUnlock | Flush | StartDone
  datatype ClosePc = CloseLock | Clear | CloseUnlock | CloseFile | CloseDone

  /** `fileReady`: the writer is the final one. `lost`: lines cleared from the buffer by Close. */
  datatype State = State(hasPath: bool, started: bool, fileReady: bool, logFile: File, mutex: Holder,
                         pending: seq<Line>, flushing: seq<Line>, calls: map<Line, Call>,
                         start: StartPc, close: ClosePc, lost: multiset<Line>) {
    function Goto(l: Line, pc: LogPc): State
      requires l in calls
    {
      this.(calls := calls[l := calls[l].(pc := pc)])
    }

    /** A write of the line: to a closed file it is in vain. */
    function Written(c: Call): Call {
      if logFile.Shut? then c.(late := c.late + 1) else c.(file := c.file + 1)
    }
  }

  datatype Step = Begin(line: Line) | Log(line: Line) | StartStep | CloseStep

  /** Without a file path the factory is started from the beginning. */
  ghost predicate Init(s: State) {
    && s.started == s.fileReady == !s.hasPath && s.logFile.NotOpened? && s.mutex.Nobody?
    && s.pending == s.flushing == [] && s.calls == map[]
    && s.start.OpenFile? && s.close.CloseLock? && s.lost == multiset{}
  }

  predicate Enabled(s: State, step: Step) {
    match step
    case Begin(l) => l !in s.calls
    case Log(l) => l in s.calls && !s.calls[l].pc.Done? && (s.calls[l].pc.LockMutex? ==> s.mutex.Nobody?)
    case StartStep => !s.start.StartDone? && (s.start.StartLock? ==> s.mutex.Nobody?)
                      && (s.start.Flush? && s.flushing != [] ==> s.flushing[0] in s.calls)
    case CloseStep => !s.close.CloseDone? && (s.close.CloseLock? ==> s.mutex.Nobody?)
  }

  function Apply(s: State, step: Step): State
    requires Enabled(s, step)
  {
    match step
    case Begin(l) => s.(calls := s.calls[l := Call(LoadStarted, 0, 0, 0)])
    case Log(l) => ApplyLog(s, l)
    case StartStep =>
      (match s.start
       case OpenFile => s.(fileReady := true, logFile := if s.hasPath then Opened else s.logFile, start := StartLock)
       case StartLock => s.(mutex := Starter, start := Take)
       case Take => s.(flushing := s.pending, pending := [], started := true, start := StartUnlock)
       case StartUnlock => s.(mutex := Nobody, start := Flush)
       case Flush =>
         if s.flushing == [] then s.(start := StartDone)
         else
           var l := s.flushing[0];
           s.(flushing := s.flushing[1..], calls := s.calls[l := s.Written(s.calls[l])]))
    case CloseStep =>
      (match s.close
       case CloseLock => s.(mutex := Closer, close := Clear)
       case Clear => s.(lost := s.lost + multiset(s.pending), pending := [], close := CloseUnlock)
       case CloseUnlock => s.(mutex := Nobody, close := CloseFile)
       case CloseFile => s.(logFile := if s.logFile.Opened? then Shut else s.logFile, close := CloseDone))
  }

  function ApplyLog(s: State, l: Line): State
    requires l in s.calls && !s.calls[l].pc.Done?
  {
    var c := s.calls[l];
    match c.pc
    case LoadStarted => s.Goto(l, if s.started then WriteFile else LockMutex)
    case LockMutex => s.(mutex := Logger(l)).Goto(l, ReloadStarted)
    case ReloadStarted => s.Goto(l, if s.started then UnlockDirect else Append)
    case Append => s.(pending := s.pending + [l]).Goto(l, UnlockBuffered)
    case UnlockBuffered => s.(mutex := Nobody).Goto(l, WritePlatform)
    case UnlockDirect => s.(mutex := Nobody).Goto(l, WriteFile)
    case WriteFile => s.(calls := s.calls[l := s.Written(c).(pc := WritePlatform)])
    case WritePlatform => s.(calls := s.calls[l := c.(pc := Done, platform := c.platform + 1)])
  }

  ghost predicate IsRun(run: seq<State>, steps: seq<Step>) {
    && |run| == |steps| + 1
    && Init(run[0])
    && forall k :: 0 <= k < |steps| ==> Enabled(run[k], steps[k]) && run[k + 1] == Apply(run[k], steps[k])
  }

  // ---- the invariant ----

  predicate Locking(pc: LogPc) {
    pc.ReloadStarted? || pc.Append? || pc.UnlockBuffered? || pc.UnlockDirect?
  }

  /** The call itself still owes its line to the file path. */
  predicate Owes(pc: LogPc) {
    pc.LoadStarted? || pc.LockMutex? || pc.ReloadStarted? || pc.Append? || pc.UnlockDirect? || pc.WriteFile?
  }

  /**
   Each line is in exactly one place: owed by its call, buffered, being flushed,
   written, written in vain, or lost.
   */
  ghost predicate LineOk(s: State, l: Line)
    requires l in s.calls
  {
    var c := s.calls[l];
    && c.file + c.late + (if Owes(c.pc) then 1 else 0)
       + multiset(s.pending)[l] + multiset(s.flushing)[l] + s.lost[l] == 1
    && c.platform == (if c.pc.Done? then 1 else 0)
    && (Locking(c.pc) <==> s.mutex == Logger(l))
    && (c.pc.Append? ==> !s.started)
    && (c.pc.WriteFile? || c.pc.UnlockDirect? ==> s.started)
  }

  ghost predicate Inv(s: State) {
    && (forall l :: l in s.calls ==> LineOk(s, l))
    && (forall l :: l in multiset(s.pending) || l in multiset(s.flushing) || l in s.lost ==> l in s.calls)
    && (s.mutex.Logger? ==> s.mutex.line in s.calls)
    && (s.mutex.Starter? <==> s.start.Take? || s.start.StartUnlock?)
    && (s.mutex.Closer? <==> s.close.Clear? || s.close.CloseUnlock?)
    && (s.started ==> s.fileReady && s.pending == [])
    && (!s.start.OpenFile? ==> s.fileReady)
    && (s.start.StartUnlock? || s.start.Flush? || s.start.StartDone? ==> s.started)
    && (s.start.OpenFile? || s.start.StartLock? || s.start.Take? || s.start.StartDone? ==> s.flushing == [])
  }

  /** What a Log step does besides moving its own call. */
  lemma LogEffect(s: State, l: Line)
    requires Enabled(s, Log(l))
    ensures var s' := Apply(s, Log(l));
            && l in s'.calls && s'.calls == s.calls[l := s'.calls[l]]
            && s'.started == s.started && s'.fileReady == s.fileReady && s'.flushing == s.flushing && s'.lost == s.lost
            && s'.logFile == s.logFile && s'.start == s.start && s'.close == s.close
            && s'.pending == (if s.calls[l].pc.Append? then s.pending + [l] else s.pending)
            && s'.mutex == (match s.calls[l].pc
                            case LockMutex => Logger(l)
                            case UnlockBuffered => Nobody
                            case UnlockDirect => Nobody
                            case _ => s.mutex)
  {
  }

  lemma LogOwn(s: State, l: Line)
    requires Enabled(s, Log(l)) && LineOk(s, l)
    requires s.started ==> s.pending == []
    ensures l in Apply(s, Log(l)).calls && LineOk(Apply(s, Log(l)), l)
  {
    LogEffect(s, l);
    if s.calls[l].pc.Append? {
      assert multiset(s.pending + [l]) == multiset(s.pending) + multiset{l};
    } else {
      assert Apply(s, Log(l)).pending == s.pending;
    }
  }

  lemma LogOther(s: State, l: Line, m: Line, s': State)
    requires l in s.calls && m in s.calls && m != l && LineOk(s, l) && LineOk(s, m)
    requires m in s'.calls && s'.calls[m] == s.calls[m]
    requires s'.started == s.started && s'.flushing == s.flushing && s'.lost == s.lost
    requires s'.pending == s.pending || s'.pending == s.pending + [l]
    requires s'.mutex == s.mutex || (s.mutex.Nobody? && s'.mutex == Logger(l))
             || (s.mutex == Logger(l) && s'.mutex.Nobody?)
    ensures LineOk(s', m)
  {
    assert multiset(s.pending + [l]) == multiset(s.pending) + multiset{l};
  }

  lemma LogKeepsInv(s: State, l: Line)
    requires Enabled(s, Log(l)) && Inv(s)
    ensures Inv(Apply(s, Log(l)))
  {
    var s' := Apply(s, Log(l));
    assert LineOk(s, l);
    LogEffect(s, l);
    LogOwn(s, l);
    forall m | m in s'.calls ensures LineOk(s', m) {
      if m != l {
        assert LineOk(s, m);
        LogOther(s, l, m, s');
      }
    }
    assert multiset(s.pending + [l]) == multiset(s.pending) + multiset{l};
  }

  lemma FlushLine(s: State, m: Line)
    requires Enabled(s, StartStep) && m in s.calls && LineOk(s, m) && s.start.Flush? && s.flushing != []
    ensures m in Apply(s, StartStep).calls && LineOk(Apply(s, StartStep), m)
  {
    assert s.flushing == [s.flushing[0]] + s.flushing[1..];
    StartWrites(s);
  }

  lemma StartLine(s: State, m: Line)
    requires Enabled(s, StartStep) && m in s.calls && LineOk(s, m)
    requires s.start.Take? ==> s.flushing == [] && s.mutex.Starter?
    requires s.start.StartUnlock? ==> s.mutex.Starter?
    ensures m in Apply(s, StartStep).calls && LineOk(Apply(s, StartStep), m)
  {
    if s.start.Flush? && s.flushing != [] { FlushLine(s, m); } else { StartWrites(s); }
  }

  /** What a Start step does besides flushing one line. */
  lemma StartEffect(s: State)
    requires Enabled(s, StartStep)
    ensures var s' := Apply(s, StartStep);
            && s'.close == s.close && s'.lost == s.lost
            && s'.calls.Keys == s.calls.Keys
            && (!s.start.Take? && !s.start.Flush? ==>
                  s'.pending == s.pending && s'.flushing == s.flushing && s'.calls == s.calls)
            && (s.start.Take? ==> s'.pending == [] && s'.flushing == s.pending && s'.calls == s.calls)
            && (s.start.Flush? ==>
                  s'.pending == s.pending && s'.flushing == (if s.flushing == [] then [] else s.flushing[1..]))
            && s'.started == (s.started || s.start.Take?) && s'.fileReady == (s.fileReady || s.start.OpenFile?)
            && s'.mutex == (if s.start.StartLock? then Starter else if s.start.StartUnlock? then Nobody else s.mutex)
            && s'.start == (match s.start
                            case OpenFile => StartLock
                            case StartLock => Take
                            case Take => StartUnlock
                            case StartUnlock => Flush
                            case Flush => if s.flushing == [] then StartDone else Flush)
  {
  }

  lemma FlushSmaller(flushing: seq<Line>, l: Line)
    requires flushing != [] && l in multiset(flushing[1..])
    ensures l in multiset(flushing)
  {
    assert flushing == [flushing[0]] + flushing[1..];
  }

  lemma StartKeepsInv(s: State)
    requires Enabled(s, StartStep) && Inv(s)
    ensures Inv(Apply(s, StartStep))
  {
    var s' := Apply(s, StartStep);
    StartEffect(s);
    forall m | m in s'.calls ensures LineOk(s', m) {
      assert LineOk(s, m);
      StartLine(s, m);
    }
    forall l | l in multiset(s'.pending) || l in multiset(s'.flushing) || l in s'.lost ensures l in s'.calls {
      if s.start.Flush? && s.flushing != [] && l in multiset(s'.flushing) { FlushSmaller(s.flushing, l); }
    }
  }

  lemma CloseEffect(s: State)
    requires Enabled(s, CloseStep)
    ensures var s' := Apply(s, CloseStep);
            && s'.calls == s.calls && s'.flushing == s.flushing && s'.start == s.start
            && s'.started == s.started && s'.fileReady == s.fileReady
            && s'.pending == (if s.close.Clear? then [] else s.pending)
            && s'.lost == (if s.close.Clear? then s.lost + multiset(s.pending) else s.lost)
            && s'.mutex == (if s.close.CloseLock? then Closer else if s.close.CloseUnlock? then Nobody else s.mutex)
            && s'.close == (match s.close
                            case CloseLock => Clear
                            case Clear => CloseUnlock
                            case CloseUnlock => CloseFile
                            case CloseFile => CloseDone)
  {
  }

  lemma CloseLine(s: State, s': State, m: Line)
    requires m in s.calls && LineOk(s, m) && s'.calls == s.calls && s'.flushing == s.flushing && s'.started == s.started
    requires || (s'.pending == s.pending && s'.lost == s.lost)
             || (s'.pending == [] && s'.lost == s.lost + multiset(s.pending))
    requires s'.mutex == s.mutex || (!s'.mutex.Logger? && !s.mutex.Logger?)
    ensures LineOk(s', m)
  {
  }

  lemma CloseKeepsInv(s: State)
    requires Enabled(s, CloseStep) && Inv(s)
    ensures Inv(Apply(s, CloseStep))
  {
    var s' := Apply(s, CloseStep);
    CloseEffect(s);
    forall m | m in s'.calls ensures LineOk(s', m) {
      assert LineOk(s, m);
      CloseLine(s, s', m);
    }
  }

  lemma BeginKeepsInv(s: State, l: Line)
    requires Enabled(s, Begin(l)) && Inv(s)
    ensures Inv(Apply(s, Begin(l)))
  {
    var s' := Apply(s, Begin(l));
    assert l !in multiset(s.pending) && l !in multiset(s.flushing) && l !in s.lost;
    forall m | m in s'.calls ensures LineOk(s', m) {
      if m != l { assert LineOk(s, m); }
    }
  }

  lemma {:induction false} RunKeepsInv(run: seq<State>, steps: seq<Step>, k: nat)
    requires IsRun(run, steps) && k < |run|
    ensures Inv(run[k])
  {
    if k > 0 {
      RunKeepsInv(run, steps, k - 1);
      assert Enabled(run[k - 1], steps[k - 1]) && run[k] == Apply(run[k - 1], steps[k - 1]);
      match steps[k - 1]
      case Begin(l) => BeginKeepsInv(run[k - 1], l);
      case Log(l) => LogKeepsInv(run[k - 1], l);
      case StartStep => StartKeepsInv(run[k - 1]);
      case CloseStep => CloseKeepsInv(run[k - 1]);
    }
  }

  // ---- what it guarantees ----

  /** Close finds the line in the buffer and clears it. */
  predicate Clears(s: State, step: Step, l: Line) {
    step.CloseStep? && s.close.Clear? && l in s.pending
  }

  /** The step hands the line to the file's Write: in its own Log call or in Start's flush. */
  predicate Writes(s: State, step: Step, l: Line) {
    || (step.Log? && step.line == l && l in s.calls && s.calls[l].pc.WriteFile?)
    || (step.StartStep? && s.start.Flush? && s.flushing != [] && s.flushing[0] == l)
  }

  ghost predicate WasCleared(run: seq<State>, steps: seq<Step>, k: nat, l: Line)
    requires IsRun(run, steps) && k <= |steps|
  {
    exists j :: 0 <= j < k && Clears(run[j], steps[j], l)
  }

  ghost predicate WasWrittenLate(run: seq<State>, steps: seq<Step>, k: nat, l: Line)
    requires IsRun(run, steps) && k <= |steps|
  {
    exists j :: 0 <= j < k && Writes(run[j], steps[j], l) && run[j].logFile.Shut?
  }

  lemma OnlyClearLoses(s: State, step: Step)
    requires Enabled(s, step)
    ensures Apply(s, step).lost == if step.CloseStep? && s.close.Clear? then s.lost + multiset(s.pending) else s.lost
  {
  }

  lemma {:induction false} LostIffCleared(run: seq<State>, steps: seq<Step>, k: nat, l: Line)
    requires IsRun(run, steps) && k < |run|
    ensures l in run[k].lost <==> WasCleared(run, steps, k, l)
  {
    if k > 0 {
      LostIffCleared(run, steps, k - 1, l);
      assert Enabled(run[k - 1], steps[k - 1]) && run[k] == Apply(run[k - 1], steps[k - 1]);
      OnlyClearLoses(run[k - 1], steps[k - 1]);
      assert Clears(run[k - 1], steps[k - 1], l) ==> WasCleared(run, steps, k, l);
    }
  }

  lemma LogWrites(s: State, l: Line)
    requires Enabled(s, Log(l))
    ensures var s' := Apply(s, Log(l));
            && l in s'.calls && s'.calls == s.calls[l := s'.calls[l]]
            && var c, c' := s.calls[l], s'.calls[l];
               if !c.pc.WriteFile? then c'.file == c.file && c'.late == c.late
               else c'.file == s.Written(c).file && c'.late == s.Written(c).late
  {
    LogEffect(s, l);
  }

  lemma StartWrites(s: State)
    requires Enabled(s, StartStep)
    ensures Apply(s, StartStep).calls ==
            if s.start.Flush? && s.flushing != [] then s.calls[s.flushing[0] := s.Written(s.calls[s.flushing[0]])]
            else s.calls
  {
  }

  /** What one step does to what has become of a line. */
  lemma WriteEffect(s: State, step: Step, l: Line)
    requires Enabled(s, step) && l in Apply(s, step).calls
    ensures var c' := Apply(s, step).calls[l];
            if l !in s.calls then c'.file == c'.late == 0 && !Writes(s, step, l)
            else if !Writes(s, step, l) then c'.file == s.calls[l].file && c'.late == s.calls[l].late
            else c'.file == s.Written(s.calls[l]).file && c'.late == s.Written(s.calls[l]).late
  {
    if step.Log? { LogWrites(s, step.line); }
    else if step.StartStep? { StartWrites(s); }
    else if step.CloseStep? { CloseEffect(s); }
  }

  lemma {:induction false} NotWrittenBefore(run: seq<State>, steps: seq<Step>, k: nat, l: Line)
    requires IsRun(run, steps) && k < |run| && l !in run[k].calls
    ensures !WasWrittenLate(run, steps, k, l)
  {
    if k > 0 {
      assert Enabled(run[k - 1], steps[k - 1]) && run[k] == Apply(run[k - 1], steps[k - 1]);
      assert l !in run[k - 1].calls;
      NotWrittenBefore(run, steps, k - 1, l);
      assert !Writes(run[k - 1], steps[k - 1], l);
    }
  }

  lemma {:induction false} LateIffWrittenLate(run: seq<State>, steps: seq<Step>, k: nat, l: Line)
    requires IsRun(run, steps) && k < |run| && l in run[k].calls
    ensures run[k].calls[l].late > 0 <==> WasWrittenLate(run, steps, k, l)
  {
    if k > 0 {
      var s, step := run[k - 1], steps[k - 1];
      assert Enabled(s, step) && run[k] == Apply(s, step);
      if l in s.calls { LateIffWrittenLate(run, steps, k - 1, l); } else { NotWrittenBefore(run, steps, k - 1, l); }
      WriteEffect(s, step, l);
      assert Writes(s, step, l) && s.logFile.Shut? ==> WasWrittenLate(run, steps, k, l);
    }
  }

  /**
   Once a Log call and Start are done, its line reached the platform writer
   exactly once. It is missing from the file exactly when Close found it in the
   buffer or it was written after Close had closed the file; otherwise it is
   there exactly once.
   */
  lemma DeliveredExactlyOnce(run: seq<State>, steps: seq<Step>, k: nat, l: Line)
    requires IsRun(run, steps) && k < |run| && l in run[k].calls
    requires run[k].calls[l].pc.Done? && run[k].start.StartDone?
    ensures run[k].calls[l].platform == 1
    ensures run[k].calls[l].file == if WasCleared(run, steps, k, l) || WasWrittenLate(run, steps, k, l) then 0 else 1
    ensures !(WasCleared(run, steps, k, l) && WasWrittenLate(run, steps, k, l))
  {
    RunKeepsInv(run, steps, k);
    assert LineOk(run[k], l);
    LostIffCleared(run, steps, k, l);
    LateIffWrittenLate(run, steps, k, l);
  }

  /** Never more than once, at any moment, in vain or not; and a finished call's line is with the platform writer. */
  lemma NeverTwice(run: seq<State>, steps: seq<Step>, k: nat, l: Line)
    requires IsRun(run, steps) && k < |run| && l in run[k].calls
    ensures run[k].calls[l].file + run[k].calls[l].late <= 1 && run[k].calls[l].platform <= 1
    ensures run[k].calls[l].pc.Done? ==> run[k].calls[l].platform == 1
  {
    RunKeepsInv(run, steps, k);
    assert LineOk(run[k], l);
  }

  /** Close clears the buffer only after Start has taken it. */
  ghost predicate StartPrecedesClose(run: seq<State>, steps: seq<Step>)
    requires IsRun(run, steps)
  {
    forall k :: 0 <= k < |steps| && steps[k].CloseStep? && run[k].close.Clear? ==> run[k].started
  }

  lemma {:induction false} NothingLost(run: seq<State>, steps: seq<Step>, k: nat)
    requires IsRun(run, steps) && k < |run| && StartPrecedesClose(run, steps)
    ensures run[k].lost == multiset{}
  {
    if k > 0 {
      NothingLost(run, steps, k - 1);
      RunKeepsInv(run, steps, k - 1);
      assert Enabled(run[k - 1], steps[k - 1]) && run[k] == Apply(run[k - 1], steps[k - 1]);
      OnlyClearLoses(run[k - 1], steps[k - 1]);
    }
  }

  /**
   When Start precedes Close, every line is handed exactly once to both writers
   and the buffer stays empty after Start; the file has the line exactly when it
   was not written after Close had closed the file.
   */
  lemma ExactlyOnceWhenStartPrecedesClose(run: seq<State>, steps: seq<Step>, k: nat)
    requires IsRun(run, steps) && k < |run| && StartPrecedesClose(run, steps)
    ensures run[k].started ==> run[k].pending == []
    ensures run[k].start.StartDone? ==>
              forall l :: l in run[k].calls && run[k].calls[l].pc.Done? ==>
                && run[k].calls[l].platform == 1 && run[k].calls[l].file + run[k].calls[l].late == 1
                && (run[k].calls[l].file == 1 <==> !WasWrittenLate(run, steps, k, l))
  {
    RunKeepsInv(run, steps, k);
    NothingLost(run, steps, k);
    if run[k].start.StartDone? {
      forall l | l in run[k].calls && run[k].calls[l].pc.Done?
        ensures run[k].calls[l].platform == 1 && run[k].calls[l].file + run[k].calls[l].late == 1
        ensures run[k].calls[l].file == 1 <==> !WasWrittenLate(run, steps, k, l)
      {
        assert LineOk(run[k], l);
        LateIffWrittenLate(run, steps, k, l);
      }
    }
  }

  /**
   No line is ever written to the placeholder writer: the file path is only taken
   once the final writer is in place.
   */
  lemma FileWritesUseFinalWriter(run: seq<State>, steps: seq<Step>, k: nat, l: Line)
    requires IsRun(run, steps) && k < |steps| && Writes(run[k], steps[k], l)
    ensures run[k].fileReady
  {
    RunKeepsInv(run, steps, k);
    assert Enabled(run[k], steps[k]);
    if steps[k].Log? { assert LineOk(run[k], l); }
  }

  // ---- a run for each way a line goes missing ----

  ghost predicate Reaches(s: State) {
    exists run, steps :: IsRun(run, steps) && run[|run| - 1] == s
  }

  lemma Then(s: State, step: Step) returns (s': State)
    requires Reaches(s) && Enabled(s, step)
    ensures Reaches(s') && s' == Apply(s, step)
  {
    var run, steps :| IsRun(run, steps) && run[|run| - 1] == s;
    s' := Apply(s, step);
    assert IsRun(run + [s'], steps + [step]);
    assert (run + [s'])[|run|] == s';
  }

  /** A line logged while the factory is not started is buffered and goes to the platform writer. */
  lemma Buffers(s0: State, l: Line) returns (s: State)
    requires Reaches(s0) && l !in s0.calls && !s0.started && s0.mutex.Nobody?
    ensures Reaches(s) && s == s0.(pending := s0.pending + [l], calls := s0.calls[l := Call(Done, 0, 0, 1)])
  {
    s := ReadyToAppend(s0, l);
    s := Appends(s, l);
  }

  lemma ReadyToAppend(s0: State, l: Line) returns (s: State)
    requires Reaches(s0) && l !in s0.calls && !s0.started && s0.mutex.Nobody?
    ensures Reaches(s) && s == s0.(mutex := Logger(l), calls := s0.calls[l := Call(Append, 0, 0, 0)])
  {
    s := Then(s0, Begin(l));
    s := Then(s, Log(l));
    s := Then(s, Log(l));
    s := Then(s, Log(l));
  }

  lemma Appends(s0: State, l: Line) returns (s: State)
    requires Reaches(s0) && l in s0.calls && s0.calls[l] == Call(Append, 0, 0, 0)
    ensures Reaches(s)
    ensures s == s0.(mutex := Nobody, pending := s0.pending + [l], calls := s0.calls[l := Call(Done, 0, 0, 1)])
  {
    s := Then(s0, Log(l));
    s := Then(s, Log(l));
    s := Then(s, Log(l));
  }

  lemma Buffered() returns (s: State)
    ensures Reaches(s)
    ensures s == State(true, false, false, NotOpened, Nobody, [0], [], map[0 := Call(Done, 0, 0, 1)],
                       OpenFile, CloseLock, multiset{})
  {
    s := State(true, false, false, NotOpened, Nobody, [], [], map[], OpenFile, CloseLock, multiset{});
    assert IsRun([s], []);
    assert [s][|[s]| - 1] == s;
    s := Buffers(s, 0);
  }

  lemma Closes(s0: State) returns (s: State)
    requires Reaches(s0) && s0.close.CloseLock? && s0.mutex.Nobody?
    ensures Reaches(s) && s == s0.(pending := [], lost := s0.lost + multiset(s0.pending), close := CloseDone,
                                   logFile := if s0.logFile.Opened? then Shut else s0.logFile)
  {
    s := Then(s0, CloseStep);
    s := Then(s, CloseStep);
    assert s == s0.(mutex := Closer, pending := [], lost := s0.lost + multiset(s0.pending), close := CloseUnlock);
    s := Then(s, CloseStep);
    s := Then(s, CloseStep);
  }

  /** Start has taken the buffer and is about to flush it. */
  lemma Takes(s0: State) returns (s: State)
    requires Reaches(s0) && s0.start.OpenFile? && s0.mutex.Nobody? && s0.hasPath
    ensures Reaches(s) && s == s0.(fileReady := true, logFile := Opened, flushing := s0.pending, pending := [],
                                   started := true, start := Flush)
  {
    s := Then(s0, StartStep);
    s := Then(s, StartStep);
    s := Then(s, StartStep);
    s := Then(s, StartStep);
  }

  /** Close before Start: the buffered line is cleared and never reaches the file, which Start then leaves open. */
  lemma ClearedRun() returns (s: State)
    ensures Reaches(s) && s.start.StartDone? && s.close.CloseDone? && s.logFile.Opened?
    ensures 0 in s.calls && s.calls[0] == Call(Done, 0, 0, 1) && 0 in s.lost
  {
    s := Buffered();
    s := Closes(s);
    s := Takes(s);
    s := Then(s, StartStep);
  }

  /** Close between Start's taking of the buffer and its flush: the line is flushed to a closed file. */
  lemma FlushedLateRun() returns (s: State)
    ensures Reaches(s) && s.start.StartDone? && s.close.CloseDone? && s.lost == multiset{}
    ensures s.calls == map[0 := Call(Done, 0, 1, 1)] && s.started && s.logFile.Shut?
  {
    s := Buffered();
    s := Takes(s);
    s := Closes(s);
    s := Then(s, StartStep);
    s := Then(s, StartStep);
  }

  /** A line logged after Close is written to a closed file. */
  lemma LoggedLateRun() returns (s: State)
    ensures Reaches(s) && s.start.StartDone? && 1 in s.calls && s.calls[1] == Call(Done, 0, 1, 1)
  {
    s := FlushedLateRun();
    s := Then(s, Begin(1));
    s := Then(s, Log(1));
    s := Then(s, Log(1));
    s := Then(s, Log(1));
  }
}
