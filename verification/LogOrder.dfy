/**
 The order of buffered log lines: what Start writes to the file is what the Log
 calls appended since the buffer was last cleared, in the order they appended it.
 And the file, by the steps that open and close it.
 */
module LogOrder {
  import opened LogStartup

  ghost predicate Aligned(run: seq<State>, steps: seq<Step>, k: nat) {
    |run| == |steps| + 1 && k <= |steps|
  }

  /** The lines appended to the buffer in the first `k` steps, in order. */
  ghost function Appended(run: seq<State>, steps: seq<Step>, k: nat): seq<Line>
    requires Aligned(run, steps, k)
  {
    if k == 0 then [] else Appended(run, steps, k - 1) + AppendedBy(run[k - 1], steps[k - 1])
  }

  function AppendedBy(s: State, step: Step): seq<Line> {
    if step.Log? && step.line in s.calls && s.calls[step.line].pc.Append? then [step.line] else []
  }

  /** The lines Close cleared from the buffer. */
  ghost function Cleared(run: seq<State>, steps: seq<Step>, k: nat): seq<Line>
    requires Aligned(run, steps, k)
  {
    if k == 0 then [] else Cleared(run, steps, k - 1) + ClearedBy(run[k - 1], steps[k - 1])
  }

  function ClearedBy(s: State, step: Step): seq<Line> {
    if step.CloseStep? && s.close.Clear? then s.pending else []
  }

  /** The lines Start handed to the file. */
  ghost function Flushed(run: seq<State>, steps: seq<Step>, k: nat): seq<Line>
    requires Aligned(run, steps, k)
  {
    if k == 0 then [] else Flushed(run, steps, k - 1) + FlushedBy(run[k - 1], steps[k - 1])
  }

  function FlushedBy(s: State, step: Step): seq<Line> {
    if step.StartStep? && s.start.Flush? && s.flushing != [] then [s.flushing[0]] else []
  }

  /** Start has not taken the buffer. */
  predicate BeforeTake(s: State) {
    s.start.OpenFile? || s.start.StartLock? || s.start.Take?
  }

  /** The buffer has passed through, and nothing was flushed before Start took it. */
  ghost predicate InOrder(s: State, appended: seq<Line>, cleared: seq<Line>, flushed: seq<Line>) {
    && appended == cleared + flushed + s.flushing + s.pending
    && (BeforeTake(s) ==> flushed == [] && s.flushing == [])
    && (s.pending != [] ==> BeforeTake(s))
  }

  /**
   What a step does to the buffer: Start takes it, or lines are added at its end,
   cleared, or flushed from the front.
   */
  ghost predicate Passes(s: State, s': State, added: seq<Line>, cleared: seq<Line>, flushed: seq<Line>) {
    if BeforeTake(s) && !BeforeTake(s') then
      s'.flushing == s.pending && s'.pending == added == cleared == flushed == []
    else
      && (BeforeTake(s') <==> BeforeTake(s))
      && s.flushing == flushed + s'.flushing && cleared + s'.pending == s.pending + added
      && (added != [] || cleared != [] ==> BeforeTake(s)) && (added == [] || cleared == [])
  }

  lemma LogPasses(s: State, l: Line)
    requires Enabled(s, Log(l)) && LineOk(s, l) && (!BeforeTake(s) ==> s.started)
    ensures Passes(s, Apply(s, Log(l)), AppendedBy(s, Log(l)), [], [])
  {
    LogEffect(s, l);
  }

  lemma StartPasses(s: State)
    requires Enabled(s, StartStep) && (s.start.Take? ==> s.flushing == [])
    ensures Passes(s, Apply(s, StartStep), [], [], FlushedBy(s, StartStep))
  {
    StartEffect(s);
    if s.start.Flush? && s.flushing != [] { assert s.flushing == [s.flushing[0]] + s.flushing[1..]; }
  }

  lemma ClosePasses(s: State)
    requires Enabled(s, CloseStep) && (!BeforeTake(s) ==> s.pending == [])
    ensures Passes(s, Apply(s, CloseStep), [], ClearedBy(s, CloseStep), [])
  {
    CloseEffect(s);
  }

  lemma BeginPasses(s: State, l: Line)
    requires Enabled(s, Begin(l))
    ensures Passes(s, Apply(s, Begin(l)), [], [], [])
  {
  }

  lemma StepPasses(s: State, step: Step)
    requires Enabled(s, step) && (step.Log? ==> LineOk(s, step.line))
    requires (!BeforeTake(s) ==> s.started && s.pending == []) && (s.start.Take? ==> s.flushing == [])
    ensures Passes(s, Apply(s, step), AppendedBy(s, step), ClearedBy(s, step), FlushedBy(s, step))
  {
    match step
    case Begin(l) => BeginPasses(s, l);
    case Log(l) => LogPasses(s, l);
    case StartStep => StartPasses(s);
    case CloseStep => ClosePasses(s);
  }

  lemma PassesInOrder(s: State, s': State, appended: seq<Line>, cleared: seq<Line>, flushed: seq<Line>,
                      added: seq<Line>, removed: seq<Line>, written: seq<Line>)
    requires InOrder(s, appended, cleared, flushed) && Passes(s, s', added, removed, written)
    ensures InOrder(s', appended + added, cleared + removed, flushed + written)
  {
    if BeforeTake(s) {
      assert appended + added == cleared + (s.pending + added);
    }
  }

  lemma {:induction false} RunInOrder(run: seq<State>, steps: seq<Step>, k: nat)
    requires IsRun(run, steps) && k < |run|
    ensures InOrder(run[k], Appended(run, steps, k), Cleared(run, steps, k), Flushed(run, steps, k))
  {
    if k > 0 {
      RunInOrder(run, steps, k - 1);
      RunKeepsInv(run, steps, k - 1);
      assert Enabled(run[k - 1], steps[k - 1]) && run[k] == Apply(run[k - 1], steps[k - 1]);
      if steps[k - 1].Log? { assert LineOk(run[k - 1], steps[k - 1].line); }
      StepPasses(run[k - 1], steps[k - 1]);
      PassesInOrder(run[k - 1], run[k], Appended(run, steps, k - 1), Cleared(run, steps, k - 1),
                    Flushed(run, steps, k - 1), AppendedBy(run[k - 1], steps[k - 1]),
                    ClearedBy(run[k - 1], steps[k - 1]), FlushedBy(run[k - 1], steps[k - 1]));
    }
  }

  /**
   At every moment the lines appended are, in order, those cleared, those written
   by Start, those it still has to write and those still buffered; when Start is
   done and no line was cleared, it has written all of them in the order of the
   Log calls.
   */
  lemma FlushKeepsOrder(run: seq<State>, steps: seq<Step>, k: nat)
    requires IsRun(run, steps) && k < |run|
    ensures Appended(run, steps, k) ==
              Cleared(run, steps, k) + Flushed(run, steps, k) + run[k].flushing + run[k].pending
    ensures run[k].start.StartDone? ==> Appended(run, steps, k) == Cleared(run, steps, k) + Flushed(run, steps, k)
    ensures run[k].start.StartDone? && Cleared(run, steps, k) == [] ==>
              Flushed(run, steps, k) == Appended(run, steps, k)
  {
    RunInOrder(run, steps, k);
    RunKeepsInv(run, steps, k);
  }

  // ---- the file ----

  predicate Opens(s: State, step: Step) {
    step.StartStep? && s.start.OpenFile?
  }

  predicate ClosesFile(s: State, step: Step) {
    step.CloseStep? && s.close.CloseFile?
  }

  ghost predicate WasOpened(run: seq<State>, steps: seq<Step>, k: nat)
    requires Aligned(run, steps, k)
  {
    exists j :: 0 <= j < k && Opens(run[j], steps[j])
  }

  /** Close came upon the file after Start had opened it. */
  ghost predicate WasShut(run: seq<State>, steps: seq<Step>, k: nat)
    requires Aligned(run, steps, k)
  {
    exists j :: 0 <= j < k && ClosesFile(run[j], steps[j]) && WasOpened(run, steps, j)
  }

  predicate FileMoves(s: State, step: Step, s': State) {
    && s'.hasPath == s.hasPath
    && s'.logFile == (if Opens(s, step) && s.hasPath then Opened
                      else if ClosesFile(s, step) && s.logFile.Opened? then Shut
                      else s.logFile)
    && (s'.start.OpenFile? <==> s.start.OpenFile? && !Opens(s, step))
  }

  lemma StepMovesFile(s: State, step: Step)
    requires Enabled(s, step)
    ensures FileMoves(s, step, Apply(s, step))
  {
  }

  predicate FileIs(s: State, wasOpened: bool, shut: bool) {
    && (!s.logFile.NotOpened? <==> s.hasPath && wasOpened)
    && (s.logFile.Shut? <==> s.hasPath && shut)
    && (s.start.OpenFile? <==> !wasOpened) && (shut ==> wasOpened)
  }

  lemma FileNext(s: State, step: Step, s': State, wasOpened: bool, shut: bool)
    requires FileIs(s, wasOpened, shut) && FileMoves(s, step, s')
    ensures FileIs(s', wasOpened || Opens(s, step), shut || (ClosesFile(s, step) && wasOpened))
  {
  }

  lemma OpenedGrows(run: seq<State>, steps: seq<Step>, k: nat)
    requires Aligned(run, steps, k + 1)
    ensures WasOpened(run, steps, k + 1) <==> WasOpened(run, steps, k) || Opens(run[k], steps[k])
    ensures WasShut(run, steps, k + 1) <==>
              WasShut(run, steps, k) || (ClosesFile(run[k], steps[k]) && WasOpened(run, steps, k))
  {
  }

  lemma {:induction false} FileChain(run: seq<State>, steps: seq<Step>, k: nat)
    requires Aligned(run, steps, k) && FileIs(run[0], false, false)
    requires forall i :: 0 <= i < |steps| ==> FileMoves(run[i], steps[i], run[i + 1])
    ensures run[k].hasPath == run[0].hasPath && FileIs(run[k], WasOpened(run, steps, k), WasShut(run, steps, k))
  {
    if k > 0 {
      FileChain(run, steps, k - 1);
      assert FileMoves(run[k - 1], steps[k - 1], run[k - 1 + 1]);
      OpenedGrows(run, steps, k - 1);
      FileNext(run[k - 1], steps[k - 1], run[k], WasOpened(run, steps, k - 1), WasShut(run, steps, k - 1));
    }
  }

  /** A file is open or shut iff there is a path and Start has opened it, and shut iff Close came upon it after that. */
  lemma FileByItsSteps(run: seq<State>, steps: seq<Step>, k: nat)
    requires IsRun(run, steps) && k < |run|
    ensures run[k].hasPath == run[0].hasPath
    ensures !run[k].logFile.NotOpened? <==> run[0].hasPath && WasOpened(run, steps, k)
    ensures run[k].logFile.Shut? <==> run[0].hasPath && WasShut(run, steps, k)
  {
    forall i | 0 <= i < |steps| ensures FileMoves(run[i], steps[i], run[i + 1]) { StepMovesFile(run[i], steps[i]); }
    FileChain(run, steps, k);
  }

  /**
   A line is written in vain iff the factory has a file path and the line is
   handed to the file after Close closed it, which is after Start opened it.
   */
  lemma LateByTheSteps(run: seq<State>, steps: seq<Step>, k: nat, l: Line)
    requires IsRun(run, steps) && k <= |steps|
    ensures WasWrittenLate(run, steps, k, l) <==>
              run[0].hasPath && exists j :: 0 <= j < k && Writes(run[j], steps[j], l) && WasShut(run, steps, j)
  {
    forall j | 0 <= j < k ensures run[j].logFile.Shut? <==> run[0].hasPath && WasShut(run, steps, j) {
      FileByItsSteps(run, steps, j);
    }
  }
}
