/** The protocol of a death test on POSIX: a parent forks a child, the child may write one status
    byte into a pipe, and the parent tells from what it reads how the child's code concluded. */
module DeathTestProtocol {
  import opened Wrappers

  datatype Outcome = InProgress | Died | Lived | Returned | Threw

  datatype AbortReason = EncounteredReturn | ThrewException | DidNotDie

  function StatusByte(reason: AbortReason): char {
    match reason
    case DidNotDie => 'L'
    case ThrewException => 'T'
    case EncounteredReturn => 'R'
  }

  function OutcomeOf(reason: AbortReason): Outcome {
    match reason
    case DidNotDie => Lived
    case ThrewException => Threw
    case EncounteredReturn => Returned
  }

  const INTERNAL_ERROR := 'I'

  /** What one call of read(fd, &flag, 1) comes back with. */
  datatype ReadAnswer = Interrupted | Failed | EndOfFile | Got(flag: char)

  /** The outcome that an answer stands for; None where the parent logs a FATAL error and ends. */
  function Interpret(answer: ReadAnswer): Option<Outcome>
    requires answer != Interrupted
  {
    match answer
    case EndOfFile => Some(Died)
    case Got('R') => Some(Returned)
    case Got('T') => Some(Threw)
    case Got('L') => Some(Lived)
    case Got(_) => None
    case Failed => None
  }

  // ----- The parent's object -----------------------------------------------------------------------

  datatype TestRole = OverseeTest | ExecuteTest

  /** The calls into the kernel are answered by the parameters of the methods. `alive` turns false
      when the process ends. */
  class DeathTest {
    var spawned: bool
    var status: int
    var outcome: Outcome
    var readFd: int
    var writeFd: int
    var childPid: int
    var alive: bool

    constructor ()
      ensures !spawned && status == -1 && outcome == InProgress && alive
      ensures readFd == -1 && writeFd == -1 && childPid == -1
    {
      spawned, status, outcome, readFd, writeFd, childPid, alive := false, -1, InProgress, -1, -1, -1, true;
    }

    /** NoExecDeathTest: what fork returns decides the role. The descriptors that are closed are
        reported. */
    method AssumeRole(pipeFd: (int, int), forked: int) returns (role: TestRole, closed: int)
      requires forked >= 0
      modifies this
      ensures childPid == forked && outcome == old(outcome) && status == old(status) && alive == old(alive)
      ensures forked == 0 ==> role == ExecuteTest && closed == pipeFd.0
      ensures forked == 0 ==> writeFd == pipeFd.1 && readFd == old(readFd) && spawned == old(spawned)
      ensures forked > 0 ==> role == OverseeTest && closed == pipeFd.1
      ensures forked > 0 ==> readFd == pipeFd.0 && writeFd == old(writeFd) && spawned
    {
      childPid := forked;
      if forked == 0 {
        closed := pipeFd.0;
        writeFd := pipeFd.1;
        return ExecuteTest, closed;
      } else {
        closed := pipeFd.1;
        readFd := pipeFd.0;
        spawned := true;
        return OverseeTest, closed;
      }
    }

    /** `answers` are what the calls of read return, up to the first that is not interrupted. */
    method ReadAndInterpretStatusByte(answers: seq<ReadAnswer>)
      requires alive && AreReadAnswers(answers)
      modifies this
      ensures var last := answers[|answers| - 1];
              if Interpret(last).Some? then outcome == Interpret(last).value && readFd == -1 && alive
              else outcome == old(outcome) && readFd == old(readFd) && !alive
      ensures spawned == old(spawned) && writeFd == old(writeFd) && childPid == old(childPid) && status == old(status)
    {
      var calls := 0;
      var answer := answers[calls];
      while answer == Interrupted
        invariant 0 <= calls < |answers| && answer == answers[calls]
        decreases |answers| - calls
      {
        calls := calls + 1;
        answer := answers[calls];
      }
      match answer {
        case EndOfFile => outcome := Died;
        case Got(flag) =>
          if flag == 'R' {
            outcome := Returned;
          } else if flag == 'T' {
            outcome := Threw;
          } else if flag == 'L' {
            outcome := Lived;
          } else {
            alive := false;
          }
        case Failed => alive := false;
      }
      if alive {
        readFd := -1;
      }
    }

    /** `waitStatus` is what waitpid stores. */
    method Wait(answers: seq<ReadAnswer>, waitStatus: int) returns (r: int)
      requires alive && AreReadAnswers(answers)
      modifies this
      ensures !old(spawned) ==>
                r == 0 && outcome == old(outcome) && readFd == old(readFd) && status == old(status) && alive
      ensures old(spawned) ==>
                var concluded := Interpret(answers[|answers| - 1]);
                && alive == concluded.Some?
                && (alive ==> r == waitStatus && status == waitStatus && outcome == concluded.value && readFd == -1)
      ensures spawned == old(spawned) && writeFd == old(writeFd) && childPid == old(childPid)
    {
      if !spawned {
        return 0;
      }
      ReadAndInterpretStatusByte(answers);
      if !alive {
        return 0;
      }
      status := waitStatus;
      return waitStatus;
    }

    /** The verdict; None where the parent logs a FATAL error because the test has not concluded.
        `matched` tells whether the child's error output matches the expected pattern. */
    method Passed(statusOk: bool, matched: bool) returns (passed: Option<bool>)
      ensures !spawned ==> passed == Some(false)
      ensures spawned && outcome == InProgress ==> passed == None
      ensures spawned && outcome != InProgress ==> passed == Some(outcome == Died && statusOk && matched)
    {
      if !spawned {
        return Some(false);
      }
      var success := false;
      match outcome {
        case Lived =>
        case Threw =>
        case Returned =>
        case Died =>
          if statusOk {
            if matched {
              success := true;
            }
          }
        case InProgress => return None;
      }
      return Some(success);
    }
  }

  ghost predicate AreReadAnswers(answers: seq<ReadAnswer>) {
    && answers != [] && answers[|answers| - 1] != Interrupted
    && forall i :: 0 <= i < |answers| - 1 ==> answers[i] == Interrupted
  }

  // ----- The two processes and the pipe --------------------------------------------------------------

  /** A fast child is a plain fork; a thread-safe child runs the program again and reports its own
      failures through the pipe. */
  datatype Style = Fast | ThreadSafe

  /** The call that a process makes next. */
  datatype ParentPc =
    | CallPipe | CallFork | CallCloseWriteEnd | CallRead | CallCloseReadEnd | CallWaitPid | ParentDone | ParentDead

  datatype ChildPc =
    | Unborn
    | CallCloseInheritedReadEnd
    | RunStatement
    | CallWriteStatus(reason: AbortReason)
    | CallExit
    | ChildEnded

  datatype State = State(
    style: Style,
    parent: ParentPc,
    child: ChildPc,
    pipe: seq<char>,           // written and not yet read
    parentHasReadEnd: bool,
    parentHasWriteEnd: bool,
    childHasReadEnd: bool,
    childHasWriteEnd: bool,
    outcome: Outcome,          // the parent's outcome_
    readEndStored: bool,       // the parent's read_fd_ is not -1
    answers: seq<ReadAnswer>,  // what read has answered so far
    written: seq<char>,        // all that the child has written
    aborted: Option<AbortReason>,
    closes: nat                // how often the parent has closed its read end
  )

  ghost predicate Init(s: State) {
    s == State(s.style, CallPipe, Unborn, [], false, false, false, false, InProgress, false, [], [], None, 0)
  }

  datatype Step =
    | PipeStep | PipeFails
    | ForkStep | ForkFails
    | CloseWriteEndStep
    | ReadStep(answer: ReadAnswer)
    | CloseReadEndStep
    | WaitPidStep
    | CloseInheritedStep
    | StatementEnds(reason: AbortReason)
    | WriteStatusStep
    | WriteInterrupted
    | ReportsInternalError(message: seq<char>)
    | ExitStep
    | Dies

  /** What the kernel may answer to a read of one byte: data if there is some, end of file if
      every write end is closed, an interruption at any time. Without data and with a write end
      open the call blocks. */
  predicate MayAnswer(s: State, answer: ReadAnswer) {
    match answer
    case Interrupted => true
    case Got(flag) => s.pipe != [] && flag == s.pipe[0]
    case EndOfFile => s.pipe == [] && !s.parentHasWriteEnd && !s.childHasWriteEnd
    case Failed => false
  }

  predicate ChildIsAlive(s: State) {
    !s.child.Unborn? && !s.child.ChildEnded?
  }

  predicate Enabled(s: State, step: Step) {
    match step
    case PipeStep => s.parent == CallPipe
    case PipeFails => s.parent == CallPipe
    case ForkStep => s.parent == CallFork
    case ForkFails => s.parent == CallFork
    case CloseWriteEndStep => s.parent == CallCloseWriteEnd
    case ReadStep(answer) => s.parent == CallRead && MayAnswer(s, answer)
    case CloseReadEndStep => s.parent == CallCloseReadEnd
    case WaitPidStep => s.parent == CallWaitPid && s.child.ChildEnded?
    case CloseInheritedStep => s.child.CallCloseInheritedReadEnd?
    case StatementEnds(_) => s.child.RunStatement?
    case WriteStatusStep => s.child.CallWriteStatus?
    case WriteInterrupted => s.child.CallWriteStatus?
    case ReportsInternalError(_) =>
      s.style == ThreadSafe && (s.child.CallCloseInheritedReadEnd? || s.child.RunStatement?)
    case ExitStep => s.child.CallExit?
    case Dies => ChildIsAlive(s)
  }

  /** The end of a process closes its descriptors. */
  function EndChild(s: State): State {
    s.(child := ChildEnded, childHasReadEnd := false, childHasWriteEnd := false)
  }

  function EndParent(s: State): State {
    s.(parent := ParentDead, parentHasReadEnd := false, parentHasWriteEnd := false)
  }

  function Write(s: State, bytes: seq<char>): State {
    s.(pipe := s.pipe + bytes, written := s.written + bytes, child := CallExit)
  }

  function Apply(s: State, step: Step): State
    requires Enabled(s, step)
  {
    match step
    case PipeStep => s.(parent := CallFork, parentHasReadEnd := true, parentHasWriteEnd := true)
    case PipeFails => EndParent(s)
    case ForkStep =>
      s.(parent := CallCloseWriteEnd, child := CallCloseInheritedReadEnd, childHasReadEnd := true,
         childHasWriteEnd := true)
    case ForkFails => EndParent(s)
    case CloseWriteEndStep => s.(parent := CallRead, parentHasWriteEnd := false, readEndStored := true)
    case ReadStep(answer) =>
      var s1 := s.(answers := s.answers + [answer], pipe := if answer.Got? then s.pipe[1..] else s.pipe);
      if answer == Interrupted then s1
      else
        var concluded := Interpret(answer);
        if concluded.Some? then s1.(outcome := concluded.value, parent := CallCloseReadEnd) else EndParent(s1)
    case CloseReadEndStep =>
      s.(parent := CallWaitPid, parentHasReadEnd := false, readEndStored := false, closes := s.closes + 1)
    case WaitPidStep => s.(parent := ParentDone)
    case CloseInheritedStep => s.(child := RunStatement, childHasReadEnd := false)
    case StatementEnds(reason) => s.(child := CallWriteStatus(reason), aborted := Some(reason))
    case WriteStatusStep => Write(s, [StatusByte(s.child.reason)])
    case WriteInterrupted => s
    case ReportsInternalError(message) => Write(s, [INTERNAL_ERROR] + message)
    case ExitStep => EndChild(s)
    case Dies => EndChild(s)
  }

  /** A run of any length in which parent and child take their steps in any order. */
  ghost predicate IsRun(states: seq<State>, steps: seq<Step>) {
    && |states| == |steps| + 1
    && Init(states[0])
    && forall i :: 0 <= i < |steps| ==> Enabled(states[i], steps[i]) && states[i + 1] == Apply(states[i], steps[i])
  }

  // ----- The invariant -----------------------------------------------------------------------------

  predicate ParentHasForked(s: State) {
    s.parent in {CallCloseWriteEnd, CallRead, CallCloseReadEnd, CallWaitPid, ParentDone}
  }

  predicate ParentHasRead(s: State) {
    s.parent in {CallCloseReadEnd, CallWaitPid, ParentDone}
  }

  /** What the child has written tells how far it got. */
  predicate WrittenFits(s: State) {
    match s.child
    case Unborn => s.written == [] && s.aborted == None
    case CallCloseInheritedReadEnd => s.written == [] && s.aborted == None
    case RunStatement => s.written == [] && s.aborted == None
    case CallWriteStatus(reason) => s.written == [] && s.aborted == Some(reason)
    case CallExit => s.written != [] && WroteStatusOrError(s)
    case ChildEnded => s.written == [] || WroteStatusOrError(s)
  }

  predicate WroteStatusOrError(s: State)
  {
    || (s.aborted.Some? && s.written == [StatusByte(s.aborted.value)])
    || (s.aborted == None && s.style == ThreadSafe && s.written != [] && s.written[0] == INTERNAL_ERROR)
  }

  predicate EndsFit(s: State) {
    && (s.childHasWriteEnd <==> ChildIsAlive(s))
    && (s.child.Unborn? ==> !s.childHasReadEnd && s.parent in {CallPipe, CallFork, ParentDead})
    && (ParentHasForked(s) ==> !s.child.Unborn?)
    && (s.parent in {CallPipe, CallFork} ==> s.child.Unborn?)
    && (s.parentHasWriteEnd <==> s.parent in {CallFork, CallCloseWriteEnd})
    && (s.parentHasReadEnd <==> s.parent in {CallFork, CallCloseWriteEnd, CallRead, CallCloseReadEnd})
  }

  /** The parent's object as the state of the pipe has it. */
  predicate ObjectFits(s: State) {
    && (s.parent != ParentDead ==> (s.readEndStored <==> s.parent in {CallRead, CallCloseReadEnd}))
    && s.closes == (if s.parent in {CallWaitPid, ParentDone} then 1 else 0)
    && (ParentHasRead(s) ==> AnswersConclude(s))
    && (!ParentHasRead(s) ==> s.outcome == InProgress)
    && (s.parent in {CallPipe, CallFork, CallCloseWriteEnd} ==> s.answers == [])
  }

  predicate AnswersConclude(s: State) {
    && s.answers != [] && s.answers[|s.answers| - 1] != Interrupted
    && (forall i :: 0 <= i < |s.answers| - 1 ==> s.answers[i] == Interrupted)
    && Interpret(s.answers[|s.answers| - 1]) == Some(s.outcome)
  }

  /** Before the status is read all that was written is in the pipe; afterwards the outcome tells
      what was read. */
  predicate PipeFits(s: State) {
    if s.parent == ParentDead then
      s.answers != [] ==>
        s.style == ThreadSafe && s.aborted == None && s.written != [] && s.written[0] == INTERNAL_ERROR
    else if ParentHasRead(s) then
      if s.outcome == Died then s.child.ChildEnded? && s.written == []
      else s.written != [] && s.answers != [] && s.answers[|s.answers| - 1] == Got(s.written[0])
    else
      && s.pipe == s.written
      && (forall i :: 0 <= i < |s.answers| ==> s.answers[i] == Interrupted)
  }

  predicate Invariant(s: State) {
    WrittenFits(s) && EndsFit(s) && ObjectFits(s) && PipeFits(s)
  }

  predicate IsChildStep(step: Step) {
    step.CloseInheritedStep? || step.StatementEnds? || step.WriteStatusStep? || step.WriteInterrupted?
    || step.ReportsInternalError? || step.ExitStep? || step.Dies?
  }

  lemma ChildKeepsInvariant(s: State, step: Step)
    requires Invariant(s) && Enabled(s, step) && IsChildStep(step)
    ensures Invariant(Apply(s, step))
  {
  }

  lemma ReadKeepsInvariant(s: State, step: Step)
    requires Invariant(s) && Enabled(s, step) && step.ReadStep?
    ensures Invariant(Apply(s, step))
  {
  }

  lemma InvariantIsKept(s: State, step: Step)
    requires Invariant(s) && Enabled(s, step)
    ensures Invariant(Apply(s, step))
  {
    if IsChildStep(step) {
      ChildKeepsInvariant(s, step);
    } else if step.ReadStep? {
      ReadKeepsInvariant(s, step);
    }
  }

  lemma {:induction false} InvariantOfRun(states: seq<State>, steps: seq<Step>, k: nat)
    requires IsRun(states, steps) && k < |states|
    ensures Invariant(states[k]) && states[k].style == states[0].style
  {
    if k > 0 {
      InvariantOfRun(states, steps, k - 1);
      assert states[k - 1 + 1] == Apply(states[k - 1], steps[k - 1]);
      InvariantIsKept(states[k - 1], steps[k - 1]);
    }
  }

  // ----- Safety over all runs ---------------------------------------------------------------------

  /** Whenever the parent has read, it has concluded `Died` exactly when the child has ended without
      writing, and each other outcome exactly when the child has written the byte for it, which
      only an Abort with that reason writes. */
  lemma OutcomeIsExact(states: seq<State>, steps: seq<Step>, k: nat)
    requires IsRun(states, steps) && k < |states| && ParentHasRead(states[k])
    ensures var s := states[k];
            s.outcome == Died <==> s.child.ChildEnded? && s.written == []
    ensures var s := states[k];
            forall reason: AbortReason :: s.outcome == OutcomeOf(reason) <==> s.written == [StatusByte(reason)]
    ensures var s := states[k];
            forall reason: AbortReason ::
              s.outcome == OutcomeOf(reason) <==> s.aborted == Some(reason) && s.written != []
    ensures states[k].outcome != InProgress
  {
    InvariantOfRun(states, steps, k);
  }

  /** What the parent's object makes of the kernel's answers is the outcome of the protocol. */
  lemma ObjectFollowsProtocol(states: seq<State>, steps: seq<Step>, k: nat)
    requires IsRun(states, steps) && k < |states| && ParentHasRead(states[k])
    ensures var answers := states[k].answers;
            AreReadAnswers(answers) && Interpret(answers[|answers| - 1]) == Some(states[k].outcome)
  {
    InvariantOfRun(states, steps, k);
  }

  /** The read end is closed once, and only once the parent has concluded; afterwards the object
      does not hold it any more. */
  lemma ReadEndIsClosedOnce(states: seq<State>, steps: seq<Step>, k: nat)
    requires IsRun(states, steps) && k < |states| && states[k].parent in {CallWaitPid, ParentDone}
    ensures states[k].closes == 1 && !states[k].readEndStored && !states[k].parentHasReadEnd
  {
    InvariantOfRun(states, steps, k);
  }

  /** Once it has started to read, the parent dies only of an error that a thread-safe child
      reported instead of running the statement to its end. */
  lemma ParentDiesOfReports(states: seq<State>, steps: seq<Step>, k: nat)
    requires IsRun(states, steps) && k < |states|
    requires states[k].parent == ParentDead && states[k].answers != []
    ensures var s := states[k];
            s.style == ThreadSafe && s.aborted == None && s.written != [] && s.written[0] == INTERNAL_ERROR
  {
    InvariantOfRun(states, steps, k);
  }

  lemma Extend(states: seq<State>, steps: seq<Step>, step: Step) returns (longer: seq<State>)
    requires IsRun(states, steps) && Enabled(states[|steps|], step)
    ensures IsRun(longer, steps + [step]) && longer[|steps| + 1] == Apply(states[|steps|], step)
  {
    longer := states + [Apply(states[|steps|], step)];
  }

  /** A run in which the parent waits in read and the child enters Abort. */
  lemma EntersAbort(style: Style, reason: AbortReason) returns (states: seq<State>, steps: seq<Step>)
    ensures IsRun(states, steps)
    ensures var s := states[|steps|];
            s.parent == CallRead && s.child == CallWriteStatus(reason) && s.aborted == Some(reason) && s.pipe == []
            && !s.parentHasWriteEnd
  {
    steps := [];
    states := [State(style, CallPipe, Unborn, [], false, false, false, false, InProgress, false, [], [], None, 0)];
    states := Extend(states, steps, PipeStep);
    steps := steps + [PipeStep];
    states := Extend(states, steps, ForkStep);
    steps := steps + [ForkStep];
    states := Extend(states, steps, CloseWriteEndStep);
    steps := steps + [CloseWriteEndStep];
    states := Extend(states, steps, CloseInheritedStep);
    steps := steps + [CloseInheritedStep];
    states := Extend(states, steps, StatementEnds(reason));
    steps := steps + [StatementEnds(reason)];
  }

  /** The outcome tells what was written, not what was called: a child killed between entering
      Abort and writing counts as dead. */
  lemma KilledInsideAbort(style: Style, reason: AbortReason) returns (states: seq<State>, steps: seq<Step>)
    ensures IsRun(states, steps)
    ensures var s := states[|steps|]; s.outcome == Died && s.aborted == Some(reason)
  {
    states, steps := EntersAbort(style, reason);
    states := Extend(states, steps, Dies);
    steps := steps + [Dies];
    states := Extend(states, steps, ReadStep(EndOfFile));
    steps := steps + [ReadStep(EndOfFile)];
  }

  // ----- Progress ------------------------------------------------------------------------------------

  predicate IsInterruption(step: Step) {
    step == ReadStep(Interrupted) || step == WriteInterrupted
  }

  /** Once the child has ended, the parent's read does not block: its own write end is closed. */
  lemma ReadDoesNotBlock(states: seq<State>, steps: seq<Step>, k: nat)
    requires IsRun(states, steps) && k < |states|
    requires states[k].parent == CallRead && states[k].child == ChildEnded
    ensures exists answer :: answer != Interrupted && MayAnswer(states[k], answer)
  {
    InvariantOfRun(states, steps, k);
    var s := states[k];
    if s.pipe == [] {
      assert MayAnswer(s, EndOfFile);
    } else {
      assert MayAnswer(s, Got(s.pipe[0]));
    }
  }

  /** A step that some process can take as long as the parent is not through. No process has to
      be killed for it. */
  function SomeStep(s: State): Step
    requires s.parent != ParentDone && s.parent != ParentDead
  {
    match s.parent
    case CallPipe => PipeStep
    case CallFork => ForkStep
    case CallCloseWriteEnd => CloseWriteEndStep
    case CallCloseReadEnd => CloseReadEndStep
    case CallRead =>
      if s.pipe != [] then ReadStep(Got(s.pipe[0]))
      else if s.child == ChildEnded then ReadStep(EndOfFile)
      else ChildStep(s)
    case _ => if s.child == ChildEnded then WaitPidStep else ChildStep(s)
  }

  function ChildStep(s: State): Step {
    match s.child
    case CallCloseInheritedReadEnd => CloseInheritedStep
    case RunStatement => StatementEnds(DidNotDie)
    case CallWriteStatus(_) => WriteStatusStep
    case _ => ExitStep
  }

  lemma NoDeadlock(states: seq<State>, steps: seq<Step>, k: nat)
    requires IsRun(states, steps) && k < |states| && states[k].parent != ParentDone && states[k].parent != ParentDead
    ensures exists step :: Enabled(states[k], step) && !IsInterruption(step) && step != Dies
  {
    InvariantOfRun(states, steps, k);
    var step := SomeStep(states[k]);
    assert Enabled(states[k], step) && !IsInterruption(step) && step != Dies;
  }

  /** How many calls are left to make. */
  function Rank(s: State): nat {
    ParentRank(s.parent) + ChildRank(s.child)
  }

  function ParentRank(pc: ParentPc): nat {
    match pc
    case CallPipe => 6
    case CallFork => 5
    case CallCloseWriteEnd => 4
    case CallRead => 3
    case CallCloseReadEnd => 2
    case CallWaitPid => 1
    case _ => 0
  }

  function ChildRank(pc: ChildPc): nat {
    match pc
    case ChildEnded => 0
    case CallExit => 1
    case CallWriteStatus(_) => 2
    case RunStatement => 3
    case _ => 4
  }

  function CountCompleted(steps: seq<Step>): nat {
    if steps == [] then 0
    else CountCompleted(steps[..|steps| - 1]) + if IsInterruption(steps[|steps| - 1]) then 0 else 1
  }

  lemma StepLowersRank(s: State, step: Step)
    requires Invariant(s) && Enabled(s, step)
    ensures Rank(Apply(s, step)) + (if IsInterruption(step) then 0 else 1) <= Rank(s)
  {
  }

  /** Apart from interrupted calls, no run is longer than ten steps. */
  lemma {:induction false} RunsAreShort(states: seq<State>, steps: seq<Step>)
    requires IsRun(states, steps)
    ensures CountCompleted(steps) + Rank(states[|steps|]) <= 10
    decreases |steps|
  {
    if steps != [] {
      var n := |steps| - 1;
      RunPrefix(states, steps, n);
      RunsAreShort(states[..n + 1], steps[..n]);
      InvariantOfRun(states, steps, n);
      StepLowersRank(states[n], steps[n]);
    }
  }

  lemma RunPrefix(states: seq<State>, steps: seq<Step>, n: nat)
    requires IsRun(states, steps) && n < |steps|
    ensures IsRun(states[..n + 1], steps[..n])
    ensures Enabled(states[n], steps[n]) && states[n + 1] == Apply(states[n], steps[n])
  {
  }
}
