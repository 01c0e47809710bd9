/**
 ProcessGroup as a protocol: callers of Add, Close and Wait and the goroutines of the accepted
 functions interleave at the granularity of the critical sections and channel operations.
 */
module ProcessGroups {
  import opened Results

  type Error = string

  /** The error of a function, with the name it was added under. */
  datatype Failure = Failure(name: string, error: Error)

  /** A goroutine: in its function, then holding the result, then past the error record, then past wg.Done. */
  datatype Phase = Busy | Returned | Recorded | Finished

  datatype Task = Task(name: string, phase: Phase, error: Option<Error>)

  /** A caller of Wait: before the channel, before the counter, before reading the error, returned. */
  datatype Waiter = AtChannel | AtCounter | AtError | Gone(result: Option<Failure>)

  datatype State = State(
    closed: bool,
    channelClosed: bool,
    counter: int,
    firstErr: Option<Failure>,
    tasks: seq<Task>,
    waiters: seq<Waiter>,
    // callers of Close that found the group open and still have to close the channel
    closers: nat)

  const INITIAL := State(false, false, 0, None, [], [], 0)

  datatype Step =
    | Add(name: string)
    | CloseSection
    | CloseChannel
    | Return(task: nat, error: Option<Error>)
    | Record(task: nat)
    | Done(task: nat)
    | Wait
    | PassChannel(waiter: nat)
    | PassCounter(waiter: nat)
    | ReadError(waiter: nat)

  predicate InPhase(s: State, i: nat, p: Phase) {
    i < |s.tasks| && s.tasks[i].phase == p
  }

  predicate IsAt(s: State, w: nat, p: Waiter) {
    w < |s.waiters| && s.waiters[w] == p
  }

  predicate Enabled(s: State, step: Step) {
    match step
    case Add(_) => true
    case CloseSection => true
    case CloseChannel => s.closers > 0
    case Return(i, _) => InPhase(s, i, Busy)
    case Record(i) => InPhase(s, i, Returned) && s.tasks[i].error.Some?
    case Done(i) => InPhase(s, i, Recorded) || (InPhase(s, i, Returned) && s.tasks[i].error.None?)
    case Wait => true
    case PassChannel(w) => IsAt(s, w, AtChannel) && s.channelClosed
    case PassCounter(w) => IsAt(s, w, AtCounter) && s.counter == 0
    case ReadError(w) => IsAt(s, w, AtError)
  }

  function SetPhase(s: State, i: nat, p: Phase): State
    requires i < |s.tasks|
  {
    s.(tasks := s.tasks[i := s.tasks[i].(phase := p)])
  }

  function SetWaiter(s: State, w: nat, p: Waiter): State
    requires w < |s.waiters|
  {
    s.(waiters := s.waiters[w := p])
  }

  /** An Add on a closed group is rejected and changes nothing. */
  function Next(s: State, step: Step): State
    requires Enabled(s, step)
  {
    match step
    case Add(name) =>
      if s.closed then s
      else s.(counter := s.counter + 1, tasks := s.tasks + [Task(name, Busy, None)])
    case CloseSection => s.(closed := true, closers := if s.closed then s.closers else s.closers + 1)
    case CloseChannel => s.(channelClosed := true, closers := s.closers - 1)
    case Return(i, error) => s.(tasks := s.tasks[i := s.tasks[i].(phase := Returned, error := error)])
    case Record(i) =>
      var failure := Failure(s.tasks[i].name, s.tasks[i].error.value);
      SetPhase(s, i, Recorded).(firstErr := if s.firstErr.None? then Some(failure) else s.firstErr)
    case Done(i) => SetPhase(s, i, Finished).(counter := s.counter - 1)
    case Wait => s.(waiters := s.waiters + [AtChannel])
    case PassChannel(w) => SetWaiter(s, w, AtCounter)
    case PassCounter(w) => SetWaiter(s, w, AtError)
    case ReadError(w) => SetWaiter(s, w, Gone(s.firstErr))
  }

  /** The state after a run, when every step of it was enabled. */
  function Run(s: State, steps: seq<Step>): Option<State>
    decreases |steps|
  {
    if steps == [] then Some(s)
    else if Enabled(s, steps[0]) then Run(Next(s, steps[0]), steps[1..])
    else None
  }

  // --------------------------------------------------------------- invariant

  function Unfinished(tasks: seq<Task>): nat {
    if tasks == [] then 0
    else Unfinished(tasks[..|tasks| - 1]) + if tasks[|tasks| - 1].phase == Finished then 0 else 1
  }

  predicate Failed(t: Task) {
    t.error.Some? && (t.phase == Recorded || t.phase == Finished)
  }

  ghost predicate CausedBy(s: State, f: Failure) {
    exists i :: 0 <= i < |s.tasks| && Failed(s.tasks[i]) && f == Failure(s.tasks[i].name, s.tasks[i].error.value)
  }

  ghost predicate AllFinished(s: State) {
    forall i :: 0 <= i < |s.tasks| ==> s.tasks[i].phase == Finished
  }

  ghost predicate Invariant(s: State) {
    // the channel is closed at most once, by the caller that closed the group
    && s.closers + (if s.channelClosed then 1 else 0) == (if s.closed then 1 else 0)
    && s.counter == Unfinished(s.tasks)
    && (forall i :: 0 <= i < |s.tasks| && s.tasks[i].phase == Busy ==> s.tasks[i].error.None?)
    && (forall i :: 0 <= i < |s.tasks| && Failed(s.tasks[i]) ==> s.firstErr.Some?)
    && (s.firstErr.Some? ==> CausedBy(s, s.firstErr.value))
    && (forall w :: 0 <= w < |s.waiters| && s.waiters[w] != AtChannel ==> s.channelClosed)
    && (forall w :: 0 <= w < |s.waiters| && (s.waiters[w] == AtError || s.waiters[w].Gone?) ==> AllFinished(s))
    && (forall w :: 0 <= w < |s.waiters| && s.waiters[w].Gone? ==> s.waiters[w].result == s.firstErr)
  }

  lemma {:induction false} UnfinishedUpdate(tasks: seq<Task>, i: nat, t: Task)
    requires i < |tasks|
    ensures Unfinished(tasks[i := t]) ==
            Unfinished(tasks) - (if tasks[i].phase == Finished then 0 else 1) + (if t.phase == Finished then 0 else 1)
  {
    var n := |tasks| - 1;
    if i < n {
      UnfinishedUpdate(tasks[..n], i, t);
      assert tasks[i := t][..n] == tasks[..n][i := t];
    } else {
      assert tasks[i := t][..n] == tasks[..n];
    }
  }

  lemma {:induction false} UnfinishedZero(tasks: seq<Task>)
    ensures Unfinished(tasks) == 0 <==> forall i :: 0 <= i < |tasks| ==> tasks[i].phase == Finished
  {
    if tasks != [] {
      UnfinishedZero(tasks[..|tasks| - 1]);
    }
  }

  lemma CauseKept(s: State, s': State, f: Failure)
    requires CausedBy(s, f) && |s.tasks| <= |s'.tasks|
    requires forall i :: 0 <= i < |s.tasks| && Failed(s.tasks[i]) ==>
      Failed(s'.tasks[i]) && s'.tasks[i].name == s.tasks[i].name && s'.tasks[i].error == s.tasks[i].error
    ensures CausedBy(s', f)
  {
  }

  lemma AddKeeps(s: State, step: Step)
    requires Invariant(s) && Enabled(s, step) && step.Add?
    ensures Invariant(Next(s, step))
  {
  }

  lemma TaskStepKeeps(s: State, step: Step)
    requires Invariant(s) && Enabled(s, step) && (step.Return? || step.Record? || step.Done?)
    ensures Invariant(Next(s, step))
  {
    var s' := Next(s, step);
    UnfinishedUpdate(s.tasks, step.task, s'.tasks[step.task]);
    if s.firstErr.Some? {
      CauseKept(s, s', s.firstErr.value);
    } else if step.Record? {
      assert Failed(s'.tasks[step.task]);
    }
  }

  lemma GroupStepKeeps(s: State, step: Step)
    requires Invariant(s) && Enabled(s, step) && !(step.Add? || step.Return? || step.Record? || step.Done?)
    ensures Invariant(Next(s, step))
  {
    var s' := Next(s, step);
    UnfinishedZero(s.tasks);
    if s.firstErr.Some? {
      CauseKept(s, s', s.firstErr.value);
    }
  }

  lemma StepKeeps(s: State, step: Step)
    requires Invariant(s) && Enabled(s, step)
    ensures Invariant(Next(s, step))
  {
    if step.Add? {
      AddKeeps(s, step);
    } else if step.Return? || step.Record? || step.Done? {
      TaskStepKeeps(s, step);
    } else {
      GroupStepKeeps(s, step);
    }
  }

  lemma {:induction false} RunKeeps(s: State, steps: seq<Step>)
    requires Invariant(s) && Run(s, steps).Some?
    ensures Invariant(Run(s, steps).value)
    decreases |steps|
  {
    if steps != [] {
      StepKeeps(s, steps[0]);
      RunKeeps(Next(s, steps[0]), steps[1..]);
    }
  }

  // -------------------------------------------------------------- properties

  /** Once closed: no task is added, and what each returned waiter was told stays the final word. */
  lemma {:induction false} ClosedForGood(s: State, steps: seq<Step>)
    requires s.closed && Run(s, steps).Some?
    ensures var s' := Run(s, steps).value;
      s'.closed && |s'.tasks| == |s.tasks| && |s.waiters| <= |s'.waiters|
      && forall w :: 0 <= w < |s.waiters| && s.waiters[w].Gone? ==> s'.waiters[w] == s.waiters[w]
    decreases |steps|
  {
    if steps != [] {
      ClosedForGood(Next(s, steps[0]), steps[1..]);
    }
  }

  /**
   Over every interleaving, when a Wait has returned: the group is closed, every accepted function has
   returned, the result is nil exactly when all of them returned nil and otherwise is one of their errors,
   and whatever happens afterwards nothing more is accepted.
   */
  lemma WaitReturnsLast(steps: seq<Step>, later: seq<Step>, w: nat)
    requires Run(INITIAL, steps).Some?
    requires var s := Run(INITIAL, steps).value; w < |s.waiters| && s.waiters[w].Gone? && Run(s, later).Some?
    ensures var s := Run(INITIAL, steps).value;
      && s.closed && AllFinished(s)
      && (s.waiters[w].result.None? <==> forall i :: 0 <= i < |s.tasks| ==> s.tasks[i].error.None?)
      && (s.waiters[w].result.Some? ==> CausedBy(s, s.waiters[w].result.value))
      && |Run(s, later).value.tasks| == |s.tasks|
  {
    RunKeeps(INITIAL, steps);
    var s := Run(INITIAL, steps).value;
    ClosedForGood(s, later);
    if s.waiters[w].result.Some? {
      var i :| 0 <= i < |s.tasks| && Failed(s.tasks[i]);
    } else {
      forall i | 0 <= i < |s.tasks| ensures s.tasks[i].error.None? {
        assert !Failed(s.tasks[i]);
      }
    }
  }

  /** The counter is never raised from zero while a waiter is at it, and never drops below zero. */
  lemma CounterIsSafe(steps: seq<Step>, name: string)
    requires Run(INITIAL, steps).Some?
    ensures var s := Run(INITIAL, steps).value;
      && s.counter >= 0
      && ((exists w :: 0 <= w < |s.waiters| && s.waiters[w] != AtChannel) ==> Next(s, Add(name)) == s)
  {
    RunKeeps(INITIAL, steps);
  }

  /** The channel is closed only once: after it has been closed no caller of Close is left to close it again. */
  lemma ChannelClosedOnce(steps: seq<Step>)
    requires Run(INITIAL, steps).Some?
    ensures var s := Run(INITIAL, steps).value; s.channelClosed ==> !Enabled(s, CloseChannel)
  {
    RunKeeps(INITIAL, steps);
  }

  // --------------------------------------------------------------- the group

  class ProcessGroup {
    var closed: bool
    var channelClosed: bool
    var counter: int
    var firstErr: Option<Failure>
    ghost var tasks: seq<Task>
    ghost var waiters: seq<Waiter>
    ghost var closers: nat

    ghost function View(): State
      reads this
    {
      State(closed, channelClosed, counter, firstErr, tasks, waiters, closers)
    }

    constructor ()
      ensures View() == INITIAL
    {
      closed, channelClosed, counter, firstErr, tasks, waiters, closers := false, false, 0, None, [], [], 0;
    }

    /** The critical section of Add. */
    method AddSection(name: string) returns (accepted: bool)
      modifies this
      ensures View() == Next(old(View()), Add(name))
      ensures accepted <==> !old(closed)
    {
      if closed {
        return false;
      }
      counter := counter + 1;
      tasks := tasks + [Task(name, Busy, None)];
      return true;
    }

    /** The critical section of Close; the caller closes the channel next when the group was open. */
    method CloseSection() returns (already: bool)
      modifies this
      ensures View() == Next(old(View()), Step.CloseSection)
      ensures already == old(closed)
    {
      already := closed;
      closed := true;
      if !already {
        closers := closers + 1;
      }
    }

    method CloseChannel()
      requires Enabled(View(), Step.CloseChannel)
      modifies this
      ensures View() == Next(old(View()), Step.CloseChannel)
    {
      channelClosed := true;
      closers := closers - 1;
    }

    /** The critical section of a failed goroutine. */
    method RecordSection(ghost task: nat, name: string, error: Error)
      requires Enabled(View(), Record(task)) && tasks[task].name == name && tasks[task].error == Some(error)
      modifies this
      ensures View() == Next(old(View()), Record(task))
    {
      if firstErr.None? {
        firstErr := Some(Failure(name, error));
      }
      tasks := tasks[task := tasks[task].(phase := Recorded)];
    }

    method DoneSection(ghost task: nat)
      requires Enabled(View(), Done(task))
      modifies this
      ensures View() == Next(old(View()), Done(task))
    {
      counter := counter - 1;
      tasks := tasks[task := tasks[task].(phase := Finished)];
    }

    /** The last section of Wait. */
    method ReadSection(ghost waiter: nat) returns (result: Option<Failure>)
      requires Enabled(View(), ReadError(waiter))
      modifies this
      ensures View() == Next(old(View()), ReadError(waiter)) && View().waiters[waiter] == Gone(result)
    {
      result := firstErr;
      waiters := waiters[waiter := Gone(result)];
    }
  }
}
