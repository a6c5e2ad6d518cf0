/** The threads of the recorder do their work: frames are written, sessions begin, and every stop can
    be brought to its end. */
module Progress {
  import opened Arrivals
  import opened Recorder
  import opened Wrappers

  // ---- The writer thread ----

  lemma SessionIsOpen(s: State)
    requires ControlInv(s) && (s.session == Recording || s.session == Stopping) && !s.stopThreads
    ensures s.hasBuffer && s.hasWriter
  {
    hide WriterInv, StraddleInv, DrainInv;
  }

  lemma InvIsControlInv(s: State)
    requires Inv(s)
    ensures ControlInv(s)
  {}

  /** Until it is told to exit, the writer thread writes the oldest queued frame of a session in five
      steps of its own, also while the session is stopping. */
  lemma WriterWritesOldest(c: Config, acts: seq<Action>)
    requires Run(c, acts).Some?
    requires var s := Run(c, acts).value;
             && (s.session == Recording || s.session == Stopping) && !s.stopThreads
             && s.writer == TestStopFlag && s.queue != []
    ensures var s := Run(c, acts).value;
            Run(c, acts + [WriterStep] + [WriterStep] + [WriterStep] + [WriterStep] + [WriterStep]) ==
              Some(s.(queue := s.queue[1..], file := s.file + [s.queue[0]]))
  {
    hide Run, Inv;
    RunKeepsInv(c, acts);
    var s := Run(c, acts).value;
    assert ControlInv(s) by { InvIsControlInv(s); }
    SessionIsOpen(s);
    hide ControlInv;
    var a := acts;
    ExtendRun(c, a, s, WriterStep);
    a := a + [WriterStep];
    ExtendRun(c, a, s.(writer := ReadState), WriterStep);
    a := a + [WriterStep];
    ExtendRun(c, a, s.(writer := TestPointers(s.session)), WriterStep);
    a := a + [WriterStep];
    ExtendRun(c, a, s.(writer := PopNext(s.session)), WriterStep);
    a := a + [WriterStep];
    ExtendRun(c, a, s.(queue := s.queue[1..], writer := WritePopped(s.queue[0])), WriterStep);
  }

  // ---- Starting and stopping ----

  /** When `StopRecording` returns, on either thread, no recording is left running; and if it went
      beyond its first test, the session is closed and has been recorded. */
  lemma StopReturnsStopped(c: Config, acts: seq<Action>, who: Lock, pc: StopPc)
    requires Run(c, acts).Some? && StopsAt(Run(c, acts).value, who, pc)
    requires if pc.Acquire? then Stopper(Run(c, acts).value) == None else Stopper(Run(c, acts).value) == Some(pc)
    requires StopStep(Run(c, acts).value, who, pc).1 == None
    ensures var s := Run(c, acts).value; var t := StopStep(s, who, pc).0;
            && t.session != Recording && t.lock == Free && !t.finalizing && !t.hasBuffer
            && (pc.Acquire? ==> t == s && s.session != Recording)
            && (!pc.Acquire? ==> t.session == Closed)
  {
    hide Run, WriterInv, StraddleInv, DrainInv, ConservedIn, GoodRecords;
    RunKeepsInv(c, acts);
  }

  /** A granted start begins a new session, and a refused one leaves the running session alone. */
  lemma StartRecords(c: Config, acts: seq<Action>)
    requires Run(c, acts).Some? && Run(c, acts).value.lock == Free
    ensures var s := Run(c, acts).value; var t := Start(s);
            && t.session == Recording && t.hasBuffer && t.hasWriter && t.closed == s.closed
            && if s.session == Recording then t == s
               else t.pushed == [] && t.queue == [] && t.file == [] && t.dropCounter == 0 && !t.late
  {
    hide Run;
    FreeLockMeansQuiet(c, acts);
  }

  // ---- Every stop can be finished ----

  /** How many points of the stop sequence lie ahead, the drain counting as one. */
  function PointsAhead(pc: StopPc): nat
  {
    match pc
    case Acquire => 11
    case CallStop => 10
    case WaitEmpty => 9
    case SetStopFlag => 8
    case Join => 7
    case DrainPop(_, _) => 6
    case DrainCheck(_, _) => 6
    case CloseWriter => 5
    case Mark => 4
    case ResetWriter => 3
    case ResetBuffer => 2
    case Restart => 1
  }

  /** How many steps the writer thread has before it exits, once it has been told to. */
  function WriterAhead(w: WritePc): nat
  {
    match w
    case Exited => 0
    case TestStopFlag => 1
    case WritePopped(_) => 2
    case PopNext(_) => 3
    case TestPointers(_) => 4
    case ReadState => 5
  }

  /** A bound on the steps of the drain while nothing is pushed. */
  function DrainAhead(pc: StopPc, queued: nat): nat
  {
    match pc
    case DrainPop(_, wrote) => 4 * queued + (if wrote then 2 else 0) + (if queued == 0 then 1 else 0)
    case DrainCheck(_, wrote) => 4 * queued + (if wrote then 2 else 0) + (if queued == 0 then 0 else 1)
    case _ => 0
  }

  lemma StopComesCloser(s: State, who: Lock, pc: StopPc)
    requires StopEnabled(s, pc) && !pc.Acquire?
    ensures var (t, next) := StopStep(s, who, pc);
            && t.lock == (if next == None then Free else s.lock)
            && (next == None <==> pc.Restart?)
            && (next.Some? ==>
                  var p := next.value;
                  || PointsAhead(p) < PointsAhead(pc)
                  || (PointsAhead(p) == PointsAhead(pc) && t.writer == s.writer &&
                      DrainAhead(p, |t.queue|) < DrainAhead(pc, |s.queue|)))
  {
    match pc
    case DrainPop(_, _) =>
      hide DrainAhead;
      PopComesCloser(s, who, pc);
    case DrainCheck(_, _) =>
      hide DrainAhead;
      CheckComesCloser(s, who, pc);
    case _ =>
  }

  lemma PopComesCloser(s: State, who: Lock, pc: StopPc)
    requires pc.DrainPop?
    ensures var (t, next) := StopStep(s, who, pc);
            && t.lock == s.lock && t.writer == s.writer && next.Some?
            && PointsAhead(next.value) == PointsAhead(pc)
            && DrainAhead(next.value, |t.queue|) < DrainAhead(pc, |s.queue|)
  {}

  lemma CheckComesCloser(s: State, who: Lock, pc: StopPc)
    requires pc.DrainCheck?
    ensures var (t, next) := StopStep(s, who, pc);
            && t == s && next.Some?
            && (next.value == CloseWriter ||
                  (PointsAhead(next.value) == PointsAhead(pc) &&
                   DrainAhead(next.value, |s.queue|) < DrainAhead(pc, |s.queue|)))
  {}

  lemma ExitComesCloser(s: State)
    requires s.stopThreads && s.writer != Exited
    ensures var t := WriterNext(s);
            WriterAhead(t.writer) < WriterAhead(s.writer) && t.lock == s.lock &&
            t.receiver == s.receiver && t.control == s.control
  {
    WriterIsAside(s);
    match s.writer
    case TestStopFlag =>
    case ReadState =>
    case _ =>
  }

  /** The next step of the thread that holds the lock. */
  function HolderStep(lock: Lock): Action
  {
    if lock == HeldByReceiver then ReceiverStep else ControlStep
  }

  /** Every step is one of the writer thread or of the thread that holds the lock. */
  predicate OnlyHolder(lock: Lock, more: seq<Action>)
  {
    forall a :: a in more ==> a == WriterStep || a == HolderStep(lock)
  }

  lemma HolderTakesStop(c: Config, s: State)
    requires ControlInv(s) && Stopper(s).Some? && StopEnabled(s, Stopper(s).value)
    ensures !Stopper(s).value.Acquire? && Enabled(s, HolderStep(s.lock))
    ensures var (u, next) := StopStep(s, s.lock, Stopper(s).value); var t := Next(c, s, HolderStep(s.lock));
            && t == u.(receiver := t.receiver, control := t.control)
            && (u.lock == s.lock ==> Stopper(t) == next)
            && (Stopper(s).value.Restart? ==> t.session == Closed)
  {
    hide WriterInv, StraddleInv, DrainInv;
    StopStepsAlone(s, s.lock, Stopper(s).value);
    if Stopper(s).value.Restart? {
    } else {
      hide StopStep;
    }
  }

  lemma WaitingForExit(s: State)
    requires ControlInv(s) && Stopper(s).Some? && !StopEnabled(s, Stopper(s).value)
    ensures Stopper(s).value.Join? && s.stopThreads && s.writer != Exited
  {
    hide WriterInv, StraddleInv, DrainInv;
  }

  ghost predicate Finished(c: Config, acts: seq<Action>)
  {
    Run(c, acts).Some? && Run(c, acts).value.lock == Free && Run(c, acts).value.session == Closed
  }

  /** The step that brings the stop in s closer to its end. */
  function StopAction(s: State): Action
    requires Stopper(s).Some?
  {
    if StopEnabled(s, Stopper(s).value) then HolderStep(s.lock) else WriterStep
  }

  lemma StepComesCloser(c: Config, s: State)
    requires ControlInv(s) && Stopper(s).Some?
    ensures Enabled(s, StopAction(s))
    ensures var pc, t := Stopper(s).value, Next(c, s, StopAction(s));
            if t.lock == Free then t.session == Closed
            else
              t.lock == s.lock && Stopper(t).Some? &&
              var p := Stopper(t).value;
              || PointsAhead(p) < PointsAhead(pc)
              || (PointsAhead(p) == PointsAhead(pc) && WriterAhead(t.writer) < WriterAhead(s.writer))
              || (PointsAhead(p) == PointsAhead(pc) && WriterAhead(t.writer) == WriterAhead(s.writer) &&
                  DrainAhead(p, |t.queue|) < DrainAhead(pc, |s.queue|))
  {
    hide ControlInv, StopStep, WriterNext, ReceiverNext, ControlNext, PointsAhead, DrainAhead, WriterAhead;
    var pc := Stopper(s).value;
    if StopEnabled(s, pc) {
      HolderTakesStop(c, s);
      StopComesCloser(s, s.lock, pc);
    } else {
      WaitingForExit(s);
      ExitComesCloser(s);
    }
  }

  /** From every state a run can reach during a stop, the stop can be finished by its own thread and the
      writer thread alone: no wait is forever, and nothing else has to happen. */
  lemma {:induction false} StopCanFinish(c: Config, acts: seq<Action>)
    requires Run(c, acts).Some? && Stopper(Run(c, acts).value).Some?
    ensures exists more :: OnlyHolder(Run(c, acts).value.lock, more) && Finished(c, acts + more)
    decreases PointsAhead(Stopper(Run(c, acts).value).value),
              WriterAhead(Run(c, acts).value.writer),
              DrainAhead(Stopper(Run(c, acts).value).value, |Run(c, acts).value.queue|)
  {
    hide Run, Inv, ControlInv, Next, Enabled, Stopper, PointsAhead, WriterAhead, DrainAhead;
    RunKeepsInv(c, acts);
    var s := Run(c, acts).value;
    var a := StopAction(s);
    assert ControlInv(s) by { InvIsControlInv(s); }
    StepComesCloser(c, s);
    ExtendRun(c, acts, s, a);
    var t := Next(c, s, a);
    if t.lock == Free {
      assert OnlyHolder(s.lock, [a]) && Finished(c, acts + [a]);
    } else {
      StopCanFinish(c, acts + [a]);
      var more :| OnlyHolder(t.lock, more) && Finished(c, acts + [a] + more);
      assert acts + ([a] + more) == acts + [a] + more;
      assert OnlyHolder(s.lock, [a] + more);
    }
  }
}
