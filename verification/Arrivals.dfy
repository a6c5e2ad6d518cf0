/** What the recorder makes of the frames it receives: which of them it pushes, and which of those
    reach the file, over every interleaving of its threads. */
module Arrivals {
  import opened Bytes
  import opened ContractFrame
  import opened PacketBuffer
  import opened Recorder
  import opened Wrappers

  // ---- One frame ----

  /** The frame the receive thread is working on. */
  function Held(pc: ReceivePc): Option<bytes>
  {
    match pc
    case TestStart(_, f) => Some(f)
    case DoStart(_, f) => Some(f)
    case TestEnd(_, f) => Some(f)
    case TestState(f) => Some(f)
    case ReadyToPush(f) => Some(f)
    case _ => None
  }

  /** When the receive thread is done with a frame and the session records, the frame has been pushed,
      whatever the other threads did meanwhile. */
  lemma HeldFrameIsPushed(c: Config, acts: seq<Action>)
    requires Run(c, acts).Some? && Enabled(Run(c, acts).value, ReceiverStep)
    requires Held(Run(c, acts).value.receiver).Some?
    ensures var s := Run(c, acts).value; var t := ReceiverNext(c, s);
            t.receiver == Waiting && t.session == Recording ==>
              t.pushed == s.pushed + [Held(s.receiver).value] && t.queue != [] &&
              t.queue[|t.queue| - 1].frame == Held(s.receiver).value
  {
    hide Run, ConservedIn, GoodRecords, Evictions, Frames, Ids, WriterInv, StraddleInv, DrainInv;
    RunKeepsInv(c, acts);
  }

  // ---- All received frames of a run without an operator ----

  datatype Arrival = Arrival(kind: FrameKind, frame: bytes)

  function Received(acts: seq<Action>): seq<Arrival>
  {
    if acts == [] then []
    else
      var n := |acts| - 1;
      Received(acts[..n]) + (if acts[n].Receive? then [Arrival(acts[n].kind, acts[n].frame)] else [])
  }

  function FramesIn(arrivals: seq<Arrival>): (r: seq<bytes>)
    ensures |r| == |arrivals|
  {
    seq(|arrivals|, i requires 0 <= i < |arrivals| => arrivals[i].frame)
  }

  predicate NoOperator(acts: seq<Action>)
  {
    forall a :: a in acts ==> !a.AskStart? && !a.AskStop?
  }

  /** Where the received frames put the session, and the frames that belong to it. */
  datatype Scope = Before | During(frames: seq<bytes>) | After(frames: seq<bytes>)

  function Advance(autoStart: bool, scope: Scope, a: Arrival): Scope
  {
    match scope
    case Before => if autoStart && a.kind == SessionStarted then During([a.frame]) else Before
    case During(fs) => if a.kind == SessionEnded then After(fs) else During(fs + [a.frame])
    case After(fs) => After(fs)
  }

  function ScopeOf(autoStart: bool, arrivals: seq<Arrival>): Scope
  {
    if arrivals == [] then Before
    else
      var n := |arrivals| - 1;
      Advance(autoStart, ScopeOf(autoStart, arrivals[..n]), arrivals[n])
  }

  /** The session is where the frames put it, and has pushed exactly its frames. */
  ghost predicate Settled(scope: Scope, s: State)
  {
    match scope
    case Before => s.session == Idle && s.closed == []
    case During(fs) => s.session == Recording && s.closed == [] && s.pushed == fs
    case After(fs) => s.session == Closed && ClosedWith(s.closed, fs)
  }

  ghost predicate ClosedWith(closed: seq<ClosedSession>, fs: seq<bytes>)
  {
    |closed| == 1 && closed[0].pushed == fs && closed[0].byReceiver
  }

  /** The scope once the test for SESSION_STARTED is done, before the frame is pushed. */
  function Opened(autoStart: bool, scope: Scope, kind: FrameKind): Scope
  {
    if scope == Before && autoStart && kind == SessionStarted then During([]) else scope
  }

  ghost predicate Underway(c: Config, scope: Scope, last: Arrival, s: State)
  {
    match s.receiver
    case Waiting => Settled(Advance(c.autoStart, scope, last), s)
    case TestStart(kind, f) => last == Arrival(kind, f) && Settled(scope, s)
    case DoStart(kind, f) =>
      last == Arrival(kind, f) && Settled(scope, s) && c.autoStart && scope == Before && kind == SessionStarted
    case TestEnd(kind, f) => last == Arrival(kind, f) && Settled(Opened(c.autoStart, scope, kind), s)
    case TestState(f) =>
      && last.frame == f && Settled(Opened(c.autoStart, scope, last.kind), s)
      && !(last.kind == SessionEnded && scope.During?)
    case ReadyToPush(f) =>
      && last.frame == f && Settled(Opened(c.autoStart, scope, last.kind), s)
      && Opened(c.autoStart, scope, last.kind).During? && last.kind != SessionEnded
    case ReceiverStops(pc) =>
      && last.kind == SessionEnded && scope.During? && s.pushed == scope.frames
      && (pc.Acquire? ==> s.session == Recording)
      && if pc.Restart? then ClosedWith(s.closed, scope.frames) else s.closed == []
  }

  ghost predicate Follows(c: Config, arrivals: seq<Arrival>, s: State)
  {
    && s.control == ControlIdle
    && if arrivals == [] then s.receiver == Waiting && Settled(Before, s)
       else
         var n := |arrivals| - 1;
         Underway(c, ScopeOf(c.autoStart, arrivals[..n]), arrivals[n], s)
  }

  /** The writer thread moves frames from the queue to the file and touches nothing else. */
  lemma WriterIsAside(s: State)
    requires s.writer != Exited
    ensures var t := WriterNext(s); t == s.(queue := t.queue, file := t.file, writer := t.writer)
  {
    match s.writer
    case TestStopFlag =>
    case ReadState =>
    case TestPointers(_) =>
    case PopNext(_) =>
    case WritePopped(_) =>
  }

  lemma StopAdvances(s: State, pc: StopPc, fs: seq<bytes>)
    requires ControlInv(s) && s.receiver == ReceiverStops(pc) && StopEnabled(s, pc) && s.control == ControlIdle
    requires s.pushed == fs && if pc.Restart? then ClosedWith(s.closed, fs) else s.closed == []
    requires pc.Acquire? ==> s.session == Recording
    ensures var (t, next) := StopStep(s, HeldByReceiver, pc);
            && t.pushed == fs && t.control == ControlIdle
            && (next.Some? ==> if next.value.Restart? then ClosedWith(t.closed, fs) else t.closed == [])
            && (next == None ==> t.session == Closed && ClosedWith(t.closed, fs))
  {}

  lemma StopFollows(c: Config, scope: Scope, last: Arrival, s: State)
    requires ControlInv(s) && s.control == ControlIdle && s.receiver.ReceiverStops? && Enabled(s, ReceiverStep)
    requires Underway(c, scope, last, s)
    ensures Underway(c, scope, last, ReceiverNext(c, s)) && ReceiverNext(c, s).control == ControlIdle
  {
    hide StopStep, ClosedWith, ControlInv;
    StopAdvances(s, s.receiver.stop, scope.frames);
    StopStepsAlone(s, HeldByReceiver, s.receiver.stop);
    NextIsNotAcquire(s, s.receiver.stop);
  }

  lemma NextIsNotAcquire(s: State, pc: StopPc)
    ensures StopStep(s, HeldByReceiver, pc).1.Some? ==> !StopStep(s, HeldByReceiver, pc).1.value.Acquire?
  {}

  lemma PushFollows(c: Config, s: State, f: bytes)
    ensures var t := Push(c, s, f);
            t.session == s.session && t.closed == s.closed && t.pushed == s.pushed + [f] && t.control == s.control
  {}

  lemma ReceiverFollows(c: Config, scope: Scope, last: Arrival, s: State)
    requires ControlInv(s) && s.control == ControlIdle && Enabled(s, ReceiverStep) && !s.receiver.ReceiverStops?
    requires Underway(c, scope, last, s)
    ensures Underway(c, scope, last, ReceiverNext(c, s)) && ReceiverNext(c, s).control == ControlIdle
  {
    hide Push, WriterInv, StraddleInv, DrainInv, ClosedWith;
    if s.receiver.ReadyToPush? {
      PushFollows(c, s, s.receiver.frame);
    }
  }

  lemma NextFollows(c: Config, arrivals: seq<Arrival>, s: State, a: Action)
    requires Inv(s) && Follows(c, arrivals, s) && Enabled(s, a) && !a.AskStart? && !a.AskStop?
    ensures Follows(c, arrivals + (if a.Receive? then [Arrival(a.kind, a.frame)] else []), Next(c, s, a))
  {
    hide ControlInv, ConservedIn, GoodRecords, WriterNext, ReceiverNext, Underway;
    match a
    case Receive(kind, f) =>
      ReceiveFollows(c, arrivals, s, Arrival(kind, f));
    case ReceiverStep =>
      assert arrivals + [] == arrivals;
      var n := |arrivals| - 1;
      if s.receiver.ReceiverStops? {
        StopFollows(c, ScopeOf(c.autoStart, arrivals[..n]), arrivals[n], s);
      } else {
        ReceiverFollows(c, ScopeOf(c.autoStart, arrivals[..n]), arrivals[n], s);
      }
    case WriterStep =>
      assert arrivals + [] == arrivals;
      WriterIsAside(s);
      WriterFollows(c, arrivals, s);
  }

  lemma ReceiveFollows(c: Config, arrivals: seq<Arrival>, s: State, last: Arrival)
    requires Follows(c, arrivals, s) && s.receiver == Waiting
    ensures Follows(c, arrivals + [last], s.(receiver := TestStart(last.kind, last.frame)))
  {
    assert (arrivals + [last])[..|arrivals|] == arrivals;
    if arrivals != [] {
      assert arrivals == arrivals[..|arrivals| - 1] + [arrivals[|arrivals| - 1]];
    }
  }

  lemma WriterFollows(c: Config, arrivals: seq<Arrival>, s: State)
    requires Follows(c, arrivals, s) && s.writer != Exited
    ensures Follows(c, arrivals, WriterNext(s))
  {
    hide WriterNext;
    WriterIsAside(s);
  }

  lemma {:induction false} RunFollows(c: Config, acts: seq<Action>)
    requires Run(c, acts).Some? && NoOperator(acts)
    ensures Follows(c, Received(acts), Run(c, acts).value)
  {
    hide Inv, Follows, Next, Enabled;
    if acts == [] {
      FollowsFromStart(c);
    } else {
      var n := |acts| - 1;
      assert forall a :: a in acts[..n] ==> a in acts;
      assert acts[n] in acts;
      RunFollows(c, acts[..n]);
      RunKeepsInv(c, acts[..n]);
      NextFollows(c, Received(acts[..n]), Run(c, acts[..n]).value, acts[n]);
    }
  }

  lemma FollowsFromStart(c: Config)
    ensures Follows(c, [], Initial())
  {}

  /** Between two frames the session is where the received frames put it, with exactly its frames
      pushed, however the writer thread and the stop sequence were interleaved. */
  lemma ArrivalsArePushed(c: Config, acts: seq<Action>)
    requires Run(c, acts).Some? && NoOperator(acts) && Run(c, acts).value.receiver == Waiting
    ensures Settled(ScopeOf(c.autoStart, Received(acts)), Run(c, acts).value)
  {
    hide Run, Received;
    RunFollows(c, acts);
    var arrivals := Received(acts);
    if arrivals != [] {
      assert arrivals == arrivals[..|arrivals| - 1] + [arrivals[|arrivals| - 1]];
    }
  }

  // ---- The frames of the session ----

  lemma {:induction false} NothingBefore(autoStart: bool, arrivals: seq<Arrival>)
    requires !autoStart || forall a :: a in arrivals ==> a.kind != SessionStarted
    ensures ScopeOf(autoStart, arrivals) == Before
  {
    if arrivals == [] {
    } else {
      var n := |arrivals| - 1;
      assert arrivals[n] in arrivals && forall a :: a in arrivals[..n] ==> a in arrivals;
      NothingBefore(autoStart, arrivals[..n]);
    }
  }

  lemma {:induction false} InsideIsRecorded(before: seq<Arrival>, first: Arrival, inside: seq<Arrival>)
    requires (forall a :: a in before ==> a.kind != SessionStarted) && first.kind == SessionStarted
    requires forall a :: a in inside ==> a.kind != SessionEnded
    ensures ScopeOf(true, before + [first] + inside) == During([first.frame] + FramesIn(inside))
    decreases |inside|
  {
    var all := before + [first] + inside;
    var n := |all| - 1;
    if inside == [] {
      NothingBefore(true, before);
      assert all[..n] == before && [first.frame] + FramesIn(inside) == [first.frame];
    } else {
      var m := |inside| - 1;
      assert inside[m] in inside && forall a :: a in inside[..m] ==> a in inside;
      InsideIsRecorded(before, first, inside[..m]);
      assert all[..n] == before + [first] + inside[..m];
      assert [first.frame] + FramesIn(inside[..m]) + [inside[m].frame] == [first.frame] + FramesIn(inside);
    }
  }

  lemma {:induction false} NothingAfter(arrivals: seq<Arrival>, after: seq<Arrival>)
    requires ScopeOf(true, arrivals).After?
    ensures ScopeOf(true, arrivals + after) == ScopeOf(true, arrivals)
    decreases |after|
  {
    if after == [] {
      assert arrivals + after == arrivals;
    } else {
      var m := |after| - 1;
      NothingAfter(arrivals, after[..m]);
      assert (arrivals + after)[..|arrivals| + m] == arrivals + after[..m];
    }
  }

  lemma EndIsNotRecorded(before: seq<Arrival>, first: Arrival, inside: seq<Arrival>, last: Arrival, after: seq<Arrival>)
    requires (forall a :: a in before ==> a.kind != SessionStarted) && first.kind == SessionStarted
    requires (forall a :: a in inside ==> a.kind != SessionEnded) && last.kind == SessionEnded
    ensures ScopeOf(true, before + [first] + inside + [last] + after) == After([first.frame] + FramesIn(inside))
  {
    InsideIsRecorded(before, first, inside);
    var some := before + [first] + inside;
    assert (some + [last])[..|some|] == some;
    NothingAfter(some + [last], after);
  }

  /** Without an operator one session is recorded: its file holds the received frames from the first
      SESSION_STARTED, itself included, up to the next SESSION_ENDED, itself excluded, in order of
      arrival and less those the buffer dropped and counted. */
  lemma SessionIsRecorded(c: Config, acts: seq<Action>, before: seq<Arrival>, first: Arrival, inside: seq<Arrival>,
                          last: Arrival, after: seq<Arrival>)
    requires c.autoStart && Run(c, acts).Some? && NoOperator(acts) && Run(c, acts).value.receiver == Waiting
    requires Received(acts) == before + [first] + inside + [last] + after
    requires (forall a :: a in before ==> a.kind != SessionStarted) && first.kind == SessionStarted
    requires (forall a :: a in inside ==> a.kind != SessionEnded) && last.kind == SessionEnded
    ensures var s := Run(c, acts).value; var frames := [first.frame] + FramesIn(inside);
            && s.session == Closed && |s.closed| == 1
            && s.closed[0].file == Kept(frames, s.closed[0].evicted)
            && |frames| == |s.closed[0].file| + s.closed[0].dropCounter
  {
    hide Run, Received, ScopeOf, Kept;
    ArrivalsArePushed(c, acts);
    EndIsNotRecorded(before, first, inside, last, after);
    var r := Run(c, acts).value.closed[0];
    SessionEndedStopConserves(c, acts, r);
  }

  // ---- What the buffer may drop ----

  /** The queue respects both limits, unless it is a single frame. */
  predicate WithinLimits(c: Config, q: seq<Entry>)
  {
    |q| <= 1 || (|q| <= c.capacity && TotalSize(Frames(q)) <= c.maxBytes)
  }

  lemma FramesOfTail(q: seq<Entry>)
    requires q != []
    ensures Frames(q[1..]) == Frames(q)[1..]
  {}

  lemma TailIsWithin(c: Config, q: seq<Entry>)
    requires WithinLimits(c, q) && q != []
    ensures WithinLimits(c, q[1..])
  {
    FramesOfTail(q);
  }

  lemma PushStaysWithin(c: Config, s: State, f: bytes)
    ensures WithinLimits(c, Push(c, s, f).queue)
  {
    hide Ids;
    var k := Evictions(Frames(s.queue), |f|, c.capacity, c.maxBytes);
    PushRespectsLimits(Frames(s.queue), f, c.capacity, c.maxBytes);
    assert Frames(s.queue[k..] + [Entry(|s.pushed|, f)]) == Frames(s.queue)[k..] + [f];
  }

  predicate TailOf(q: seq<Entry>, q': seq<Entry>)
  {
    q' == q || q' == [] || (q != [] && q' == q[1..])
  }

  lemma StopPopsFront(s: State, who: Lock, pc: StopPc)
    ensures TailOf(s.queue, StopStep(s, who, pc).0.queue)
  {
    match pc
    case CallStop =>
    case Acquire =>
    case DrainPop(_, _) =>
    case DrainCheck(_, _) =>
    case _ =>
  }

  lemma WriterPopsFront(s: State)
    requires s.writer != Exited
    ensures TailOf(s.queue, WriterNext(s).queue)
  {
    match s.writer
    case TestStopFlag =>
    case PopNext(_) =>
    case _ =>
  }

  lemma ReceiverPopsNothing(c: Config, s: State)
    requires Enabled(s, ReceiverStep) && !s.receiver.ReadyToPush?
    ensures TailOf(s.queue, ReceiverNext(c, s).queue)
  {
    hide StopStep, TailOf;
    SameOrNone(s.queue);
    if s.receiver.ReceiverStops? {
      StopPopsFront(s, HeldByReceiver, s.receiver.stop);
    }
  }

  lemma SameOrNone(q: seq<Entry>)
    ensures TailOf(q, q) && TailOf(q, [])
  {}

  lemma ControlPopsFront(s: State)
    requires Enabled(s, ControlStep)
    ensures TailOf(s.queue, ControlNext(s).queue)
  {
    hide StopStep, TailOf;
    SameOrNone(s.queue);
    if s.control.ControlStops? {
      StopPopsFront(s, HeldByControl, s.control.stop);
    }
  }

  lemma TailStaysWithin(c: Config, q: seq<Entry>, q': seq<Entry>)
    requires WithinLimits(c, q) && TailOf(q, q')
    ensures WithinLimits(c, q')
  {
    if q != [] {
      TailIsWithin(c, q);
    }
  }

  lemma NextStaysWithin(c: Config, s: State, a: Action)
    requires Enabled(s, a) && WithinLimits(c, s.queue)
    ensures WithinLimits(c, Next(c, s, a).queue)
  {
    hide WithinLimits, Push, TailOf, WriterNext, ControlNext, StopStep;
    match a
    case ReceiverStep =>
      if s.receiver.ReadyToPush? {
        PushStaysWithin(c, s, s.receiver.frame);
      } else {
        ReceiverPopsNothing(c, s);
        TailStaysWithin(c, s.queue, ReceiverNext(c, s).queue);
      }
    case WriterStep =>
      WriterPopsFront(s);
      TailStaysWithin(c, s.queue, WriterNext(s).queue);
    case ControlStep =>
      ControlPopsFront(s);
      TailStaysWithin(c, s.queue, ControlNext(s).queue);
    case _ =>
  }

  /** The buffer stays within its limits over every run. */
  lemma {:induction false} QueueStaysWithinLimits(c: Config, acts: seq<Action>)
    requires Run(c, acts).Some?
    ensures WithinLimits(c, Run(c, acts).value.queue)
  {
    hide WithinLimits, Next, Enabled;
    if acts == [] {
      NothingIsWithin(c);
    } else {
      var n := |acts| - 1;
      QueueStaysWithinLimits(c, acts[..n]);
      NextStaysWithin(c, Run(c, acts[..n]).value, acts[n]);
    }
  }

  lemma NothingIsWithin(c: Config)
    ensures WithinLimits(c, [])
  {}

  // ---- When the buffer drops nothing ----

  ghost predicate Undropped(s: State)
  {
    && s.evicted == {} && s.dropCounter == 0
    && forall r :: r in s.closed ==> r.evicted == {} && r.dropCounter == 0
  }

  function SizeOf(held: Option<bytes>): nat
  {
    match held
    case Some(f) => |f|
    case None => 0
  }

  /** What has been pushed, and what is to be pushed, was received. */
  predicate Covered(arrivals: seq<Arrival>, s: State)
  {
    && |s.pushed| + One(Held(s.receiver).Some?) <= |arrivals|
    && TotalSize(s.pushed) + SizeOf(Held(s.receiver)) <= TotalSize(FramesIn(arrivals))
  }

  lemma {:induction false} TotalSizeOfConcat(a: seq<bytes>, b: seq<bytes>)
    ensures TotalSize(a + b) == TotalSize(a) + TotalSize(b)
  {
    if a == [] {
      assert a + b == b;
    } else {
      TotalSizeOfConcat(a[1..], b);
      assert (a + b)[1..] == a[1..] + b;
    }
  }

  /** The size of a queue is that of its bytes put together. */
  lemma {:induction false} TotalSizeIsLength(q: seq<bytes>)
    ensures TotalSize(q) == |Concat(q)|
  {
    if q == [] {
    } else {
      TotalSizeIsLength(q[1..]);
    }
  }

  lemma {:induction false} AllKept(pushed: seq<bytes>)
    ensures Frames(Kept(pushed, {})) == pushed
  {
    if pushed == [] {
    } else {
      var n := |pushed| - 1;
      AllKept(pushed[..n]);
      assert Kept(pushed, {}) == Kept(pushed[..n], {}) + [Entry(n, pushed[n])];
      assert Frames(Kept(pushed, {})) == Frames(Kept(pushed[..n], {})) + [pushed[n]];
    }
  }

  lemma FramesOfConcat(a: seq<Entry>, b: seq<Entry>)
    ensures Frames(a + b) == Frames(a) + Frames(b)
  {}

  lemma QueueIsCovered(s: State)
    requires ConservedIn(s) && s.evicted == {}
    ensures |s.queue| <= |s.pushed| && TotalSize(Frames(s.queue)) <= TotalSize(s.pushed)
  {
    hide Kept, Frames, TotalSize;
    AllKept(s.pushed);
    FramesOfConcat(s.file + InFlight(s.writer), s.queue);
    TotalSizeOfConcat(Frames(s.file + InFlight(s.writer)), Frames(s.queue));
  }

  /** All received frames together fit the buffer. */
  predicate AllFit(c: Config, arrivals: seq<Arrival>)
  {
    |arrivals| <= c.capacity && TotalSize(FramesIn(arrivals)) <= c.maxBytes
  }

  lemma NoIdsOfNone(q: seq<Entry>)
    ensures Ids(q[..0]) == {} && q[0..] == q
  {}

  lemma PushDropsNothing(c: Config, arrivals: seq<Arrival>, s: State, f: bytes)
    requires AllFit(c, arrivals) && Covered(arrivals, s) && Undropped(s) && ConservedIn(s)
    requires Held(s.receiver) == Some(f)
    ensures var t := Push(c, s, f).(receiver := Waiting); Undropped(t) && Covered(arrivals, t)
  {
    hide Frames, Ids, ConservedIn;
    QueueIsCovered(s);
    assert HasRoom(Frames(s.queue), |f|, c.capacity, c.maxBytes);
    NoIdsOfNone(s.queue);
    TotalSizeOfSnoc(s.pushed, f);
  }

  lemma StopDropsNothing(s: State, who: Lock, pc: StopPc)
    requires Undropped(s)
    ensures Undropped(StopStep(s, who, pc).0) && StopStep(s, who, pc).0.pushed == s.pushed
  {
    hide Undropped, StopStep;
    if pc.ResetBuffer? {
      ResetRecords(s, who);
      OneMoreUndropped(s, StopStep(s, who, pc).0);
    } else {
      StopKeepsCounts(s, who, pc);
      SameUndropped(s, StopStep(s, who, pc).0);
    }
  }

  lemma StopKeepsCounts(s: State, who: Lock, pc: StopPc)
    requires !pc.ResetBuffer?
    ensures var t := StopStep(s, who, pc).0;
            t.pushed == s.pushed && t.evicted == s.evicted && t.dropCounter == s.dropCounter && t.closed == s.closed
  {
    if pc.DrainPop? || pc.DrainCheck? {
      DrainKeepsCounts(s, who, pc);
    } else if pc.Acquire? || pc.CallStop? {
      FirstKeepsCounts(s, who, pc);
    } else {
    }
  }

  lemma FirstKeepsCounts(s: State, who: Lock, pc: StopPc)
    requires pc.Acquire? || pc.CallStop?
    ensures var t := StopStep(s, who, pc).0;
            t.pushed == s.pushed && t.evicted == s.evicted && t.dropCounter == s.dropCounter && t.closed == s.closed
  {
    match pc
    case Acquire =>
    case CallStop =>
  }

  lemma DrainKeepsCounts(s: State, who: Lock, pc: StopPc)
    requires pc.DrainPop? || pc.DrainCheck?
    ensures var t := StopStep(s, who, pc).0;
            t.pushed == s.pushed && t.evicted == s.evicted && t.dropCounter == s.dropCounter && t.closed == s.closed
  {
    match pc
    case DrainPop(_, _) =>
    case DrainCheck(_, _) =>
  }

  lemma ResetRecords(s: State, who: Lock)
    ensures var t := StopStep(s, who, ResetBuffer).0; var n := |s.closed|;
            && t.pushed == s.pushed && t.evicted == s.evicted && t.dropCounter == s.dropCounter
            && |t.closed| == n + 1 && t.closed[..n] == s.closed
            && t.closed[n].evicted == s.evicted && t.closed[n].dropCounter == s.dropCounter
  {}

  lemma SameUndropped(s: State, t: State)
    requires Undropped(s) && t.evicted == s.evicted && t.dropCounter == s.dropCounter && t.closed == s.closed
    ensures Undropped(t)
  {}

  lemma OneMoreUndropped(s: State, t: State)
    requires Undropped(s) && t.evicted == s.evicted && t.dropCounter == s.dropCounter
    requires |t.closed| == |s.closed| + 1 && t.closed[..|s.closed|] == s.closed
    requires t.closed[|s.closed|].evicted == s.evicted && t.closed[|s.closed|].dropCounter == s.dropCounter
    ensures Undropped(t)
  {
    assert t.closed == s.closed + [t.closed[|s.closed|]];
  }

  lemma ReceiverStopDropsNothing(c: Config, arrivals: seq<Arrival>, s: State)
    requires Covered(arrivals, s) && Undropped(s) && Enabled(s, ReceiverStep) && s.receiver.ReceiverStops?
    ensures Undropped(ReceiverNext(c, s)) && Covered(arrivals, ReceiverNext(c, s))
  {
    hide Undropped, StopStep;
    StopDropsNothing(s, HeldByReceiver, s.receiver.stop);
    SameUndropped(StopStep(s, HeldByReceiver, s.receiver.stop).0, ReceiverNext(c, s));
  }

  lemma TestsKeepTheRest(c: Config, s: State)
    requires s.receiver.TestStart? || s.receiver.TestEnd? || s.receiver.TestState?
    ensures var t := ReceiverNext(c, s);
            && t == s.(receiver := t.receiver)
            && (Held(t.receiver) == None || Held(t.receiver) == Held(s.receiver))
  {
    hide Start, Push, StopStep;
  }

  lemma StartDropsNothing(s: State)
    requires Undropped(s)
    ensures Undropped(Start(s)) && (Start(s).pushed == [] || Start(s).pushed == s.pushed)
  {}

  lemma TestsDropNothing(c: Config, arrivals: seq<Arrival>, s: State)
    requires Covered(arrivals, s) && Undropped(s) && Enabled(s, ReceiverStep)
    requires !s.receiver.ReadyToPush? && !s.receiver.ReceiverStops?
    ensures Undropped(ReceiverNext(c, s)) && Covered(arrivals, ReceiverNext(c, s))
  {
    if s.receiver.DoStart? {
      StartDropsNothing(s);
      hide Start, Undropped;
      SameUndropped(Start(s), ReceiverNext(c, s));
    } else {
      TestsKeepTheRest(c, s);
      hide Undropped, ReceiverNext;
      SameUndropped(s, ReceiverNext(c, s));
    }
  }

  lemma ReceiverDropsNothing(c: Config, arrivals: seq<Arrival>, s: State)
    requires AllFit(c, arrivals) && Covered(arrivals, s) && Undropped(s) && Inv(s) && Enabled(s, ReceiverStep)
    ensures Undropped(ReceiverNext(c, s)) && Covered(arrivals, ReceiverNext(c, s))
  {
    hide Push, StopStep, ConservedIn, ControlInv, GoodRecords, AllFit, Covered, Undropped;
    if s.receiver.ReceiverStops? {
      ReceiverStopDropsNothing(c, arrivals, s);
    } else if !s.receiver.ReadyToPush? {
      TestsDropNothing(c, arrivals, s);
    } else if s.hasBuffer {
      PushDropsNothing(c, arrivals, s, s.receiver.frame);
    } else {
      NoPushDropsNothing(arrivals, s);
    }
  }

  lemma NoPushDropsNothing(arrivals: seq<Arrival>, s: State)
    requires Covered(arrivals, s) && Undropped(s)
    ensures Undropped(s.(receiver := Waiting)) && Covered(arrivals, s.(receiver := Waiting))
  {}

  lemma ControlDropsNothing(c: Config, arrivals: seq<Arrival>, s: State)
    requires Covered(arrivals, s) && Undropped(s) && Enabled(s, ControlStep)
    ensures Undropped(ControlNext(s)) && Covered(arrivals, ControlNext(s))
  {
    hide StopStep;
    if s.control.ControlStops? {
      StopDropsNothing(s, HeldByControl, s.control.stop);
      StopStepsAlone(s, HeldByControl, s.control.stop);
    }
  }

  lemma ReceiveIsCovered(arrivals: seq<Arrival>, s: State, a: Arrival)
    requires Covered(arrivals, s) && s.receiver == Waiting
    ensures Covered(arrivals + [a], s.(receiver := TestStart(a.kind, a.frame)))
  {
    TotalSizeOfSnoc(FramesIn(arrivals), a.frame);
    assert FramesIn(arrivals + [a]) == FramesIn(arrivals) + [a.frame];
  }

  lemma FewerFit(c: Config, arrivals: seq<Arrival>, a: Arrival)
    requires AllFit(c, arrivals + [a])
    ensures AllFit(c, arrivals)
  {
    TotalSizeOfSnoc(FramesIn(arrivals), a.frame);
    assert FramesIn(arrivals + [a]) == FramesIn(arrivals) + [a.frame];
  }

  lemma {:induction false} RunDropsNothing(c: Config, acts: seq<Action>)
    requires Run(c, acts).Some? && AllFit(c, Received(acts))
    ensures Undropped(Run(c, acts).value) && Covered(Received(acts), Run(c, acts).value)
  {
    hide Undropped, Covered, AllFit, ReceiverNext, ControlNext, WriterNext;
    if acts == [] {
      NothingDropped(c);
    } else {
      var n := |acts| - 1;
      var before, a := Received(acts[..n]), acts[n];
      if a.Receive? {
        FewerFit(c, before, Arrival(a.kind, a.frame));
      } else {
        assert before + [] == before;
      }
      RunDropsNothing(c, acts[..n]);
      RunKeepsInv(c, acts[..n]);
      NextDropsNothing(c, before, Run(c, acts[..n]).value, a);
    }
  }

  lemma NothingDropped(c: Config)
    ensures Undropped(Initial()) && Covered([], Initial())
  {}

  lemma NextDropsNothing(c: Config, arrivals: seq<Arrival>, s: State, a: Action)
    requires AllFit(c, arrivals) && Covered(arrivals, s) && Undropped(s) && Inv(s) && Enabled(s, a)
    ensures Undropped(Next(c, s, a))
    ensures Covered(arrivals + (if a.Receive? then [Arrival(a.kind, a.frame)] else []), Next(c, s, a))
  {
    hide AllFit, ReceiverNext, ControlNext, WriterNext, Inv;
    assert arrivals + [] == arrivals;
    match a
    case Receive(kind, f) => ReceiveIsCovered(arrivals, s, Arrival(kind, f));
    case ReceiverStep => ReceiverDropsNothing(c, arrivals, s);
    case WriterStep => WriterIsAside(s);
    case ControlStep => ControlDropsNothing(c, arrivals, s);
    case _ =>
  }

  /** While all received frames together fit the buffer, it drops none: every closed session of a
      SESSION_ENDED stop holds every frame pushed in it. */
  lemma NothingIsDropped(c: Config, acts: seq<Action>, r: ClosedSession)
    requires Run(c, acts).Some? && r in Run(c, acts).value.closed && r.byReceiver && AllFit(c, Received(acts))
    ensures r.dropCounter == 0 && Frames(r.file) == r.pushed
  {
    hide Run, Kept, AllFit, Received, Frames;
    RunDropsNothing(c, acts);
    SessionEndedStopConserves(c, acts, r);
    AllKept(r.pushed);
  }
}
