/** The recording service as a step relation: the receive thread, the writer thread and a control
    thread (operator commands and the storage monitor), sharing the packet buffer, the session
    state and `service_mu_`.  Each step is one access to shared state. */
module Recorder {
  import opened Bytes
  import opened PacketBuffer
  import opened Wrappers

  datatype Session = Idle | Recording | Stopping | Closed

  datatype FrameKind = SessionStarted | SessionEnded | Data

  /** A pushed frame with its arrival number in the session. */
  datatype Entry = Entry(id: nat, frame: bytes)

  datatype Lock = Free | HeldByReceiver | HeldByControl

  /** Where a thread stands in `StopRecording` and the functions it calls. */
  datatype StopPc =
    | Acquire                                  // waiting for service_mu_
    | CallStop                                 // sessions_.Stop
    | WaitEmpty                                // the bounded wait for an empty buffer
    | SetStopFlag                              // stop_threads_ = true
    | Join                                     // writer_thread_.join
    | DrainPop(attempt: nat, wroteAny: bool)   // DrainPacketBuffer, inner loop
    | DrainCheck(attempt: nat, wroteAny: bool) // its exit test
    | CloseWriter                              // writer_->Close
    | Mark                                     // sessions_.MarkStopped
    | ResetWriter
    | ResetBuffer
    | Restart                                  // clear the flags, start a new writer thread

  datatype ReceivePc =
    | Waiting
    | TestStart(kind: FrameKind, frame: bytes)
    | DoStart(kind: FrameKind, frame: bytes)
    | TestEnd(kind: FrameKind, frame: bytes)
    | TestState(frame: bytes)
    | ReadyToPush(frame: bytes)
    | ReceiverStops(stop: StopPc)

  datatype WritePc =
    | TestStopFlag
    | ReadState
    | TestPointers(seen: Session)
    | PopNext(seen: Session)
    | WritePopped(entry: Entry)
    | Exited

  datatype ControlPc = ControlIdle | ControlStarts | ControlStops(stop: StopPc)

  /** What is known about a session when its buffer is released. */
  datatype ClosedSession = ClosedSession(
    pushed: seq<bytes>,       // every frame handed to Push, in order
    evicted: set<nat>,        // the arrival numbers Push dropped
    dropCounter: nat,         // the buffer's own drop counter
    file: seq<Entry>,         // the frames written, in order
    leftover: seq<Entry>,     // what the buffer still held
    byReceiver: bool,         // stopped by SESSION_ENDED on the receive thread
    straddled: bool,          // the receiver stood between its state check and its push when the stop began
    late: bool)               // a frame was pushed after the stop had drained the buffer

  datatype Config = Config(autoStart: bool, capacity: nat, maxBytes: nat)

  datatype State = State(
    session: Session, lock: Lock, finalizing: bool, stopThreads: bool,
    hasBuffer: bool, queue: seq<Entry>, dropCounter: nat,
    hasWriter: bool, file: seq<Entry>,
    receiver: ReceivePc, writer: WritePc, control: ControlPc,
    pushed: seq<bytes>, evicted: set<nat>, straddled: bool, late: bool,
    closed: seq<ClosedSession>)

  function Initial(): State
  {
    State(Idle, Free, false, false, false, [], 0, false, [], Waiting, TestStopFlag, ControlIdle, [], {}, false,
        false, [])
  }

  datatype Action =
    | Receive(kind: FrameKind, frame: bytes)   // a validated frame arrives
    | ReceiverStep
    | WriterStep
    | AskStart
    | AskStop
    | ControlStep

  // ---- StartRecording and Push ----

  function Frames(q: seq<Entry>): (r: seq<bytes>)
    ensures |r| == |q|
  {
    seq(|q|, i requires 0 <= i < |q| => q[i].frame)
  }

  function Ids(q: seq<Entry>): set<nat>
  {
    set e | e in q :: e.id
  }

  /** `StartRecording`: refused while a recording runs, otherwise a new buffer and a new writer. */
  function Start(s: State): State
  {
    if s.session == Recording then s
    else s.(session := Recording, hasBuffer := true, queue := [], dropCounter := 0, hasWriter := true, file := [],
            pushed := [], evicted := {}, straddled := false, late := false)
  }

  function Push(c: Config, s: State, frame: bytes): State
  {
    var k := Evictions(Frames(s.queue), |frame|, c.capacity, c.maxBytes);
    s.(queue := s.queue[k..] + [Entry(|s.pushed|, frame)], dropCounter := s.dropCounter + k,
       pushed := s.pushed + [frame], evicted := s.evicted + Ids(s.queue[..k]),
       late := s.late || (Stopper(s).Some? && AfterDrain(Stopper(s).value)))
  }

  // ---- StopRecording, one step of the thread `who` ----

  predicate StopEnabled(s: State, pc: StopPc)
  {
    match pc
    case Acquire => s.lock == Free
    case Join => s.writer == Exited
    case _ => true
  }

  /** The state after the step, and where the thread goes next (None: back to the caller). */
  function StopStep(s: State, who: Lock, pc: StopPc): (State, Option<StopPc>)
  {
    match pc
    case Acquire =>
      if s.finalizing || (s.session != Recording && s.session != Stopping) then (s, None)
      else (s.(lock := who, finalizing := true), Some(CallStop))
    case CallStop =>
      ((if s.session == Recording then s.(session := Stopping) else s).(straddled := s.receiver.ReadyToPush?),
          Some(WaitEmpty))
    case WaitEmpty => (s, Some(SetStopFlag))
    case SetStopFlag => (s.(stopThreads := true), Some(Join))
    case Join => (s, Some(if s.hasBuffer && s.hasWriter then DrainPop(0, false) else CloseWriter))
    case DrainPop(n, wrote) =>
      if s.queue == [] then (s, Some(DrainCheck(n, wrote)))
      else (s.(queue := s.queue[1..], file := s.file + [s.queue[0]]), Some(DrainPop(n, true)))
    case DrainCheck(n, wrote) =>
      if (!wrote && s.queue == []) || n + 1 == 200 then (s, Some(CloseWriter))
      else (s, Some(DrainPop(n + 1, false)))
    case CloseWriter => (s, Some(Mark))
    case Mark => (s.(session := Closed), Some(ResetWriter))
    case ResetWriter => (s.(hasWriter := false), Some(ResetBuffer))
    case ResetBuffer =>
      var record := ClosedSession(s.pushed, s.evicted, s.dropCounter, s.file, s.queue,
                                  who == HeldByReceiver, s.straddled, s.late);
      (s.(hasBuffer := false, closed := s.closed + [record]), Some(Restart))
    case Restart =>
      (s.(stopThreads := false, writer := TestStopFlag, finalizing := false, lock := Free), None)
  }

  // ---- The threads ----

  predicate Enabled(s: State, a: Action)
  {
    match a
    case Receive(_, _) => s.receiver == Waiting
    case ReceiverStep =>
      (match s.receiver
       case Waiting => false
       case DoStart(_, _) => s.lock == Free
       case ReceiverStops(pc) => StopEnabled(s, pc)
       case _ => true)
    case WriterStep => s.writer != Exited
    case AskStart => s.control == ControlIdle
    case AskStop => s.control == ControlIdle
    case ControlStep =>
      (match s.control
       case ControlIdle => false
       case ControlStarts => s.lock == Free
       case ControlStops(pc) => StopEnabled(s, pc))
  }

  /** `OnContractFrame`, after the frame has been validated. */
  function ReceiverNext(c: Config, s: State): State
    requires Enabled(s, ReceiverStep)
  {
    match s.receiver
    case TestStart(kind, f) =>
      s.(receiver := if c.autoStart && s.session == Idle && kind == SessionStarted then DoStart(kind, f)
          else TestEnd(kind, f))
    case DoStart(kind, f) => Start(s).(receiver := TestEnd(kind, f))
    case TestEnd(kind, f) =>
      s.(receiver := if kind == SessionEnded && s.session == Recording then ReceiverStops(Acquire) else TestState(f))
    case TestState(f) => s.(receiver := if s.session == Recording then ReadyToPush(f) else Waiting)
    case ReadyToPush(f) => (if s.hasBuffer then Push(c, s, f) else s).(receiver := Waiting)
    case ReceiverStops(pc) =>
      var (s', next) := StopStep(s, HeldByReceiver, pc);
      s'.(receiver := match next case None => Waiting case Some(p) => ReceiverStops(p))
  }

  /** `WriterLoop`. */
  function WriterNext(s: State): State
    requires Enabled(s, WriterStep)
  {
    match s.writer
    case TestStopFlag => s.(writer := if s.stopThreads then Exited else ReadState)
    case ReadState =>
      s.(writer := if s.session == Recording || s.session == Stopping then TestPointers(s.session) else TestStopFlag)
    case TestPointers(seen) =>
      s.(writer := if s.hasBuffer && s.hasWriter then PopNext(seen)
                   else if seen == Stopping then Exited
                   else TestStopFlag)
    case PopNext(seen) =>
      if s.queue == [] then s.(writer := if seen == Stopping then Exited else TestStopFlag)
      else s.(queue := s.queue[1..], writer := WritePopped(s.queue[0]))
    case WritePopped(e) => s.(file := s.file + [e], writer := TestStopFlag)
  }

  function ControlNext(s: State): State
    requires Enabled(s, ControlStep)
  {
    match s.control
    case ControlStarts => Start(s).(control := ControlIdle)
    case ControlStops(pc) =>
      var (s', next) := StopStep(s, HeldByControl, pc);
      s'.(control := match next case None => ControlIdle case Some(p) => ControlStops(p))
  }

  function Next(c: Config, s: State, a: Action): State
    requires Enabled(s, a)
  {
    match a
    case Receive(kind, f) => s.(receiver := TestStart(kind, f))
    case ReceiverStep => ReceiverNext(c, s)
    case WriterStep => WriterNext(s)
    case AskStart => s.(control := ControlStarts)
    case AskStop => s.(control := ControlStops(Acquire))
    case ControlStep => ControlNext(s)
  }

  /** The state after the actions, or None when one of them was not enabled. */
  function Run(c: Config, acts: seq<Action>): Option<State>
  {
    if acts == [] then Some(Initial())
    else
      var a := acts[|acts| - 1];
      match Run(c, acts[..|acts| - 1])
      case None => None
      case Some(p) => if Enabled(p, a) then Some(Next(c, p, a)) else None
  }

  // ---- What a session keeps ----

  /** The pushed frames that were not evicted, in arrival order. */
  function Kept(pushed: seq<bytes>, evicted: set<nat>): seq<Entry>
  {
    if pushed == [] then []
    else
      var n := |pushed| - 1;
      Kept(pushed[..n], evicted) + (if n in evicted then [] else [Entry(n, pushed[n])])
  }

  /** The frame the writer has popped and not yet written. */
  function InFlight(w: WritePc): seq<Entry>
  {
    if w.WritePopped? then [w.entry] else []
  }

  /** The stop sequence that currently holds the lock. */
  function Stopper(s: State): Option<StopPc>
  {
    match s.lock
    case Free => None
    case HeldByReceiver => if s.receiver.ReceiverStops? then Some(s.receiver.stop) else None
    case HeldByControl => if s.control.ControlStops? then Some(s.control.stop) else None
  }

  /** No stop is under way. */
  predicate Quiet(s: State)
  {
    && s.lock == Free && !s.finalizing && !s.stopThreads && s.session != Stopping
    && s.hasBuffer == s.hasWriter == (s.session == Recording)
  }

  /** The session state, the flags and the pointers at each point of the stop sequence. */
  predicate PhaseAt(s: State, pc: StopPc)
  {
    && s.finalizing
    && (s.stopThreads <==> !pc.CallStop? && !pc.WaitEmpty? && !pc.SetStopFlag?)
    && s.session == (if pc.CallStop? then Recording
                     else if pc.ResetWriter? || pc.ResetBuffer? || pc.Restart? then Closed
                     else Stopping)
    && (s.hasWriter <==> !pc.ResetBuffer? && !pc.Restart?)
    && (s.hasBuffer <==> !pc.Restart?)
    && !pc.Acquire?
  }

  predicate PhaseInv(s: State)
  {
    match Stopper(s)
    case None => Quiet(s)
    case Some(pc) => PhaseAt(s, pc)
  }

  predicate AfterJoin(pc: StopPc)
  {
    pc.DrainPop? || pc.DrainCheck? || AfterDrain(pc)
  }

  predicate AfterDrain(pc: StopPc)
  {
    pc.CloseWriter? || pc.Mark? || pc.ResetWriter? || pc.ResetBuffer? || pc.Restart?
  }

  predicate AfterCallStop(pc: StopPc)
  {
    !pc.Acquire? && !pc.CallStop?
  }

  /** Who holds the lock is inside the stop sequence; the others are outside or still waiting for it. */
  predicate LockInv(s: State)
  {
    && (s.receiver.ReceiverStops? && !s.receiver.stop.Acquire? <==> s.lock == HeldByReceiver)
    && (s.control.ControlStops? && !s.control.stop.Acquire? <==> s.lock == HeldByControl)
  }

  predicate WriterAt(s: State, stopper: Option<StopPc>)
  {
    && (stopper.Some? && AfterJoin(stopper.value) ==> s.writer == Exited)
    && (s.writer.TestPointers? || s.writer.PopNext? || s.writer.WritePopped? ==> s.hasBuffer && s.hasWriter)
    && (s.writer.TestPointers? || s.writer.PopNext? ==> s.writer.seen == Recording || s.session == Stopping)
    && (s.writer == Exited ==> s.lock != Free)
  }

  predicate WriterInv(s: State)
  {
    WriterAt(s, Stopper(s))
  }

  /** After the session left Recording, at most one more push can come: the one of a receiver that
      had already passed its state check. */
  predicate StraddleAt(s: State, pc: StopPc)
  {
    && (AfterCallStop(pc) && !s.straddled ==> !s.receiver.ReadyToPush?)
    && (s.lock == HeldByReceiver && AfterCallStop(pc) ==> !s.straddled)
    && (pc.DrainCheck? || AfterDrain(pc) ==> |s.queue| + One(s.receiver.ReadyToPush?) <= 1)
    && (pc.DrainCheck? || AfterDrain(pc) ==> (!s.straddled ==> s.queue == []))
  }

  predicate StraddleInv(s: State)
  {
    Stopper(s).Some? ==> StraddleAt(s, Stopper(s).value)
  }

  function One(b: bool): nat
  {
    if b then 1 else 0
  }

  /** The drain ends after a few attempts, with an empty buffer; what the buffer holds later came late. */
  predicate DrainAt(s: State, pc: StopPc)
  {
    var toCome := One(s.receiver.ReadyToPush?);
    && (pc.DrainPop? ==> pc.attempt + 2 * toCome + One(s.queue != [] || pc.wroteAny) <= 3)
    && (pc.DrainCheck? ==> pc.attempt + 2 * toCome + One(s.queue != [] || pc.wroteAny) <= 3)
    && (pc.DrainCheck? && s.queue != [] ==> pc.attempt <= 1 && toCome == 0)
    && (!AfterDrain(pc) ==> !s.late)
    && (AfterDrain(pc) && s.hasBuffer ==> (s.queue == [] <==> !s.late))
  }

  predicate DrainInv(s: State)
  {
    (s.session == Recording ==> !s.late) && (Stopper(s).Some? ==> DrainAt(s, Stopper(s).value))
  }

  /** Written, in flight and queued frames together are exactly the kept ones, in order. */
  ghost predicate Conserved(file: seq<Entry>, inFlight: seq<Entry>, queue: seq<Entry>,
                            pushed: seq<bytes>, evicted: set<nat>, dropCounter: nat)
  {
    && file + inFlight + queue == Kept(pushed, evicted)
    && |evicted| == dropCounter
    && (forall i :: i in evicted ==> i < |pushed|)
  }

  ghost predicate ConservedIn(s: State)
  {
    Conserved(s.file, InFlight(s.writer), s.queue, s.pushed, s.evicted, s.dropCounter)
  }

  ghost predicate GoodRecord(r: ClosedSession)
  {
    && r.file + r.leftover == Kept(r.pushed, r.evicted)
    && |r.evicted| == r.dropCounter
    && (forall i :: i in r.evicted ==> i < |r.pushed|)
    && |r.leftover| <= 1
    && (r.byReceiver ==> !r.straddled)
    && (!r.straddled ==> r.leftover == [])
    && (r.leftover == [] <==> !r.late)
  }

  /** The part of the invariant about where the threads stand. */
  predicate ControlInv(s: State)
  {
    LockInv(s) && PhaseInv(s) && WriterInv(s) && StraddleInv(s) && DrainInv(s)
  }

  ghost predicate GoodRecords(closed: seq<ClosedSession>)
  {
    forall r :: r in closed ==> GoodRecord(r)
  }

  ghost predicate Inv(s: State)
  {
    && ControlInv(s)
    && (s.hasBuffer ==> ConservedIn(s))
    && GoodRecords(s.closed)
  }

  // ---- Kept frames ----

  lemma {:induction false} KeptIds(pushed: seq<bytes>, evicted: set<nat>)
    ensures forall e :: e in Kept(pushed, evicted) ==> e.id < |pushed| && e.id !in evicted && pushed[e.id] == e.frame
  {
    if pushed == [] {
    } else {
      KeptIds(pushed[..|pushed| - 1], evicted);
    }
  }

  lemma {:induction false} KeptIgnoresLater(pushed: seq<bytes>, evicted: set<nat>, i: nat)
    requires i >= |pushed|
    ensures Kept(pushed, evicted + {i}) == Kept(pushed, evicted)
  {
    if pushed == [] {
    } else {
      KeptIgnoresLater(pushed[..|pushed| - 1], evicted, i);
    }
  }

  lemma KeptAfterPush(pushed: seq<bytes>, evicted: set<nat>, f: bytes)
    requires forall i :: i in evicted ==> i < |pushed|
    ensures Kept(pushed + [f], evicted) == Kept(pushed, evicted) + [Entry(|pushed|, f)]
  {
    assert (pushed + [f])[..|pushed|] == pushed;
  }

  /** Evicting the kept frame at position i removes exactly that frame. */
  lemma {:induction false} KeptAfterEviction(pushed: seq<bytes>, evicted: set<nat>, i: nat)
    requires i < |Kept(pushed, evicted)|
    ensures var k := Kept(pushed, evicted); Kept(pushed, evicted + {k[i].id}) == k[..i] + k[i + 1..]
  {
    var n := |pushed| - 1;
    var init := Kept(pushed[..n], evicted);
    var k := Kept(pushed, evicted);
    KeptIds(pushed[..n], evicted);
    if i < |init| {
      KeptAfterEviction(pushed[..n], evicted, i);
      assert init[i] in init;
      assert k[..i] + k[i + 1..] == init[..i] + init[i + 1..] + k[|init|..];
    } else {
      KeptIgnoresLater(pushed[..n], evicted, n);
      assert k[..i] == init && k[i + 1..] == [];
    }
  }

  lemma IdsOfSnoc(q: seq<Entry>, e: Entry)
    ensures Ids(q + [e]) == Ids(q) + {e.id}
  {}

  /** Evicting n kept frames from position i on. */
  lemma {:induction false} KeptAfterEvictions(pushed: seq<bytes>, evicted: set<nat>, i: nat, n: nat)
    requires i + n <= |Kept(pushed, evicted)|
    ensures var k := Kept(pushed, evicted); var gone := Ids(k[i..i + n]);
            && Kept(pushed, evicted + gone) == k[..i] + k[i + n..]
            && |evicted + gone| == |evicted| + n
            && (forall g :: g in gone ==> g < |pushed|)
    decreases n
  {
    hide Kept, Ids;
    var k := Kept(pushed, evicted);
    if n == 0 {
      NoIds();
      assert k[i..i] == [] && k == k[..i] + k[i..];
      assert evicted + {} == evicted;
    } else {
      KeptAfterEvictions(pushed, evicted, i, n - 1);
      OneMoreEviction(pushed, evicted, k, i, n);
    }
  }

  lemma NoIds()
    ensures Ids([]) == {}
  {}

  lemma OneMoreEviction(pushed: seq<bytes>, evicted: set<nat>, k: seq<Entry>, i: nat, n: nat)
    requires 1 <= n && i + n <= |k|
    requires Kept(pushed, evicted + Ids(k[i..i + n - 1])) == k[..i] + k[i + n - 1..]
    ensures var e := k[i + n - 1]; var gone := Ids(k[i..i + n - 1]);
            && Ids(k[i..i + n]) == gone + {e.id}
            && Kept(pushed, evicted + Ids(k[i..i + n])) == k[..i] + k[i + n..]
            && e.id !in evicted + gone && e.id < |pushed|
            && |evicted + Ids(k[i..i + n])| == |evicted + gone| + 1
  {
    hide Kept, Ids;
    var e, gone := k[i + n - 1], Ids(k[i..i + n - 1]);
    assert k[i..i + n] == k[i..i + n - 1] + [e];
    IdsOfSnoc(k[i..i + n - 1], e);
    var k' := Kept(pushed, evicted + gone);
    assert k'[i] == e && k'[..i] == k[..i] && k'[i + 1..] == k[i + n..];
    KeptIds(pushed, evicted + gone);
    assert k'[i] in k';
    KeptAfterEviction(pushed, evicted + gone, i);
    assert evicted + gone + {e.id} == evicted + (gone + {e.id});
  }

  // ---- Every step keeps the invariant ----

  lemma PushConserves(c: Config, s: State, f: bytes)
    requires ConservedIn(s)
    ensures ConservedIn(Push(c, s, f))
  {
    hide Kept, Ids, Evictions, Frames;
    var k := Evictions(Frames(s.queue), |f|, c.capacity, c.maxBytes);
    var before := s.file + InFlight(s.writer);
    var all := Kept(s.pushed, s.evicted);
    assert all[|before|..|before| + k] == s.queue[..k];
    assert all[..|before|] == before && all[|before| + k..] == s.queue[k..];
    KeptAfterEvictions(s.pushed, s.evicted, |before|, k);
    var evicted := s.evicted + Ids(s.queue[..k]);
    KeptAfterPush(s.pushed, evicted, f);
    assert before + s.queue[k..] + [Entry(|s.pushed|, f)] == before + (s.queue[k..] + [Entry(|s.pushed|, f)]);
  }

  /** t is s after a push: one frame more is queued, after any evictions, and it is late after the drain. */
  predicate Pushed(s: State, t: State)
  {
    && t.session == s.session && t.lock == s.lock && t.finalizing == s.finalizing
    && t.stopThreads == s.stopThreads && t.hasBuffer == s.hasBuffer && t.hasWriter == s.hasWriter
    && t.writer == s.writer && t.control == s.control && t.straddled == s.straddled
    && t.receiver == s.receiver && 0 < |t.queue| <= |s.queue| + 1
    && t.late == (s.late || (Stopper(s).Some? && AfterDrain(Stopper(s).value)))
  }

  lemma PushIsPushed(c: Config, s: State, f: bytes)
    ensures Pushed(s, Push(c, s, f))
  {
    hide Frames, Ids, Evictions;
  }

  lemma StopKeepsConserved(s: State, who: Lock, pc: StopPc)
    requires who != Free && StopEnabled(s, pc) && s.hasBuffer && ConservedIn(s)
    requires pc.DrainPop? ==> InFlight(s.writer) == []
    requires pc.Restart? ==> InFlight(s.writer) == []
    ensures ConservedIn(StopStep(s, who, pc).0)
  {
    hide Kept;
    if pc.DrainPop? && s.queue != [] {
      assert s.file + [s.queue[0]] + s.queue[1..] == s.file + s.queue;
    }
  }

  lemma WriterKeepsInv(s: State)
    requires Inv(s) && Enabled(s, WriterStep)
    ensures Inv(WriterNext(s))
  {
    hide Kept, GoodRecords;
    var t := WriterNext(s);
    if s.hasBuffer && s.writer.PopNext? && s.queue != [] {
      assert s.file + [] + s.queue == s.file + [s.queue[0]] + s.queue[1..];
    }
  }

  lemma StartKeepsInv(c: Config, s: State)
    requires Inv(s) && s.lock == Free
    ensures Inv(Start(s))
  {
    hide GoodRecords;
    assert Kept([], {}) == [];
  }

  lemma RecordIsGood(s: State, byReceiver: bool)
    requires ConservedIn(s) && s.writer == Exited && |s.queue| <= 1
    requires (byReceiver ==> !s.straddled) && (!s.straddled ==> s.queue == []) && (s.queue == [] <==> !s.late)
    ensures GoodRecord(ClosedSession(s.pushed, s.evicted, s.dropCounter, s.file, s.queue, byReceiver, s.straddled,
            s.late))
  {
    hide Kept;
    assert s.file + [] == s.file;
  }

  lemma StopKeepsRecords(s: State, who: Lock, pc: StopPc)
    requires ControlInv(s) && Stopper(s) == Some(pc) && s.lock == who
    requires GoodRecords(s.closed) && (s.hasBuffer ==> ConservedIn(s))
    ensures GoodRecords(StopStep(s, who, pc).0.closed)
  {
    hide ConservedIn, GoodRecord;
    if pc.ResetBuffer? {
      RecordIsGood(s, who == HeldByReceiver);
    }
  }

  // One step of the stop sequence, whichever thread takes it.

  /** The thread `who` stands at pc, and waits for the lock or holds it. */
  predicate StopsAt(s: State, who: Lock, pc: StopPc)
  {
    && who != Free && StopEnabled(s, pc)
    && s.lock == (if pc.Acquire? then Free else who)
  }

  lemma StopStepsLock(s: State, who: Lock, pc: StopPc)
    requires StopsAt(s, who, pc)
    ensures var (t, next) := StopStep(s, who, pc); t.lock == if next.None? then Free else who
    ensures StopStep(s, who, pc).1.Some? ==> !StopStep(s, who, pc).1.value.Acquire?
  {}

  lemma StopStepsAlone(s: State, who: Lock, pc: StopPc)
    ensures StopStep(s, who, pc).0.receiver == s.receiver
    ensures StopStep(s, who, pc).0.control == s.control
  {
    match pc
    case Acquire =>
    case CallStop =>
    case DrainPop(_, _) =>
    case DrainCheck(_, _) =>
    case ResetBuffer =>
    case _ =>
  }

  lemma StopStepsPhase(s: State, who: Lock, pc: StopPc)
    requires StopsAt(s, who, pc) && if pc.Acquire? then Quiet(s) else PhaseAt(s, pc)
    ensures var (t, next) := StopStep(s, who, pc);
            if next.None? then Quiet(t) else PhaseAt(t, next.value)
  {}

  lemma StopStepsWriter(s: State, who: Lock, pc: StopPc)
    requires StopsAt(s, who, pc) && if pc.Acquire? then Quiet(s) else PhaseAt(s, pc)
    requires WriterAt(s, if pc.Acquire? then None else Some(pc))
    ensures var (t, next) := StopStep(s, who, pc); WriterAt(t, next)
  {}

  lemma StopStepsStraddle(s: State, who: Lock, pc: StopPc)
    requires StopsAt(s, who, pc) && (!pc.Acquire? ==> PhaseAt(s, pc) && StraddleAt(s, pc) && DrainAt(s, pc))
    requires who == HeldByReceiver ==> s.receiver.ReceiverStops?
    ensures var (t, next) := StopStep(s, who, pc); next.Some? ==> StraddleAt(t, next.value)
  {}

  /** It keeps the bound on the drain attempts. */
  lemma StopStepsDrain(s: State, who: Lock, pc: StopPc)
    requires StopsAt(s, who, pc) && if pc.Acquire? then Quiet(s) else PhaseAt(s, pc) && DrainAt(s, pc)
    requires s.session == Recording ==> !s.late
    ensures var (t, next) := StopStep(s, who, pc);
            && (t.session == Recording ==> !t.late)
            && (next.Some? ==> DrainAt(t, next.value))
  {}

  /** All of it for the stop sequence of one thread. */
  lemma StopKeepsControl(s: State, who: Lock, pc: StopPc)
    requires StopsAt(s, who, pc) && ControlInv(s)
    requires if pc.Acquire? then Stopper(s) == None else Stopper(s) == Some(pc)
    requires who == HeldByReceiver ==> s.receiver.ReceiverStops?
    ensures var (t, next) := StopStep(s, who, pc);
            && (if next.None? then Quiet(t) else PhaseAt(t, next.value))
            && WriterAt(t, next)
            && (next.Some? ==> StraddleAt(t, next.value) && DrainAt(t, next.value))
            && (t.session == Recording ==> !t.late)
  {
    hide StopStep, StopsAt, PhaseAt, Quiet, WriterAt, StraddleAt, DrainAt, LockInv;
    StopStepsPhase(s, who, pc);
    StopStepsWriter(s, who, pc);
    StopStepsStraddle(s, who, pc);
    StopStepsDrain(s, who, pc);
  }

  lemma ReceiverStopKeepsControl(c: Config, s: State)
    requires ControlInv(s) && Enabled(s, ReceiverStep) && s.receiver.ReceiverStops?
    ensures ControlInv(ReceiverNext(c, s))
  {
    hide StopStep;
    StopStepsLock(s, HeldByReceiver, s.receiver.stop);
    StopStepsAlone(s, HeldByReceiver, s.receiver.stop);
    StopKeepsControl(s, HeldByReceiver, s.receiver.stop);
  }

  lemma ControlStopKeepsControl(s: State)
    requires ControlInv(s) && Enabled(s, ControlStep) && s.control.ControlStops?
    ensures ControlInv(ControlNext(s))
  {
    hide StopStep;
    StopStepsLock(s, HeldByControl, s.control.stop);
    StopStepsAlone(s, HeldByControl, s.control.stop);
    StopKeepsControl(s, HeldByControl, s.control.stop);
  }

  lemma ReceiverStopKeepsInv(c: Config, s: State)
    requires Inv(s) && Enabled(s, ReceiverStep) && s.receiver.ReceiverStops?
    ensures Inv(ReceiverNext(c, s))
  {
    ReceiverStopKeepsControl(c, s);
    var pc := s.receiver.stop;
    if pc.Acquire? {
      hide Conserved, GoodRecords;
    } else {
      StopKeepsRecords(s, HeldByReceiver, pc);
      if s.hasBuffer {
        StopKeepsConserved(s, HeldByReceiver, pc);
      }
      hide Conserved, GoodRecords, ControlInv;
    }
  }

  lemma ControlStopKeepsInv(c: Config, s: State)
    requires Inv(s) && Enabled(s, ControlStep) && s.control.ControlStops?
    ensures Inv(ControlNext(s))
  {
    ControlStopKeepsControl(s);
    var pc := s.control.stop;
    if pc.Acquire? {
      hide Conserved, GoodRecords;
    } else {
      StopKeepsRecords(s, HeldByControl, pc);
      if s.hasBuffer {
        StopKeepsConserved(s, HeldByControl, pc);
      }
      hide Conserved, GoodRecords, ControlInv;
    }
  }

  lemma PushedKeepsPhases(s: State, t: State)
    requires ControlInv(s) && s.receiver.ReadyToPush? && s.hasBuffer && Pushed(s, t)
    ensures var u := t.(receiver := Waiting); LockInv(u) && PhaseInv(u) && WriterInv(u)
  {}

  lemma PushedKeepsDrain(s: State, t: State)
    requires ControlInv(s) && s.receiver.ReadyToPush? && s.hasBuffer && Pushed(s, t)
    ensures var u := t.(receiver := Waiting); StraddleInv(u) && DrainInv(u)
  {}

  lemma ReceiverPushKeepsControl(c: Config, s: State)
    requires ControlInv(s) && s.receiver.ReadyToPush? && s.hasBuffer
    ensures ControlInv(ReceiverNext(c, s))
  {
    hide Push, Pushed, LockInv, PhaseInv, WriterInv, StraddleInv, DrainInv;
    PushIsPushed(c, s, s.receiver.frame);
    PushedKeepsPhases(s, Push(c, s, s.receiver.frame));
    PushedKeepsDrain(s, Push(c, s, s.receiver.frame));
  }

  lemma ReceiverKeepsControl(c: Config, s: State)
    requires ControlInv(s) && Enabled(s, ReceiverStep) && !s.receiver.ReceiverStops?
    ensures ControlInv(ReceiverNext(c, s))
  {
    hide Push;
    if s.receiver.ReadyToPush? && s.hasBuffer {
      ReceiverPushKeepsControl(c, s);
    }
  }

  lemma ReceiverKeepsInv(c: Config, s: State)
    requires Inv(s) && Enabled(s, ReceiverStep) && !s.receiver.ReceiverStops?
    ensures Inv(ReceiverNext(c, s))
  {
    ReceiverKeepsControl(c, s);
    if s.receiver.ReadyToPush? && s.hasBuffer {
      PushConserves(c, s, s.receiver.frame);
    } else if s.receiver.DoStart? {
      StartKeepsInv(c, s);
    }
    hide Kept, Conserved, GoodRecords, ControlInv, Evictions, Frames, Ids;
  }

  lemma NextKeepsInv(c: Config, s: State, a: Action)
    requires Inv(s) && Enabled(s, a)
    ensures Inv(Next(c, s, a))
  {
    hide Kept, Conserved, GoodRecords;
    match a
    case Receive(_, _) =>
    case ReceiverStep =>
      if s.receiver.ReceiverStops? {
        ReceiverStopKeepsInv(c, s);
      } else {
        ReceiverKeepsInv(c, s);
      }
    case WriterStep => WriterKeepsInv(s);
    case AskStart =>
    case AskStop =>
    case ControlStep =>
      if s.control.ControlStops? {
        ControlStopKeepsInv(c, s);
      } else {
        StartKeepsInv(c, s);
      }
  }

  lemma {:induction false} RunKeepsInv(c: Config, acts: seq<Action>)
    requires Run(c, acts).Some?
    ensures Inv(Run(c, acts).value)
  {
    if acts == [] {
    } else {
      var before := acts[..|acts| - 1];
      RunKeepsInv(c, before);
      NextKeepsInv(c, Run(c, before).value, acts[|acts| - 1]);
    }
  }

  // ---- What holds over every run ----

  /** Kept holds exactly the pushed, never evicted frames, each with its arrival number. */
  lemma {:induction false} KeptIsComplete(pushed: seq<bytes>, evicted: set<nat>, e: Entry)
    ensures e in Kept(pushed, evicted) <==> e.id < |pushed| && e.id !in evicted && e.frame == pushed[e.id]
  {
    if pushed == [] {
    } else {
      var n := |pushed| - 1;
      KeptIsComplete(pushed[..n], evicted, e);
    }
  }

  lemma {:induction false} KeptIsOrdered(pushed: seq<bytes>, evicted: set<nat>)
    ensures forall i, j :: 0 <= i < j < |Kept(pushed, evicted)| ==>
            Kept(pushed, evicted)[i].id < Kept(pushed, evicted)[j].id
  {
    if pushed == [] {
    } else {
      var n := |pushed| - 1;
      KeptIsOrdered(pushed[..n], evicted);
      KeptIds(pushed[..n], evicted);
      var init := Kept(pushed[..n], evicted);
      assert forall i :: 0 <= i < |init| ==> init[i] in init;
    }
  }

  lemma {:induction false} KeptCount(pushed: seq<bytes>, evicted: set<nat>)
    requires forall i :: i in evicted ==> i < |pushed|
    ensures |Kept(pushed, evicted)| + |evicted| == |pushed|
  {
    if pushed == [] {
      assert evicted == {};
    } else {
      var n := |pushed| - 1;
      var smaller := evicted - {n};
      KeptCount(pushed[..n], smaller);
      if n in evicted {
        KeptIgnoresLater(pushed[..n], smaller, n);
        assert smaller + {n} == evicted;
      } else {
        assert smaller == evicted;
      }
    }
  }

  /** A session stopped by SESSION_ENDED holds, in arrival order, exactly the pushed frames minus
      the ones the buffer dropped, and the buffer counted them, over every interleaving. */
  lemma SessionEndedStopConserves(c: Config, acts: seq<Action>, r: ClosedSession)
    requires Run(c, acts).Some? && r in Run(c, acts).value.closed && r.byReceiver
    ensures r.file == Kept(r.pushed, r.evicted) && r.leftover == []
    ensures |r.evicted| == r.dropCounter && |r.pushed| == |r.file| + r.dropCounter
    ensures !r.late
  {
    hide Run, Kept;
    RunKeepsInv(c, acts);
    assert GoodRecord(r);
    assert r.file + [] == r.file;
    KeptCount(r.pushed, r.evicted);
  }

  /** Any stop at all: at most one pushed frame is neither written nor counted as dropped. The
      session is complete exactly when no frame was pushed after the drain, which takes a receiver
      that stood between its state check and its push when the stop began. */
  lemma AnyStopLosesAtMostOne(c: Config, acts: seq<Action>, r: ClosedSession)
    requires Run(c, acts).Some? && r in Run(c, acts).value.closed
    ensures r.file + r.leftover == Kept(r.pushed, r.evicted) && |r.leftover| <= 1
    ensures |r.pushed| == |r.file| + r.dropCounter + |r.leftover|
    ensures r.late ==> r.straddled && !r.byReceiver
    ensures r.file == Kept(r.pushed, r.evicted) <==> !r.late
  {
    hide Run, Kept;
    RunKeepsInv(c, acts);
    assert GoodRecord(r);
    assert |r.file + r.leftover| == |r.file| + |r.leftover|;
    assert r.leftover == [] ==> r.file + r.leftover == r.file;
    KeptCount(r.pushed, r.evicted);
  }

  /** Whenever service_mu_ is free no stop is under way, and the pointers are set exactly while
      recording. */
  lemma FreeLockMeansQuiet(c: Config, acts: seq<Action>)
    requires Run(c, acts).Some? && Run(c, acts).value.lock == Free
    ensures var s := Run(c, acts).value;
            s.session != Stopping && !s.finalizing && !s.stopThreads
                && s.hasBuffer == s.hasWriter == (s.session == Recording)
  {
    hide Run, ConservedIn, GoodRecords, WriterInv, StraddleInv;
    RunKeepsInv(c, acts);
  }

  /** The writer never holds a frame, and never looks at the buffer, after the join. */
  lemma WriterIsGoneAfterJoin(c: Config, acts: seq<Action>)
    requires Run(c, acts).Some?
    requires Stopper(Run(c, acts).value).Some? && AfterJoin(Stopper(Run(c, acts).value).value)
    ensures Run(c, acts).value.writer == Exited
  {
    hide Run, ConservedIn, GoodRecords, LockInv, StraddleInv;
    RunKeepsInv(c, acts);
  }

  lemma ExtendRun(c: Config, acts: seq<Action>, s: State, a: Action)
    requires Run(c, acts) == Some(s) && Enabled(s, a)
    ensures Run(c, acts + [a]) == Some(Next(c, s, a))
  {
    hide Next, Enabled;
    assert (acts + [a])[..|acts|] == acts;
  }

  lemma ReceiverReachesPush(c: Config, acts: seq<Action>, s: State) returns (acts': seq<Action>, t: State)
    requires Run(c, acts) == Some(s) && s.session == Recording && s.receiver == Waiting
    ensures Run(c, acts') == Some(t) && t == s.(receiver := ReadyToPush([1]))
  {
    hide Run;
    ExtendRun(c, acts, s, Receive(Data, [1]));
    var a := acts + [Receive(Data, [1])];
    ExtendRun(c, a, s.(receiver := TestStart(Data, [1])), ReceiverStep);
    ExtendRun(c, a + [ReceiverStep], s.(receiver := TestEnd(Data, [1])), ReceiverStep);
    ExtendRun(c, a + [ReceiverStep] + [ReceiverStep], s.(receiver := TestState([1])), ReceiverStep);
    acts' := a + [ReceiverStep] + [ReceiverStep] + [ReceiverStep];
    t := s.(receiver := ReadyToPush([1]));
  }

  lemma ControlStepsOnce(c: Config, acts: seq<Action>, s: State, pc: StopPc) returns (acts': seq<Action>, t: State)
    requires Run(c, acts) == Some(s) && s.control == ControlStops(pc) && StopEnabled(s, pc)
    ensures Run(c, acts') == Some(t) && t == ControlNext(s)
  {
    hide Run;
    ExtendRun(c, acts, s, ControlStep);
    acts', t := acts + [ControlStep], ControlNext(s);
  }

  lemma ControlReachesJoin(c: Config, acts: seq<Action>, s: State) returns (acts': seq<Action>, t: State)
    requires Run(c, acts) == Some(s) && s.control == ControlIdle && s.session == Recording && s.lock == Free
             && !s.finalizing
    requires s.receiver.ReadyToPush?
    ensures Run(c, acts') == Some(t)
    ensures t == s.(control := ControlStops(Join), session := Stopping, lock := HeldByControl, finalizing := true,
                    stopThreads := true, straddled := true)
  {
    hide Run;
    ExtendRun(c, acts, s, AskStop);
    acts', t := acts + [AskStop], s.(control := ControlStops(Acquire));
    acts', t := ControlStepsOnce(c, acts', t, Acquire);
    acts', t := ControlStepsOnce(c, acts', t, CallStop);
    acts', t := ControlStepsOnce(c, acts', t, WaitEmpty);
    acts', t := ControlStepsOnce(c, acts', t, SetStopFlag);
  }

  lemma ControlReachesReset(c: Config, acts: seq<Action>, s: State) returns (acts': seq<Action>, t: State)
    requires Run(c, acts) == Some(s) && s.control == ControlStops(Join) && s.writer == Exited
    requires s.queue == [] && s.hasBuffer && s.hasWriter
    ensures Run(c, acts') == Some(t) && t == s.(control := ControlStops(ResetWriter), session := Closed)
  {
    hide Run;
    acts', t := ControlStepsOnce(c, acts, s, Join);
    acts', t := ControlStepsOnce(c, acts', t, DrainPop(0, false));
    acts', t := ControlStepsOnce(c, acts', t, DrainCheck(0, false));
    acts', t := ControlStepsOnce(c, acts', t, CloseWriter);
    acts', t := ControlStepsOnce(c, acts', t, Mark);
  }

  lemma PushAfterDrain(c: Config, s: State, f: bytes)
    requires s.queue == [] && s.pushed == [] && s.evicted == {}
    requires s.lock == HeldByControl && s.control == ControlStops(ResetWriter)
    ensures Push(c, s, f) == s.(queue := [Entry(0, f)], pushed := [f], late := true)
  {
    assert Ids([]) == {};
    assert s.queue[0..] == [];
  }

  /** A run in which the control thread has drained an empty buffer while the receiver still stands
      before its push. */
  lemma ControlDrainsTooEarly(c: Config) returns (acts: seq<Action>, s: State)
    ensures Run(c, acts) == Some(s)
    ensures s == Start(Initial()).(receiver := ReadyToPush([1]), writer := Exited, control := ControlStops(ResetWriter),
                                   session := Closed, lock := HeldByControl, finalizing := true, stopThreads := true,
                                       straddled := true)
  {
    s := Initial();
    ExtendRun(c, [], s, AskStart);
    ExtendRun(c, [] + [AskStart], s.(control := ControlStarts), ControlStep);
    acts, s := [] + [AskStart] + [ControlStep], Start(s);
    hide Run, Push, Kept;
    acts, s := ReceiverReachesPush(c, acts, s);
    acts, s := ControlReachesJoin(c, acts, s);
    ExtendRun(c, acts, s, WriterStep);
    acts, s := acts + [WriterStep], s.(writer := Exited);
    acts, s := ControlReachesReset(c, acts, s);
  }

  lemma OneKept()
    ensures Kept([[1]], {}) == [Entry(0, [1])]
  {
    assert [[1]][..0] == [] && Kept([], {}) == [];
  }

  /** With a stop from the control thread the loss does happen: the receiver passes its state
      check, the stop drains an empty buffer, then the receiver pushes. */
  lemma ControlStopCanLoseAFrame() returns (c: Config, acts: seq<Action>)
    ensures Run(c, acts).Some? && |Run(c, acts).value.closed| == 1
    ensures var r := Run(c, acts).value.closed[0];
            !r.byReceiver && r.straddled && r.late && r.pushed == [[1]] && r.evicted == {} && r.file == []
                && r.file != Kept(r.pushed, r.evicted)
  {
    OneKept();
    hide Run, Push, Kept;
    c := Config(false, 8, 1024);
    var s;
    acts, s := ControlDrainsTooEarly(c);
    ExtendRun(c, acts, s, ReceiverStep);
    PushAfterDrain(c, s, [1]);
    acts, s := acts + [ReceiverStep], s.(queue := [Entry(0, [1])], pushed := [[1]], late := true, receiver := Waiting);
    acts, s := ControlStepsOnce(c, acts, s, ResetWriter);
    acts, s := ControlStepsOnce(c, acts, s, ResetBuffer);
  }
}
