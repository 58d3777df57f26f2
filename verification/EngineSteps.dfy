/**
 The engine as a step system. Each step is one critical section, one clock read or one device write; frames are
 published, sessions started and stopped, and the writer runs, in any interleaving.
 */
module EngineSteps {
  import opened Bytes
  import opened Nv21Geometry
  import opened ImageTransform
  import opened Pacing
  import JpegHeader
  import FrameWire
  import SC = StartCommand

  datatype Frame = JpegFrame(payload: seq<byte>) | Nv21Frame(payload: seq<byte>, size: Size)

  /** The JPEG library: decoding and encoding may fail, and are functions of their input. */
  datatype Codec = Codec(decode: seq<byte> -> Option<Rgb>, encode: (seq<byte>, Size) -> Option<seq<byte>>)
  {
    function Decoded(jpeg: seq<byte>): (r: Option<Rgb>)
      ensures r.Some? ==> r.value.Valid()
    {
      if decode(jpeg).Some? && decode(jpeg).value.Valid() then decode(jpeg) else None
    }
  }

  function OutputSize(c: SC.Config): Size { Size(c.width, c.height) }

  function OutputOrientation(c: SC.Config): Orientation { Orientation(c.rotation, c.mirror) }

  /** A JPEG of the right size that needs no turn is passed on as it is. */
  predicate PassesThrough(c: SC.Config, jpeg: seq<byte>)
  {
    var d := JpegHeader.Read(jpeg);
    d.Some? && d.value.width == c.width && d.value.height == c.height && c.rotation == 0 && !c.mirror
  }

  /** What the writer makes of a frame. */
  function Render(codec: Codec, c: SC.Config, f: Frame): Option<seq<byte>>
  {
    if f.JpegFrame? && PassesThrough(c, f.payload) && f.payload != [] then Some(f.payload)
    else
      var nv21 :=
        if f.JpegFrame? then JpegTransformed(f.payload, codec.Decoded(f.payload), OutputSize(c), OutputOrientation(c))
        else Nv21Transformed(f.payload, f.size, OutputSize(c), OutputOrientation(c));
      if nv21.Failure? then None else codec.encode(nv21.value, OutputSize(c))
  }

  // ----- State

  datatype Status = Status(running: bool, sinkOpen: bool, received: nat, written: nat, dropped: nat)

  /** Where the writer thread is: Waiting and Holding are its two waits for the next deadline. */
  datatype Writer =
    | NoWriter
    | Created
    | AtHead
    | Waiting
    | Holding
    | Took(frame: Option<Frame>, generation: nat)
    | Rendered
    | Sending(now: int)
    | Sent(now: int, ok: bool)
    | Finished

  /** What the control thread is doing; Start is a Stop, then opening, committing and creating the threads. */
  datatype Control =
    | Free
    | StopAsked(target: Option<SC.Config>)
    | Joined(target: Option<SC.Config>)
    | Opening(config: SC.Config)
    | Opened(config: SC.Config)
    | Committed
    | SourceDue

  datatype Sample = Sample(generation: nat, bytes: seq<byte>)

  /**
   What happened in the current session; no program variable. `deviceOk` is the device's last answer, `refusals`
   counts its failures.
   */
  datatype History = History(
    published: seq<Frame>, rejected: nat, rendered: nat, writes: seq<Sample>, start: int, ticks: seq<int>,
    deviceOk: bool, refusals: nat)

  /** What the mutex guards. */
  datatype Shared = Shared(status: Status, latest: Option<Frame>, generation: nat, config: SC.Config)

  /** The writer thread's own variables. */
  datatype Local = Local(at: Writer, consumed: nat, output: seq<byte>, nextWrite: int)

  /** A frame past its activity test, and the number of sessions committed when it passed. */
  datatype Admitted = Admitted(frame: Frame, session: nat)

  datatype State = State(
    shared: Shared, local: Local, control: Control, stop: bool, sourceAlive: bool, inFlight: multiset<Admitted>,
    session: nat, clock: int, history: History)

  datatype Step =
    | Advance(time: int)
    | Admit(frame: Frame)
    | Publish(admitted: Admitted)
    | SourcePublish(frame: Frame)
    | SourceExit
    | Begin
    | EnterWait
    | Wake
    | Resume
    | Transform
    | ReadClock
    | Write(ok: bool)
    | Account
    | WriterExit
    | AskStop(target: Option<SC.Config>)
    | Join
    | FinishStop
    | OpenSink(ok: bool)
    | Commit
    | CreateWriter(ok: bool)
    | CreateSource(ok: bool)

  function Interval(c: SC.Config): nat
  {
    if c.fps > 0 then 1_000_000_000 / c.fps else 0
  }

  predicate IsLocal(c: SC.Config) { c.url == SC.LOCAL }

  predicate IsNetwork(c: SC.Config) { c.url != SC.LOCAL && c.url != SC.PLACEHOLDER }

  /** The metadata checks between the activity test and publication. */
  predicate WellFormed(f: Frame)
  {
    match f
    case JpegFrame(payload) => FrameWire.Pushable(FrameWire.Jpeg(payload))
    case Nv21Frame(payload, size) => FrameWire.Pushable(FrameWire.Nv21(size.width, size.height, 0, payload))
  }

  predicate Acceptable(f: Frame) { FrameWire.SizeAccepted(|f.payload|) }

  const INITIAL: State := State(
    Shared(Status(false, false, 0, 0, 0), None, 0, SC.DEFAULT), Local(NoWriter, 0, [], 0),
    Free, false, false, multiset{}, 0, 0, History([], 0, 0, [], 0, [], true, 0))

  predicate WriterLives(w: Writer) { !w.NoWriter? && !w.Finished? }

  /** When a step can happen. */
  predicate Enabled(s: State, step: Step)
  {
    match step
    case Advance(time) => time >= s.clock
    case Admit(frame) => s.shared.status.running && IsLocal(s.shared.config) && WellFormed(frame)
    case Publish(admitted) => admitted in s.inFlight
    case SourcePublish(_) => s.sourceAlive
    case SourceExit => s.sourceAlive && s.stop
    case Begin => s.local.at == Created
    case EnterWait => s.local.at == AtHead && !s.stop
    case Wake => s.local.at == Waiting && (s.stop || s.clock >= s.local.nextWrite || NewFrame(s.shared, s.local))
    case Resume => s.local.at == Holding && (s.stop || s.clock >= s.local.nextWrite)
    case Transform => s.local.at.Took?
    case ReadClock => s.local.at == Rendered
    case Write(_) => s.local.at.Sending?
    case Account => s.local.at.Sent?
    case WriterExit => s.local.at == AtHead && s.stop
    case AskStop(target) => s.control == Free && (target.Some? ==> SC.Validate(target.value).Success?)
    case Join => s.control.StopAsked? && !WriterLives(s.local.at) && !s.sourceAlive
    case FinishStop => s.control.Joined?
    case OpenSink(_) => s.control.Opening?
    case Commit => s.control.Opened?
    case CreateWriter(_) => s.control == Committed
    case CreateSource(_) => s.control == SourceDue
  }

  /** The first wait also ends early, when there is no output yet and a frame it has not seen. */
  predicate NewFrame(sh: Shared, l: Local)
  {
    l.output == [] && sh.generation != l.consumed
  }

  // ----- What each step does to the pieces it touches

  datatype Board = Board(shared: Shared, history: History)

  /** PublishFrame: one critical section, whoever calls it. */
  function Published(b: Board, frame: Frame): Board
  {
    var sh, h := b.shared, b.history;
    if !Acceptable(frame) then
      Board(sh.(status := sh.status.(dropped := sh.status.dropped + 1)), h.(rejected := h.rejected + 1))
    else
      Board(Shared(sh.status.(received := sh.status.received + 1), Some(frame), sh.generation + 1, sh.config),
            h.(published := h.published + [frame]))
  }

  lemma PublishedCases(b: Board, frame: Frame)
    ensures !Acceptable(frame) ==>
              Published(b, frame).shared
              == b.shared.(status := b.shared.status.(dropped := b.shared.status.dropped + 1))
    ensures !Acceptable(frame) ==> Published(b, frame).history == b.history.(rejected := b.history.rejected + 1)
    ensures Acceptable(frame) ==>
              Published(b, frame).shared
              == Shared(b.shared.status.(received := b.shared.status.received + 1), Some(frame),
                        b.shared.generation + 1, b.shared.config)
    ensures Acceptable(frame) ==>
              Published(b, frame).history == b.history.(published := b.history.published + [frame])
  {
    hide Acceptable;
  }

  function Skipped(generation: nat, consumed: nat): nat
  {
    if generation > consumed + 1 then generation - consumed - 1 else 0
  }

  datatype Desk = Desk(shared: Shared, local: Local, history: History)

  /** The thread starts: its schedule begins at the clock it reads. */
  function Begun(d: Desk, clock: int): Desk
  {
    Desk(d.shared, d.local.(at := AtHead, nextWrite := clock), d.history.(start := clock))
  }

  /** The writer's first critical section: it takes the latest frame and counts those it never saw. */
  function Taken(d: Desk): Desk
  {
    var sh, l := d.shared, d.local;
    Desk(sh.(status := sh.status.(dropped := sh.status.dropped + Skipped(sh.generation, l.consumed))),
         l.(at := Took(sh.latest, sh.generation)), d.history)
  }

  /** The first wait is over: stop, hold until the deadline, or take. */
  function Woken(d: Desk, stop: bool, clock: int): Desk
  {
    if stop then Desk(d.shared, d.local.(at := Finished), d.history)
    else if clock < d.local.nextWrite then Desk(d.shared, d.local.(at := Holding), d.history)
    else Taken(d)
  }

  /** The second wait is over. */
  function Resumed(d: Desk, stop: bool): Desk
  {
    if stop then Desk(d.shared, d.local.(at := Finished), d.history) else Taken(d)
  }

  /** The rendering of the frame taken, and the second critical section. */
  function Transformed(codec: Codec, d: Desk): Desk
    requires d.local.at.Took?
  {
    var sh, l, h := d.shared, d.local, d.history;
    if l.at.frame.None? || l.at.generation == l.consumed then
      Desk(sh, l.(at := Rendered), h)
    else
      var output := Render(codec, sh.config, l.at.frame.value);
      if output.Some? then
        Desk(sh, Local(Rendered, l.at.generation, output.value, l.nextWrite), h.(rendered := h.rendered + 1))
      else
        Desk(sh.(status := sh.status.(dropped := sh.status.dropped + 1)),
             Local(Rendered, l.at.generation, [], l.nextWrite), h)
  }

  /** The clock read; without output the iteration ends here. */
  function Clocked(d: Desk, clock: int): Desk
  {
    var l, h := d.local, d.history;
    Desk(d.shared,
         if l.output == [] then l.(at := AtHead, nextWrite := AfterNothing(clock, Interval(d.shared.config)))
         else l.(at := Sending(clock)),
         h.(ticks := h.ticks + [clock]))
  }

  function DeviceWritten(d: Desk, ok: bool): Desk
    requires d.local.at.Sending?
  {
    var l, h := d.local, d.history.(deviceOk := ok);
    Desk(d.shared, l.(at := Sent(l.at.now, ok)),
         if ok then h.(writes := h.writes + [Sample(l.consumed, l.output)]) else h.(refusals := h.refusals + 1))
  }

  /** The third critical section, and the next deadline. */
  function Accounted(d: Desk): Desk
    requires d.local.at.Sent?
  {
    var sh, l := d.shared, d.local;
    var now, interval := l.at.now, Interval(sh.config);
    if l.at.ok then
      Desk(sh.(status := sh.status.(sinkOpen := true, written := sh.status.written + 1)),
           l.(at := AtHead, nextWrite := AfterWrite(l.nextWrite, now, interval)), d.history)
    else
      Desk(sh.(status := sh.status.(sinkOpen := false)),
           l.(at := AtHead, nextWrite := AfterNothing(now, interval)), d.history)
  }

  /** The daemon's own first frame. */
  function StartFrame(c: SC.Config): Frame
  {
    Nv21Frame(if Drawable(OutputSize(c)) then Placeholder(OutputSize(c)) else [], OutputSize(c))
  }

  function Committing(c: SC.Config, clock: int): Board
  {
    Board(Shared(Status(true, true, 0, 0, 0), Some(StartFrame(c)), 1, c),
          History([StartFrame(c)], 0, 0, [], clock, [], true, 0))
  }

  /** The end of a Stop; a Start goes on to open the device. */
  function Stopped(s: State): State
    requires s.control.Joined?
  {
    s.(shared := s.shared.(status := s.shared.status.(running := false, sinkOpen := false), latest := None),
       control := if s.control.target.Some? then Opening(s.control.target.value) else Free)
  }

  function CommittedAs(s: State, c: SC.Config): State
  {
    OnBoard(s, Committing(c, s.clock)).(stop := false, control := Committed, session := s.session + 1)
  }

  /** The writer's thread is created, and may run at once; a source thread is still due for a network address. */
  function WriterCreated(s: State, ok: bool): State
  {
    if !ok then s.(stop := true, control := StopAsked(None))
    else
      s.(local := Local(Created, 0, [], 0),
         control := if IsNetwork(s.shared.config) then SourceDue else Free)
  }

  /** When the second creation fails, Start ends in a Stop, whatever the writer has done meanwhile. */
  function SourceCreated(s: State, ok: bool): State
  {
    if ok then s.(sourceAlive := true, control := Free) else s.(stop := true, control := StopAsked(None))
  }

  function OnBoard(s: State, b: Board): State
  {
    s.(shared := b.shared, history := b.history)
  }

  function BoardOf(s: State): Board { Board(s.shared, s.history) }

  function OnDesk(s: State, d: Desk): State
  {
    s.(shared := d.shared, local := d.local, history := d.history)
  }

  function DeskOf(s: State): Desk { Desk(s.shared, s.local, s.history) }

  function Next(codec: Codec, s: State, step: Step): State
    requires Enabled(s, step)
  {
    match step
    case Advance(time) => s.(clock := time)
    case Admit(frame) => s.(inFlight := s.inFlight + multiset{Admitted(frame, s.session)})
    case Publish(admitted) =>
      OnBoard(s, Published(BoardOf(s), admitted.frame)).(inFlight := s.inFlight - multiset{admitted})
    case SourcePublish(frame) => OnBoard(s, Published(BoardOf(s), frame))
    case SourceExit => s.(sourceAlive := false)
    case Begin => OnDesk(s, Begun(DeskOf(s), s.clock))
    case EnterWait => s.(local := s.local.(at := Waiting))
    case Wake => OnDesk(s, Woken(DeskOf(s), s.stop, s.clock))
    case Resume => OnDesk(s, Resumed(DeskOf(s), s.stop))
    case Transform => OnDesk(s, Transformed(codec, DeskOf(s)))
    case ReadClock => OnDesk(s, Clocked(DeskOf(s), s.clock))
    case Write(ok) => OnDesk(s, DeviceWritten(DeskOf(s), ok))
    case Account => OnDesk(s, Accounted(DeskOf(s)))
    case WriterExit => s.(local := s.local.(at := Finished))
    case AskStop(target) => s.(stop := true, control := StopAsked(target))
    case Join => s.(local := s.local.(at := NoWriter), control := Joined(s.control.target))
    case FinishStop => Stopped(s)
    case OpenSink(ok) => s.(control := if ok then Opened(s.control.config) else Free)
    case Commit => CommittedAs(s, s.control.config)
    case CreateWriter(ok) => WriterCreated(s, ok)
    case CreateSource(ok) => SourceCreated(s, ok)
  }

  // ----- The steps, one at a time

  lemma AdvanceMeans(codec: Codec, s: State, time: int)
    ensures Enabled(s, Advance(time)) <==> time >= s.clock
    ensures Enabled(s, Advance(time)) ==> Next(codec, s, Advance(time)) == s.(clock := time)
  {
  }

  lemma AdmitMeans(codec: Codec, s: State, frame: Frame)
    ensures Enabled(s, Admit(frame)) <==> s.shared.status.running && IsLocal(s.shared.config) && WellFormed(frame)
    ensures Enabled(s, Admit(frame)) ==>
              Next(codec, s, Admit(frame)) == s.(inFlight := s.inFlight + multiset{Admitted(frame, s.session)})
  {
    hide WellFormed, IsLocal;
  }

  lemma PublishMeans(codec: Codec, s: State, a: Admitted)
    ensures Enabled(s, Publish(a)) <==> a in s.inFlight
    ensures Enabled(s, Publish(a)) ==>
              Next(codec, s, Publish(a))
              == OnBoard(s, Published(BoardOf(s), a.frame)).(inFlight := s.inFlight - multiset{a})
  {
    hide Published;
  }

  lemma SourcePublishMeans(codec: Codec, s: State, frame: Frame)
    ensures Enabled(s, SourcePublish(frame)) <==> s.sourceAlive
    ensures Enabled(s, SourcePublish(frame)) ==>
              Next(codec, s, SourcePublish(frame)) == OnBoard(s, Published(BoardOf(s), frame))
  {
    hide Published;
  }

  lemma SourceExitMeans(codec: Codec, s: State)
    ensures Enabled(s, SourceExit) <==> s.sourceAlive && s.stop
    ensures Enabled(s, SourceExit) ==> Next(codec, s, SourceExit) == s.(sourceAlive := false)
  {
  }

  lemma BeginMeans(codec: Codec, s: State)
    ensures Enabled(s, Begin) <==> s.local.at == Created
    ensures Enabled(s, Begin) ==> Next(codec, s, Begin) == OnDesk(s, Begun(DeskOf(s), s.clock))
  {
    hide Begun;
  }

  lemma EnterWaitMeans(codec: Codec, s: State)
    ensures Enabled(s, EnterWait) <==> s.local.at == AtHead && !s.stop
    ensures Enabled(s, EnterWait) ==> Next(codec, s, EnterWait) == s.(local := s.local.(at := Waiting))
  {
  }

  lemma WakeMeans(codec: Codec, s: State)
    ensures Enabled(s, Wake) <==> s.local.at == Waiting
                                  && (s.stop || s.clock >= s.local.nextWrite || NewFrame(s.shared, s.local))
    ensures Enabled(s, Wake) ==> Next(codec, s, Wake) == OnDesk(s, Woken(DeskOf(s), s.stop, s.clock))
  {
    hide Woken, NewFrame;
  }

  lemma ResumeMeans(codec: Codec, s: State)
    ensures Enabled(s, Resume) <==> s.local.at == Holding && (s.stop || s.clock >= s.local.nextWrite)
    ensures Enabled(s, Resume) ==> Next(codec, s, Resume) == OnDesk(s, Resumed(DeskOf(s), s.stop))
  {
    hide Resumed;
  }

  lemma TransformMeans(codec: Codec, s: State)
    ensures Enabled(s, Transform) <==> s.local.at.Took?
    ensures Enabled(s, Transform) ==> Next(codec, s, Transform) == OnDesk(s, Transformed(codec, DeskOf(s)))
  {
    hide Transformed;
  }

  lemma ReadClockMeans(codec: Codec, s: State)
    ensures Enabled(s, ReadClock) <==> s.local.at == Rendered
    ensures Enabled(s, ReadClock) ==> Next(codec, s, ReadClock) == OnDesk(s, Clocked(DeskOf(s), s.clock))
  {
    hide Clocked;
  }

  lemma WriteMeans(codec: Codec, s: State, ok: bool)
    ensures Enabled(s, Write(ok)) <==> s.local.at.Sending?
    ensures Enabled(s, Write(ok)) ==> Next(codec, s, Write(ok)) == OnDesk(s, DeviceWritten(DeskOf(s), ok))
  {
    hide DeviceWritten;
  }

  lemma AccountMeans(codec: Codec, s: State)
    ensures Enabled(s, Account) <==> s.local.at.Sent?
    ensures Enabled(s, Account) ==> Next(codec, s, Account) == OnDesk(s, Accounted(DeskOf(s)))
  {
    hide Accounted;
  }

  lemma WriterExitMeans(codec: Codec, s: State)
    ensures Enabled(s, WriterExit) <==> s.local.at == AtHead && s.stop
    ensures Enabled(s, WriterExit) ==> Next(codec, s, WriterExit) == s.(local := s.local.(at := Finished))
  {
  }

  lemma AskStopMeans(codec: Codec, s: State, target: Option<SC.Config>)
    ensures Enabled(s, AskStop(target)) <==> s.control == Free && (target.Some? ==> SC.Validate(target.value).Success?)
    ensures Enabled(s, AskStop(target)) ==>
              Next(codec, s, AskStop(target)) == s.(stop := true, control := StopAsked(target))
  {
    hide SC.Validate;
  }

  lemma JoinMeans(codec: Codec, s: State)
    ensures Enabled(s, Join) <==> s.control.StopAsked? && !WriterLives(s.local.at) && !s.sourceAlive
    ensures Enabled(s, Join) ==>
              Next(codec, s, Join) == s.(local := s.local.(at := NoWriter), control := Joined(s.control.target))
  {
    hide WriterLives;
  }

  lemma FinishStopMeans(codec: Codec, s: State)
    ensures Enabled(s, FinishStop) <==> s.control.Joined?
    ensures Enabled(s, FinishStop) ==> Next(codec, s, FinishStop) == Stopped(s)
  {
    hide Stopped;
  }

  lemma OpenSinkMeans(codec: Codec, s: State, ok: bool)
    ensures Enabled(s, OpenSink(ok)) <==> s.control.Opening?
    ensures Enabled(s, OpenSink(ok)) ==>
              Next(codec, s, OpenSink(ok)) == s.(control := if ok then Opened(s.control.config) else Free)
  {
  }

  lemma CommitMeans(codec: Codec, s: State)
    ensures Enabled(s, Commit) <==> s.control.Opened?
    ensures Enabled(s, Commit) ==> Next(codec, s, Commit) == CommittedAs(s, s.control.config)
  {
    hide CommittedAs;
  }

  lemma CreateWriterMeans(codec: Codec, s: State, ok: bool)
    ensures Enabled(s, CreateWriter(ok)) <==> s.control == Committed
    ensures Enabled(s, CreateWriter(ok)) ==> Next(codec, s, CreateWriter(ok)) == WriterCreated(s, ok)
  {
    hide WriterCreated;
  }

  lemma CreateSourceMeans(codec: Codec, s: State, ok: bool)
    ensures Enabled(s, CreateSource(ok)) <==> s.control == SourceDue
    ensures Enabled(s, CreateSource(ok)) ==> Next(codec, s, CreateSource(ok)) == SourceCreated(s, ok)
  {
    hide SourceCreated;
  }

  // ----- Invariants

  /** Threads live only inside a session, and the writer always finds a frame. */
  predicate Lifecycle(s: State)
  {
    var sh := s.shared;
    && (s.control.Joined? || s.control.Opening? || s.control.Opened? || s.control == Committed
        ==> s.local.at == NoWriter && !s.sourceAlive)
    && (s.control.StopAsked? ==> s.stop)
    && (s.control.Opening? || s.control.Opened? ==> !sh.status.running)
    && (s.control == Committed ==> sh.status.running && !s.stop)
    && (s.control == SourceDue ==> sh.status.running && !s.stop && WriterLives(s.local.at) && !s.sourceAlive)
    && (!sh.status.running ==> s.local.at == NoWriter && !s.sourceAlive)
    && (sh.status.running ==> sh.latest.Some? && sh.generation >= 1)
    && (sh.generation == 0 ==> s.inFlight == multiset{})
    && (s.control == Free && sh.status.running ==> !s.stop && WriterLives(s.local.at))
  }

  /** Every configuration on its way to a session is valid, and a source thread runs for exactly the network ones. */
  predicate Sound(s: State)
  {
    var c := s.shared.config;
    && (s.shared.status.running ==> SC.Validate(c).Success?)
    && ((s.control.StopAsked? || s.control.Joined?) && s.control.target.Some?
        ==> SC.Validate(s.control.target.value).Success?)
    && (s.control.Opening? || s.control.Opened? ==> SC.Validate(s.control.config).Success?)
    && (s.sourceAlive || s.control == SourceDue ==> IsNetwork(c))
    && (s.control == Free && s.shared.status.running && IsNetwork(c) ==> s.sourceAlive)
  }

  /** The mailbox is the last frame published in the session; received counts all but the daemon's own. */
  predicate Mailbox(sh: Shared, h: History)
  {
    && |h.published| == sh.generation
    && (sh.latest.Some? ==> sh.generation >= 1 && sh.latest.value == h.published[sh.generation - 1])
    && sh.status.received == if sh.generation == 0 then 0 else sh.generation - 1
  }

  /** A session before its writer exists. */
  predicate Blank(sh: Shared, h: History)
  {
    && h.rendered == 0 && sh.status.dropped == h.rejected && h.writes == [] && h.ticks == []
    && sh.status.written == 0
  }

  /** Generations the writer has skipped since it last advanced `consumed`. */
  function InHand(l: Local): nat
  {
    if l.at.Took? then Skipped(l.at.generation, l.consumed) else 0
  }

  /** While a writer exists, every published generation is consumed, skipped or not yet seen. */
  predicate Accounts(sh: Shared, l: Local, h: History)
  {
    l.at != NoWriter ==>
      && l.consumed <= sh.generation
      && (l.at.Took? ==> l.consumed <= l.at.generation <= sh.generation)
      && l.consumed + h.rejected + InHand(l) == sh.status.dropped + h.rendered
  }

  /** The writer's frame and output are those of the generations it holds. */
  predicate Fresh(codec: Codec, c: SC.Config, l: Local, published: seq<Frame>)
  {
    l.at != NoWriter ==>
      && l.consumed <= |published|
      && (l.at.Took? ==>
            && 1 <= l.at.generation <= |published| && l.consumed <= l.at.generation
            && l.at.frame == Some(published[l.at.generation - 1]))
      && (l.output != [] ==>
            l.consumed >= 1 && Render(codec, c, published[l.consumed - 1]) == Some(l.output))
      && (l.at.Sending? || l.at.Sent? ==> l.output != [])
  }

  predicate Genuine(codec: Codec, c: SC.Config, published: seq<Frame>, w: Sample)
  {
    1 <= w.generation <= |published| && Render(codec, c, published[w.generation - 1]) == Some(w.bytes)
  }

  /** Everything written so far: each the rendering of its generation, and never an older one again. */
  ghost predicate WritesOrdered(codec: Codec, c: SC.Config, l: Local, h: History)
  {
    var w := h.writes;
    && (forall i :: 0 <= i < |w| ==> Genuine(codec, c, h.published, w[i]))
    && (forall i :: 0 <= i < |w| && l.at != NoWriter ==> w[i].generation <= l.consumed)
    && (forall i, j :: 0 <= i < j < |w| ==> w[i].generation <= w[j].generation)
  }

  /** The written counter and the device agree. */
  predicate WrittenCounted(written: nat, at: Writer, writes: nat)
  {
    written + (if at.Sent? && at.ok then 1 else 0) == writes
  }

  /** The readiness flag follows the device's answers, once accounted for. */
  predicate DeviceFlag(status: Status, at: Writer, deviceOk: bool, refusals: nat)
  {
    && (!status.running ==> !status.sinkOpen)
    && (at.Sent? ==> at.ok == deviceOk)
    && (status.running && !at.Sent? ==> status.sinkOpen == deviceOk)
    && (!deviceOk ==> refusals > 0)
    && (status.running && !status.sinkOpen ==> refusals > 0)
  }

  /** The schedule, at the loop head or inside an iteration. */
  ghost predicate Paced(interval: nat, l: Local, clock: int, h: History)
  {
    match l.at
    case NoWriter => NeverEarly(h.start, interval, h.ticks) && BoundedBursts(interval, h.ticks)
    case Created => h.ticks == []
    case Finished => Scheduled(h.start, interval, h.ticks, l.nextWrite)
    case AtHead => Scheduled(h.start, interval, h.ticks, l.nextWrite)
    case Waiting => Scheduled(h.start, interval, h.ticks, l.nextWrite)
    case Holding => Scheduled(h.start, interval, h.ticks, l.nextWrite)
    case Took(_, _) => Scheduled(h.start, interval, h.ticks, l.nextWrite) && clock >= l.nextWrite
    case Rendered => Scheduled(h.start, interval, h.ticks, l.nextWrite) && clock >= l.nextWrite
    case Sending(now) => InIteration(h.start, interval, h.ticks, l.nextWrite) && now == h.ticks[|h.ticks| - 1]
    case Sent(now, _) => InIteration(h.start, interval, h.ticks, l.nextWrite) && now == h.ticks[|h.ticks| - 1]
  }

  /** Everything that holds of every reachable state. */
  ghost predicate Inv(codec: Codec, s: State)
  {
    var sh, l, h := s.shared, s.local, s.history;
    && Lifecycle(s)
    && Sound(s)
    && Mailbox(sh, h)
    && (s.control == Committed ==> Blank(sh, h))
    && Accounts(sh, l, h)
    && Fresh(codec, sh.config, l, h.published)
    && WritesOrdered(codec, sh.config, l, h)
    && WrittenCounted(sh.status.written, l.at, |h.writes|)
    && DeviceFlag(sh.status, l.at, h.deviceOk, h.refusals)
    && Paced(Interval(sh.config), l, s.clock, h)
  }

  lemma InitialInv(codec: Codec)
    ensures Inv(codec, INITIAL)
  {
  }

  // ----- Publishing

  lemma PublishKeeps(codec: Codec, s: State, frame: Frame)
    requires Inv(codec, s) && s.shared.generation >= 1
    ensures Inv(codec, OnBoard(s, Published(BoardOf(s), frame)))
  {
    hide SC.Validate, Render, Scheduled, InIteration, Interval, Genuine;
    var sh, l, h := s.shared, s.local, s.history;
    var after := Published(BoardOf(s), frame);
    PublishedExtends(codec, sh.config, l, h, after.history);
  }

  /** A longer list of published frames changes nothing about older generations. */
  lemma PublishedExtends(codec: Codec, c: SC.Config, l: Local, h: History, more: History)
    requires h.published <= more.published && h.writes == more.writes
    requires Fresh(codec, c, l, h.published) && WritesOrdered(codec, c, l, h)
    ensures Fresh(codec, c, l, more.published) && WritesOrdered(codec, c, l, more)
  {
    hide Render;
    forall i | 0 <= i < |h.writes| ensures Genuine(codec, c, more.published, more.writes[i]) {
      assert Genuine(codec, c, h.published, h.writes[i]);
    }
  }

  // ----- The writer's steps

  lemma BeginKeeps(codec: Codec, s: State)
    requires Inv(codec, s) && Enabled(s, Begin)
    ensures Inv(codec, Next(codec, s, Begin))
  {
    hide SC.Validate, Render, Scheduled, InIteration, Interval, Genuine, Next, Enabled;
    BeginMeans(codec, s);
    ScheduleStarts(s.clock, Interval(s.shared.config));
  }

  lemma WakeKeeps(codec: Codec, s: State)
    requires Inv(codec, s) && Enabled(s, Wake)
    ensures Inv(codec, Next(codec, s, Wake))
  {
    hide SC.Validate, Render, Scheduled, InIteration, Interval, Genuine, Taken, Next, Enabled;
    WakeMeans(codec, s);
    if !s.stop && s.clock >= s.local.nextWrite {
      TakeKeeps(codec, s);
    }
  }

  lemma ResumeKeeps(codec: Codec, s: State)
    requires Inv(codec, s) && Enabled(s, Resume)
    ensures Inv(codec, Next(codec, s, Resume))
  {
    hide SC.Validate, Render, Scheduled, InIteration, Interval, Genuine, Taken, Next, Enabled;
    ResumeMeans(codec, s);
    if !s.stop {
      TakeKeeps(codec, s);
    }
  }

  lemma TakeKeeps(codec: Codec, s: State)
    requires Inv(codec, s) && (s.local.at == Waiting || s.local.at == Holding) && s.clock >= s.local.nextWrite
    ensures Inv(codec, OnDesk(s, Taken(DeskOf(s))))
  {
    hide SC.Validate, Render, Scheduled, InIteration, Interval, Genuine;
  }

  lemma TransformKeeps(codec: Codec, s: State)
    requires Inv(codec, s) && Enabled(s, Transform)
    ensures Inv(codec, Next(codec, s, Transform))
  {
    hide SC.Validate, Render, Scheduled, InIteration, Interval, Genuine, WritesOrdered, Next, Enabled;
    TransformMeans(codec, s);
    var next := Next(codec, s, Transform);
    NewerConsumed(codec, s.shared.config, s.local, next.local, s.history, next.history);
  }

  /** Consuming newer generations keeps older writes older. */
  lemma NewerConsumed(codec: Codec, c: SC.Config, l: Local, next: Local, h: History, more: History)
    requires WritesOrdered(codec, c, l, h) && l.at != NoWriter && l.consumed <= next.consumed
    requires more.writes == h.writes && more.published == h.published
    ensures WritesOrdered(codec, c, next, more)
  {
    hide Genuine;
    forall i | 0 <= i < |more.writes| ensures Genuine(codec, c, more.published, more.writes[i]) {
      assert Genuine(codec, c, h.published, h.writes[i]);
    }
    forall i | 0 <= i < |more.writes| ensures more.writes[i].generation <= next.consumed {
      assert h.writes[i].generation <= l.consumed;
    }
  }

  lemma ReadClockKeeps(codec: Codec, s: State)
    requires Inv(codec, s) && Enabled(s, ReadClock)
    ensures Inv(codec, Next(codec, s, ReadClock))
  {
    hide SC.Validate, Render, Scheduled, InIteration, NeverEarly, BoundedBursts, Interval, Genuine;
    hide AfterNothing, AfterWrite, Next, Enabled;
    ReadClockMeans(codec, s);
    var l, h, d := s.local, s.history, Interval(s.shared.config);
    IterationStarts(h.start, d, h.ticks, l.nextWrite, s.clock);
    NextWriteKeepsSchedule(h.start, d, h.ticks + [s.clock], l.nextWrite);
  }

  lemma WriteKeeps(codec: Codec, s: State, ok: bool)
    requires Inv(codec, s) && Enabled(s, Write(ok))
    ensures Inv(codec, Next(codec, s, Write(ok)))
  {
    hide SC.Validate, Render, Scheduled, InIteration, Interval, Genuine, WritesOrdered, Next, Enabled;
    WriteMeans(codec, s, ok);
    var l, h, next := s.local, s.history, Next(codec, s, Write(ok));
    if ok {
      GenuineOutput(codec, s.shared.config, l, h);
      OneMoreWrite(codec, s.shared.config, l, next.local, h, next.history);
    } else {
      NewerConsumed(codec, s.shared.config, l, next.local, h, next.history);
    }
  }

  lemma GenuineOutput(codec: Codec, c: SC.Config, l: Local, h: History)
    requires Fresh(codec, c, l, h.published) && l.at.Sending?
    ensures Genuine(codec, c, h.published, Sample(l.consumed, l.output))
  {
    hide Render;
  }

  lemma OneMoreWrite(codec: Codec, c: SC.Config, l: Local, next: Local, h: History, more: History)
    requires WritesOrdered(codec, c, l, h) && l.at != NoWriter && l.consumed == next.consumed
    requires Genuine(codec, c, h.published, Sample(l.consumed, l.output))
    requires more.writes == h.writes + [Sample(l.consumed, l.output)] && more.published == h.published
    ensures WritesOrdered(codec, c, next, more)
  {
    hide Genuine;
    forall i | 0 <= i < |more.writes| ensures Genuine(codec, c, more.published, more.writes[i]) {
      if i < |h.writes| {
        assert Genuine(codec, c, h.published, h.writes[i]);
      }
    }
  }

  lemma AccountKeeps(codec: Codec, s: State)
    requires Inv(codec, s) && Enabled(s, Account)
    ensures Inv(codec, Next(codec, s, Account))
  {
    hide SC.Validate, Render, Scheduled, InIteration, Interval, Genuine, AfterNothing, AfterWrite, Next, Enabled;
    AccountMeans(codec, s);
    var l, h, d := s.local, s.history, Interval(s.shared.config);
    NextWriteKeepsSchedule(h.start, d, h.ticks, l.nextWrite);
  }

  lemma WriterExitKeeps(codec: Codec, s: State)
    requires Inv(codec, s) && Enabled(s, WriterExit)
    ensures Inv(codec, Next(codec, s, WriterExit))
  {
    hide SC.Validate, Render, Scheduled, InIteration, Interval, Genuine, Next, Enabled;
    WriterExitMeans(codec, s);
  }

  // ----- The control thread's steps

  /** The steps that move one flag or one position. */
  lemma SmallStepKeeps(codec: Codec, s: State, step: Step)
    requires Inv(codec, s) && Enabled(s, step)
    requires step.AskStop? || step.OpenSink? || step.SourceExit? || step.Admit? || step.Advance? || step.EnterWait?
    ensures Inv(codec, Next(codec, s, step))
  {
    hide SC.Validate, Render, Scheduled, InIteration, Interval, Genuine, WellFormed, Next, Enabled, WritesOrdered;
    match step
    case AskStop(target) => AskStopMeans(codec, s, target);
    case OpenSink(ok) => OpenSinkMeans(codec, s, ok);
    case SourceExit => SourceExitMeans(codec, s);
    case Admit(frame) => AdmitMeans(codec, s, frame);
    case Advance(time) => AdvanceMeans(codec, s, time);
    case EnterWait =>
      EnterWaitMeans(codec, s);
      NewerConsumed(codec, s.shared.config, s.local, s.local.(at := Waiting), s.history, s.history);
  }

  lemma FinishStopKeeps(codec: Codec, s: State)
    requires Inv(codec, s) && Enabled(s, FinishStop)
    ensures Inv(codec, Next(codec, s, FinishStop))
  {
    hide SC.Validate, Render, Scheduled, InIteration, Interval, Genuine, Next, Enabled;
    FinishStopMeans(codec, s);
  }

  lemma JoinKeeps(codec: Codec, s: State)
    requires Inv(codec, s) && Enabled(s, Join)
    ensures Inv(codec, Next(codec, s, Join))
  {
    hide SC.Validate, Render, InIteration, Interval, Genuine, Next, Enabled;
    JoinMeans(codec, s);
  }

  lemma CommitKeeps(codec: Codec, s: State)
    requires Inv(codec, s) && Enabled(s, Commit)
    ensures Inv(codec, Next(codec, s, Commit))
  {
    hide SC.Validate, Render, Scheduled, InIteration, Interval, Genuine, StartFrame, Next, Enabled;
    CommitMeans(codec, s);
  }

  lemma CreateWriterKeeps(codec: Codec, s: State, ok: bool)
    requires Inv(codec, s) && Enabled(s, CreateWriter(ok))
    ensures Inv(codec, Next(codec, s, CreateWriter(ok)))
  {
    hide SC.Validate, Render, Scheduled, InIteration, Interval, Genuine, Next, Enabled;
    CreateWriterMeans(codec, s, ok);
  }

  lemma CreateSourceKeeps(codec: Codec, s: State, ok: bool)
    requires Inv(codec, s) && Enabled(s, CreateSource(ok))
    ensures Inv(codec, Next(codec, s, CreateSource(ok)))
  {
    hide SC.Validate, Render, Scheduled, InIteration, Interval, Genuine, Next, Enabled, WritesOrdered;
    CreateSourceMeans(codec, s, ok);
  }

  /** Every step, of any thread, keeps every invariant. */
  lemma StepKeepsInv(codec: Codec, s: State, step: Step)
    requires Inv(codec, s) && Enabled(s, step)
    ensures Inv(codec, Next(codec, s, step))
  {
    hide Inv, Next, Enabled;
    match step
    case Publish(_) => PublishStepKeeps(codec, s, step);
    case SourcePublish(frame) => PublishStepKeeps(codec, s, step);
    case Begin => BeginKeeps(codec, s);
    case Wake => WakeKeeps(codec, s);
    case Resume => ResumeKeeps(codec, s);
    case Transform => TransformKeeps(codec, s);
    case ReadClock => ReadClockKeeps(codec, s);
    case Write(ok) => WriteKeeps(codec, s, ok);
    case Account => AccountKeeps(codec, s);
    case WriterExit => WriterExitKeeps(codec, s);
    case Join => JoinKeeps(codec, s);
    case Commit => CommitKeeps(codec, s);
    case FinishStop => FinishStopKeeps(codec, s);
    case CreateWriter(ok) => CreateWriterKeeps(codec, s, ok);
    case CreateSource(ok) => CreateSourceKeeps(codec, s, ok);
    case _ => SmallStepKeeps(codec, s, step);
  }

  lemma PublishStepKeeps(codec: Codec, s: State, step: Step)
    requires Inv(codec, s) && Enabled(s, step) && (step.Publish? || step.SourcePublish?)
    ensures Inv(codec, Next(codec, s, step))
  {
    hide SC.Validate, Mailbox, Blank, Accounts, Fresh, WritesOrdered, WrittenCounted, Paced, Published, Next, Enabled;
    match step
    case Publish(a) =>
      PublishMeans(codec, s, a);
      PublishKeeps(codec, s, a.frame);
    case SourcePublish(frame) =>
      SourcePublishMeans(codec, s, frame);
      PublishKeeps(codec, s, frame);
  }

  // ----- Runs

  /** The state a schedule leads to, if each of its steps can happen in turn. */
  function After(codec: Codec, steps: seq<Step>): Option<State>
  {
    if steps == [] then Some(INITIAL)
    else
      var before := After(codec, steps[..|steps| - 1]);
      if before.Some? && Enabled(before.value, steps[|steps| - 1])
      then Some(Next(codec, before.value, steps[|steps| - 1]))
      else None
  }

  lemma {:induction false} RunKeepsInv(codec: Codec, steps: seq<Step>)
    requires After(codec, steps).Some?
    ensures Inv(codec, After(codec, steps).value)
    decreases |steps|
  {
    hide Inv, Next, Enabled;
    if steps == [] {
      InitialInv(codec);
    } else {
      RunKeepsInv(codec, steps[..|steps| - 1]);
      StepKeepsInv(codec, After(codec, steps[..|steps| - 1]).value, steps[|steps| - 1]);
    }
  }

  /** Frame accounting over all interleavings: nothing received is lost without being counted. */
  lemma FrameAccounting(codec: Codec, steps: seq<Step>)
    requires After(codec, steps).Some?
    ensures var s := After(codec, steps).value;
            var sh, l, h := s.shared, s.local, s.history;
            && (sh.generation >= 1 ==> sh.generation == sh.status.received + 1)
            && (l.at == AtHead || l.at == Waiting || l.at == Holding ==>
                  l.consumed <= sh.generation
                  && sh.status.received + 1 + h.rejected
                     == sh.status.dropped + h.rendered + (sh.generation - l.consumed))
  {
    hide Fresh, WritesOrdered, WrittenCounted, Paced;
    RunKeepsInv(codec, steps);
    var s := After(codec, steps).value;
    assert Lifecycle(s) && Mailbox(s.shared, s.history) && Accounts(s.shared, s.local, s.history);
  }

  /** Freshness and order: each device write is the rendering of a published frame, generations never go back. */
  lemma WritesAreFreshAndOrdered(codec: Codec, steps: seq<Step>)
    requires After(codec, steps).Some?
    ensures var s := After(codec, steps).value;
            var w := s.history.writes;
            && (forall i :: 0 <= i < |w| ==> Genuine(codec, s.shared.config, s.history.published, w[i]))
            && (forall i, j :: 0 <= i < j < |w| ==> w[i].generation <= w[j].generation)
            && |w| == s.shared.status.written + if s.local.at.Sent? && s.local.at.ok then 1 else 0
  {
    hide Lifecycle, Sound, Mailbox, Accounts, Fresh, Paced, Genuine;
    RunKeepsInv(codec, steps);
  }

  /** Rate bounds over all interleavings, failed transforms, failed writes and schedule restarts included. */
  lemma WriterIsPaced(codec: Codec, steps: seq<Step>, i: nat, j: nat)
    requires After(codec, steps).Some?
    requires i < |After(codec, steps).value.history.ticks|
    ensures var s := After(codec, steps).value;
            var h, d := s.history, Interval(s.shared.config);
            && h.ticks[i] >= h.start + i * d
            && (i < j < |h.ticks| ==> h.ticks[j] - h.ticks[i] >= (j - i - 2) * d)
  {
    hide Lifecycle, Sound, Mailbox, Accounts, Fresh, WritesOrdered, WrittenCounted, Interval;
    RunKeepsInv(codec, steps);
    var s := After(codec, steps).value;
    TicksArePaced(Interval(s.shared.config), s.local, s.clock, s.history);
  }

  lemma TicksArePaced(interval: nat, l: Local, clock: int, h: History)
    requires Paced(interval, l, clock, h)
    ensures NeverEarly(h.start, interval, h.ticks) && BoundedBursts(interval, h.ticks)
  {
    hide NeverEarly, BoundedBursts, Ahead, Times;
    if l.at.Created? {
      ScheduleStarts(h.start, interval);
    } else if l.at.Sending? || l.at.Sent? {
      var before, now := h.ticks[..|h.ticks| - 1], h.ticks[|h.ticks| - 1];
      assert h.ticks == before + [now];
      IterationStarts(h.start, interval, before, l.nextWrite, now);
    }
  }

  /**
   An interval is the frame's share of a second rounded down: exact iff the rate divides a second's nanoseconds.
   Every session that passes validation runs at 30 a second, which does not.
   */
  lemma SessionRate(c: SC.Config)
    requires c.fps > 0
    ensures c.fps * Interval(c) <= 1_000_000_000 < c.fps * (Interval(c) + 1)
    ensures c.fps * Interval(c) == 1_000_000_000 <==> 1_000_000_000 % c.fps == 0
    ensures SC.Validate(c).Success? ==>
              c.fps == 30 && Interval(c) == 33_333_333 && 30 * Interval(c) == 1_000_000_000 - 10
  {
    DivisionParts(1_000_000_000, c.fps);
  }

  /** When WaitForFirstFrameWritten returns, and what. */
  predicate WaitOver(sh: Shared, timedOut: bool)
  {
    timedOut || sh.status.written > 0 || !sh.status.running || !sh.status.sinkOpen
  }

  function WaitResult(sh: Shared): bool
  {
    sh.status.written > 0
  }

  /**
   The wait answers yes iff a device write of this session has been counted, and then the first of them was the
   rendering of a published frame. It answers no only on its timeout, without a session, or after a device failure.
   */
  lemma FirstFrameWait(codec: Codec, steps: seq<Step>, timedOut: bool)
    requires After(codec, steps).Some? && WaitOver(After(codec, steps).value.shared, timedOut)
    ensures var s := After(codec, steps).value;
            var h, pending := s.history, s.local.at.Sent? && s.local.at.ok;
            && (WaitResult(s.shared) <==> |h.writes| > if pending then 1 else 0)
            && (WaitResult(s.shared) ==> Genuine(codec, s.shared.config, h.published, h.writes[0]))
            && (!WaitResult(s.shared) ==> timedOut || !s.shared.status.running || h.refusals > 0)
  {
    hide Lifecycle, Sound, Mailbox, Accounts, Fresh, Paced, Genuine;
    RunKeepsInv(codec, steps);
  }

  /** The camera is reported ready iff a session runs whose last device write, if any, succeeded. */
  lemma ReadyFollowsDevice(codec: Codec, steps: seq<Step>)
    requires After(codec, steps).Some? && !After(codec, steps).value.local.at.Sent?
    ensures var s := After(codec, steps).value;
            s.shared.status.sinkOpen <==> s.shared.status.running && s.history.deviceOk
  {
    hide Lifecycle, Sound, Mailbox, Accounts, Fresh, WritesOrdered, WrittenCounted, Paced;
    RunKeepsInv(codec, steps);
  }

  // ----- Nothing is written between a Stop and the next Start

  lemma IdleStays(codec: Codec, s: State, step: Step)
    requires Enabled(s, step) && s.local.at == NoWriter && step != CreateWriter(true)
    ensures Next(codec, s, step).local.at == NoWriter && !step.Write?
  {
    hide Published, Committing, SC.Validate, WellFormed;
  }

  lemma PrefixRuns(codec: Codec, steps: seq<Step>, n: nat)
    requires After(codec, steps).Some? && n <= |steps|
    ensures After(codec, steps[..n]).Some?
    ensures n < |steps| ==> Enabled(After(codec, steps[..n]).value, steps[n])
                            && After(codec, steps[..n + 1])
                               == Some(Next(codec, After(codec, steps[..n]).value, steps[n]))
    decreases |steps| - n
  {
    hide Enabled, Next;
    if n == |steps| {
      assert steps[..n] == steps;
    } else {
      PrefixRuns(codec, steps, n + 1);
      assert steps[..n + 1][..n] == steps[..n];
    }
  }

  lemma {:induction false} IdleUntilCreated(codec: Codec, steps: seq<Step>, i: nat, j: nat)
    requires After(codec, steps).Some? && i < j <= |steps|
    requires steps[i] == FinishStop
    requires forall k :: i < k < j ==> steps[k] != CreateWriter(true)
    ensures After(codec, steps[..j]).Some? && After(codec, steps[..j]).value.local.at == NoWriter
    decreases j
  {
    hide Next, Enabled, Inv;
    PrefixRuns(codec, steps, j - 1);
    var before := After(codec, steps[..j - 1]).value;
    if j == i + 1 {
      RunKeepsInv(codec, steps[..i]);
      StopFindsNoWriter(codec, before);
    } else {
      IdleUntilCreated(codec, steps, i, j - 1);
      IdleStays(codec, before, steps[j - 1]);
    }
  }

  lemma StopFindsNoWriter(codec: Codec, s: State)
    requires Inv(codec, s) && Enabled(s, FinishStop)
    ensures Next(codec, s, FinishStop).local.at == NoWriter
  {
    hide Sound, Mailbox, Blank, Accounts, Fresh, WritesOrdered, WrittenCounted, Paced;
  }

  /** After Stop returns no device write happens until a later Start has created its writer. */
  lemma NoWriteAfterStop(codec: Codec, steps: seq<Step>, i: nat, j: nat)
    requires After(codec, steps).Some? && i < j < |steps|
    requires steps[i] == FinishStop && steps[j].Write?
    ensures exists k :: i < k < j && steps[k] == CreateWriter(true)
  {
    hide Next, Enabled;
    if forall k :: i < k < j ==> steps[k] != CreateWriter(true) {
      IdleUntilCreated(codec, steps, i, j);
      PrefixRuns(codec, steps, j);
      IdleStays(codec, After(codec, steps[..j]).value, steps[j]);
      assert false;
    }
  }

  // ----- What an iteration consumes was the latest when it took the lock

  lemma OthersKeepTaken(codec: Codec, s: State, step: Step)
    requires Inv(codec, s) && Enabled(s, step) && s.local.at.Took? && step != Transform
    ensures var t := Next(codec, s, step);
            t.local == s.local && t.shared.config == s.shared.config && s.history.published <= t.history.published
  {
    hide Woken, Resumed, Transformed, Clocked, DeviceWritten, Accounted, Begun, CommittedAs;
    hide Sound, Mailbox, Blank, Accounts, Fresh, WritesOrdered, WrittenCounted, Paced, SC.Validate, WellFormed, Render;
  }

  function Continue(codec: Codec, s: State, steps: seq<Step>): Option<State>
    decreases |steps|
  {
    if steps == [] then Some(s)
    else if Enabled(s, steps[0]) then Continue(codec, Next(codec, s, steps[0]), steps[1..])
    else None
  }

  lemma {:induction false} TakenSurvives(codec: Codec, s: State, steps: seq<Step>)
    requires Inv(codec, s) && s.local.at.Took?
    requires Continue(codec, s, steps).Some? && Transform !in steps
    ensures var t := Continue(codec, s, steps).value;
            Inv(codec, t) && t.local == s.local && t.shared.config == s.shared.config
            && s.history.published <= t.history.published
    decreases |steps|
  {
    hide Inv, Next, Enabled;
    if steps == [] {
    } else {
      var next := Next(codec, s, steps[0]);
      OthersKeepTaken(codec, s, steps[0]);
      StepKeepsInv(codec, s, steps[0]);
      forall x | x in steps[1..] ensures x in steps {}
      TakenSurvives(codec, next, steps[1..]);
    }
  }

  /** The bytes to write for a rendering; there may be none. */
  function Written(jpeg: Option<seq<byte>>): seq<byte>
  {
    if jpeg.Some? then jpeg.value else []
  }

  /** The step by which the writer leaves a wait with a frame in hand. */
  predicate Takes(s: State, step: Step)
  {
    !s.stop && ((step == Wake && s.local.at == Waiting && s.clock >= s.local.nextWrite)
                || (step == Resume && s.local.at == Holding))
  }

  lemma OthersDoNotTake(codec: Codec, s: State, step: Step)
    requires Enabled(s, step) && !s.local.at.Took? && step != Wake && step != Resume
    ensures !Next(codec, s, step).local.at.Took?
  {
    hide Published, Committing, SC.Validate, WellFormed, Render, Taken, Woken, Resumed;
  }

  /** The two waits together take no frame before the deadline: an early wake only holds. */
  lemma TakesOnlyWhenDue(codec: Codec, s: State, step: Step)
    requires Enabled(s, step) && !s.local.at.Took?
    ensures Next(codec, s, step).local.at.Took? <==> Takes(s, step)
    ensures Takes(s, step) ==> s.clock >= s.local.nextWrite && Next(codec, s, step) == OnDesk(s, Taken(DeskOf(s)))
    ensures step == Wake && !s.stop && s.clock < s.local.nextWrite ==>
              Next(codec, s, step) == s.(local := s.local.(at := Holding))
  {
    hide Next, Enabled;
    match step
    case Wake => WakeMeans(codec, s);
    case Resume => ResumeMeans(codec, s);
    case _ => OthersDoNotTake(codec, s, step);
  }

  /**
   Whatever other threads do between the writer's lock and its rendering, the iteration consumes exactly the
   generation that was latest under the lock, and any output is the rendering of that generation's frame.
   */
  lemma IterationConsumesLatest(codec: Codec, s: State, take: Step, between: seq<Step>)
    requires Inv(codec, s) && Enabled(s, take) && Takes(s, take)
    requires Transform !in between && Continue(codec, Next(codec, s, take), between).Some?
    ensures var t := Continue(codec, Next(codec, s, take), between).value;
            && Enabled(t, Transform)
            && var u := Next(codec, t, Transform);
               && u.local.consumed == s.shared.generation && s.shared.generation >= 1
               && s.shared.latest == Some(s.history.published[s.shared.generation - 1])
               && u.local.at == Rendered
               && u.local.output
                  == if s.shared.generation == s.local.consumed then s.local.output
                     else Written(Render(codec, s.shared.config, s.shared.latest.value))
  {
    hide Inv, Render, Continue, Takes;
    var taken := Next(codec, s, take);
    TakeIsLatest(codec, s, take);
    StepKeepsInv(codec, s, take);
    TakenSurvives(codec, taken, between);
    var t := Continue(codec, taken, between).value;
    ConsumedIsTaken(codec, t);
  }

  lemma TakeIsLatest(codec: Codec, s: State, take: Step)
    requires Inv(codec, s) && Enabled(s, take) && Takes(s, take)
    ensures s.shared.generation >= 1 && |s.history.published| == s.shared.generation
    ensures s.shared.latest == Some(s.history.published[s.shared.generation - 1])
    ensures Next(codec, s, take).local.at == Took(s.shared.latest, s.shared.generation)
    ensures Next(codec, s, take).history == s.history && Next(codec, s, take).shared.config == s.shared.config
  {
    hide Sound, Accounts, Fresh, WritesOrdered, WrittenCounted, Paced, Next, Enabled;
    WakeMeans(codec, s);
    ResumeMeans(codec, s);
  }

  lemma ConsumedIsTaken(codec: Codec, t: State)
    requires Inv(codec, t) && t.local.at.Took?
    ensures t.local.at.frame.Some?
    ensures var u := Next(codec, t, Transform);
            && u.local.consumed == t.local.at.generation && u.local.at == Rendered
            && u.local.output
               == if t.local.at.generation == t.local.consumed then t.local.output
                  else Written(Render(codec, t.shared.config, t.local.at.frame.value))
  {
    hide Sound, Accounts, WritesOrdered, WrittenCounted, Paced, Render, Next;
    TransformMeans(codec, t);
  }

  /** What an iteration holds after its rendering is written in that very iteration, or nothing is. */
  lemma WhatIsHeldIsWritten(codec: Codec, u: State, ok: bool)
    requires Enabled(u, ReadClock)
    ensures var v := Next(codec, u, ReadClock);
            && (u.local.output == [] ==> v.local.at == AtHead && !Enabled(v, Write(ok)))
            && (u.local.output != [] ==>
                  && Enabled(v, Write(ok))
                  && Next(codec, v, Write(ok)).history.writes
                     == u.history.writes + if ok then [Sample(u.local.consumed, u.local.output)] else [])
  {
    hide Next;
    ReadClockMeans(codec, u);
    WriteMeans(codec, Next(codec, u, ReadClock), ok);
  }

  // ----- Sessions

  /** How many sessions the steps have committed. */
  function Commits(steps: seq<Step>): nat
  {
    if steps == [] then 0
    else Commits(steps[..|steps| - 1]) + if steps[|steps| - 1].Commit? then 1 else 0
  }

  /** The frame was admitted by step i, in the session its tag names. */
  predicate AdmittedAt(steps: seq<Step>, i: nat, a: Admitted)
    requires i < |steps|
  {
    steps[i] == Admit(a.frame) && Commits(steps[..i]) == a.session
  }

  ghost predicate AdmittedIn(steps: seq<Step>, a: Admitted)
  {
    exists i :: 0 <= i < |steps| && AdmittedAt(steps, i, a)
  }

  lemma StepMovesSession(codec: Codec, s: State, step: Step)
    requires Enabled(s, step)
    ensures Next(codec, s, step).session == s.session + if step.Commit? then 1 else 0
    ensures forall a :: a in Next(codec, s, step).inFlight ==>
              a in s.inFlight || (step == Admit(a.frame) && a.session == s.session)
  {
    hide Published, Committing, Taken, Transformed, SC.Validate, WellFormed;
  }

  /** The session counter counts commits, and every frame in flight was admitted by an earlier step. */
  lemma {:induction false} SessionsAreCommits(codec: Codec, steps: seq<Step>)
    requires After(codec, steps).Some?
    ensures After(codec, steps).value.session == Commits(steps)
    ensures forall a :: a in After(codec, steps).value.inFlight ==> AdmittedIn(steps, a)
    decreases |steps|
  {
    hide Next, Enabled;
    if steps == [] {
    } else {
      var front, step := steps[..|steps| - 1], steps[|steps| - 1];
      var before := After(codec, front).value;
      SessionsAreCommits(codec, front);
      StepMovesSession(codec, before, step);
      forall a | a in After(codec, steps).value.inFlight ensures AdmittedIn(steps, a) {
        if a in before.inFlight {
          var i :| 0 <= i < |front| && AdmittedAt(front, i, a);
          assert front[..i] == steps[..i];
          assert AdmittedAt(steps, i, a);
        } else {
          assert AdmittedAt(steps, |front|, a);
        }
      }
    }
  }

  lemma {:induction false} CommitsGrow(steps: seq<Step>, i: nat, j: nat)
    requires i <= j <= |steps|
    ensures Commits(steps[..i]) <= Commits(steps[..j])
    ensures Commits(steps[..i]) == Commits(steps[..j]) <==> forall k :: i <= k < j ==> !steps[k].Commit?
    decreases j
  {
    if i == j {
    } else {
      CommitsGrow(steps, i, j - 1);
      assert steps[..j][..j - 1] == steps[..j - 1];
    }
  }

  /**
   Every frame pushed was admitted by an earlier step, and it is published in the session that admitted it iff no
   new session was committed between the two.
   */
  lemma PublishedInItsSession(codec: Codec, steps: seq<Step>, j: nat)
    requires After(codec, steps).Some? && j < |steps| && steps[j].Publish?
    ensures var a := steps[j].admitted;
            && AdmittedIn(steps[..j], a) && After(codec, steps[..j]).Some?
            && forall i :: 0 <= i < j && AdmittedAt(steps, i, a) ==>
                 (After(codec, steps[..j]).value.session == a.session
                  <==> forall k :: i < k < j ==> !steps[k].Commit?)
  {
    hide Next;
    var a := steps[j].admitted;
    PrefixRuns(codec, steps, j);
    SessionsAreCommits(codec, steps[..j]);
    forall i | 0 <= i < j && AdmittedAt(steps, i, a)
      ensures After(codec, steps[..j]).value.session == a.session <==> forall k :: i < k < j ==> !steps[k].Commit? {
      CommitsGrow(steps, i, j);
    }
  }

  /** One frame thread: it admits a frame only when the last one has been published. */
  ghost predicate OnePusher(codec: Codec, steps: seq<Step>)
    requires After(codec, steps).Some?
  {
    forall k :: 0 <= k < |steps| && steps[k].Admit? ==>
                  After(codec, steps[..k]).Some? && After(codec, steps[..k]).value.inFlight == multiset{}
  }

  lemma StepMovesFrames(codec: Codec, s: State, step: Step)
    requires Enabled(s, step)
    ensures Next(codec, s, step).inFlight
            == match step
               case Admit(frame) => s.inFlight + multiset{Admitted(frame, s.session)}
               case Publish(a) => s.inFlight - multiset{a}
               case _ => s.inFlight
    ensures step.Publish? ==> step.admitted in s.inFlight
  {
    hide Published, Committing, Taken, Transformed, SC.Validate, WellFormed;
  }

  lemma LastOne<T>(m: multiset<T>, a: T)
    requires |m| <= 1 && a in m
    ensures m - multiset{a} == multiset{}
  {
    assert m == (m - multiset{a}) + multiset{a};
    assert |m| == |m - multiset{a}| + 1;
  }

  lemma {:induction false} AtMostOneInFlight(codec: Codec, steps: seq<Step>, n: nat)
    requires After(codec, steps).Some? && OnePusher(codec, steps) && n <= |steps|
    ensures After(codec, steps[..n]).Some? && |After(codec, steps[..n]).value.inFlight| <= 1
    decreases n
  {
    hide Next, Enabled, After;
    PrefixRuns(codec, steps, n);
    AfterNothingIsInitial(codec);
    if n == 0 {
    } else {
      AtMostOneInFlight(codec, steps, n - 1);
      PrefixRuns(codec, steps, n - 1);
      var before, step := After(codec, steps[..n - 1]).value, steps[n - 1];
      StepMovesFrames(codec, before, step);
      if step.Publish? {
        LastOne(before.inFlight, step.admitted);
      }
    }
  }

  lemma LaterSession(codec: Codec, steps: seq<Step>, k: nat, n: nat)
    requires After(codec, steps).Some? && k < n <= |steps| && steps[k].Commit?
    ensures After(codec, steps[..k]).Some? && After(codec, steps[..n]).Some?
    ensures After(codec, steps[..n]).value.session > After(codec, steps[..k]).value.session
  {
    hide After, Commits;
    PrefixRuns(codec, steps, k);
    PrefixRuns(codec, steps, n);
    SessionsAreCommits(codec, steps[..k]);
    SessionsAreCommits(codec, steps[..n]);
    CommitsGrow(steps, k, n);
  }

  /** The frame published by step j was admitted before step k. */
  predicate Crosses(steps: seq<Step>, k: nat, j: nat)
    requires k < j < |steps| && steps[j].Publish?
  {
    steps[j].admitted.session <= Commits(steps[..k])
  }

  /** Publishing the frame in flight leaves none. */
  lemma PublishEmpties(codec: Codec, steps: seq<Step>, i: nat)
    requires After(codec, steps).Some? && OnePusher(codec, steps) && i < |steps| && steps[i].Publish?
    ensures After(codec, steps[..i + 1]).Some? && After(codec, steps[..i + 1]).value.inFlight == multiset{}
  {
    hide Next, Enabled, After;
    AtMostOneInFlight(codec, steps, i);
    PrefixRuns(codec, steps, i);
    var before := After(codec, steps[..i]).value;
    StepMovesFrames(codec, before, steps[i]);
    LastOne(before.inFlight, steps[i].admitted);
  }

  /** With one frame thread, as the daemon has, each commit is crossed by at most one pushed frame. */
  lemma OneFrameCrosses(codec: Codec, steps: seq<Step>, k: nat, i: nat, j: nat)
    requires After(codec, steps).Some? && OnePusher(codec, steps)
    requires k < i < j < |steps| && steps[k].Commit? && steps[i].Publish? && steps[j].Publish?
    ensures !(Crosses(steps, k, i) && Crosses(steps, k, j))
  {
    hide Next, Enabled, Commits, After;
    PublishEmpties(codec, steps, i);
    NothingLeft(codec, steps, k, i + 1, j);
    PrefixRuns(codec, steps, j);
    StepMovesFrames(codec, After(codec, steps[..j]).value, steps[j]);
    SessionsAreCommits(codec, steps[..k]);
  }

  /** Once the leftover is published, all later frames in flight belong to later sessions. */
  lemma {:induction false} NothingLeft(codec: Codec, steps: seq<Step>, k: nat, m: nat, n: nat)
    requires After(codec, steps).Some? && OnePusher(codec, steps)
    requires k < m <= n <= |steps| && steps[k].Commit?
    requires After(codec, steps[..m]).Some? && After(codec, steps[..m]).value.inFlight == multiset{}
    ensures After(codec, steps[..k]).Some? && After(codec, steps[..n]).Some?
    ensures forall a :: a in After(codec, steps[..n]).value.inFlight ==>
                          a.session > After(codec, steps[..k]).value.session
    decreases n
  {
    hide Next, Enabled;
    PrefixRuns(codec, steps, k);
    PrefixRuns(codec, steps, n);
    if m == n {
    } else {
      NothingLeft(codec, steps, k, m, n - 1);
      PrefixRuns(codec, steps, n - 1);
      LaterSession(codec, steps, k, n - 1);
      StepMovesSession(codec, After(codec, steps[..n - 1]).value, steps[n - 1]);
    }
  }

  lemma Extend(codec: Codec, steps: seq<Step>, s: State, step: Step)
    requires After(codec, steps) == Some(s) && Enabled(s, step)
    ensures After(codec, steps + [step]) == Some(Next(codec, s, step))
  {
    hide Next, Enabled;
    assert (steps + [step])[..|steps|] == steps;
  }

  /** From a Stop whose threads are gone to the commit of the next session. */
  lemma StopToCommit(codec: Codec, steps: seq<Step>, s: State, c: SC.Config) returns (more: seq<Step>, t: State)
    requires After(codec, steps) == Some(s)
    requires s.control == StopAsked(Some(c)) && !WriterLives(s.local.at) && !s.sourceAlive
    ensures After(codec, more) == Some(t)
    ensures t.control == Committed && t.local.at == NoWriter && !t.sourceAlive && !t.stop
    ensures t.session == s.session + 1 && t.inFlight == s.inFlight
    ensures t.shared.config == c && t.shared.status.running && t.history.published == [StartFrame(c)]
  {
    hide After, StartFrame, Next, Enabled;
    JoinMeans(codec, s);
    var steps1, s1 := steps + [Join], Next(codec, s, Join);
    Extend(codec, steps, s, Join);
    FinishStopMeans(codec, s1);
    var steps2, s2 := steps1 + [FinishStop], Next(codec, s1, FinishStop);
    Extend(codec, steps1, s1, FinishStop);
    OpenSinkMeans(codec, s2, true);
    var steps3, s3 := steps2 + [OpenSink(true)], Next(codec, s2, OpenSink(true));
    Extend(codec, steps2, s2, OpenSink(true));
    CommitMeans(codec, s3);
    more, t := steps3 + [Commit], Next(codec, s3, Commit);
    Extend(codec, steps3, s3, Commit);
  }

  /** A new session's writer is created, and a frame admitted. */
  lemma CreateAndAdmit(codec: Codec, steps: seq<Step>, s: State, f: Frame) returns (more: seq<Step>, t: State)
    requires After(codec, steps) == Some(s) && WellFormed(f)
    requires IsLocal(s.shared.config) && s.control == Committed && s.shared.status.running
    ensures After(codec, more) == Some(t)
    ensures t.control == Free && t.local.at == Created && t.sourceAlive == s.sourceAlive && t.shared == s.shared
    ensures t.session == s.session && t.inFlight == s.inFlight + multiset{Admitted(f, s.session)}
  {
    hide After, WellFormed, Next, Enabled;
    CreateWriterMeans(codec, s, true);
    var steps1, s1 := steps + [CreateWriter(true)], Next(codec, s, CreateWriter(true));
    Extend(codec, steps, s, CreateWriter(true));
    AdmitMeans(codec, s1, f);
    more, t := steps1 + [Admit(f)], Next(codec, s1, Admit(f));
    Extend(codec, steps1, s1, Admit(f));
  }

  /** A session whose writer has not begun is stopped for another with the same configuration. */
  lemma StopAtOnce(codec: Codec, steps: seq<Step>, s: State) returns (more: seq<Step>, t: State)
    requires After(codec, steps) == Some(s) && s.control == Free && s.local.at == Created
    requires SC.Validate(s.shared.config).Success?
    ensures After(codec, more) == Some(t)
    ensures t.control == StopAsked(Some(s.shared.config)) && t.local.at == Finished && t.sourceAlive == s.sourceAlive
    ensures t.session == s.session && t.inFlight == s.inFlight
  {
    hide After, SC.Validate, Next, Enabled;
    var ask := AskStop(Some(s.shared.config));
    AskStopMeans(codec, s, Some(s.shared.config));
    var steps1, s1 := steps + [ask], Next(codec, s, ask);
    Extend(codec, steps, s, ask);
    BeginMeans(codec, s1);
    var steps2, s2 := steps1 + [Begin], Next(codec, s1, Begin);
    Extend(codec, steps1, s1, Begin);
    WriterExitMeans(codec, s2);
    more, t := steps2 + [WriterExit], Next(codec, s2, WriterExit);
    Extend(codec, steps2, s2, WriterExit);
  }

  /** Some runs fail the condition: any well-formed frame can be admitted in one session and published in the next. */
  lemma FrameCrossesSessions(codec: Codec, c: SC.Config, f: Frame) returns (steps: seq<Step>, j: nat)
    requires SC.Validate(c).Success? && IsLocal(c) && WellFormed(f) && Acceptable(f)
    ensures After(codec, steps).Some? && j == |steps| - 1 && steps[j] == Publish(Admitted(f, 1))
    ensures After(codec, steps[..j]).Some? && After(codec, steps[..j]).value.session == 2
    ensures After(codec, steps).value.history.published == [StartFrame(c), f]
  {
    hide After, SC.Validate, WellFormed, StartFrame, Acceptable, Next, Enabled;
    var start := AskStop(Some(c));
    AfterNothingIsInitial(codec);
    AskStopMeans(codec, INITIAL, Some(c));
    Extend(codec, [], INITIAL, start);
    var first, s1 := StopToCommit(codec, [] + [start], Next(codec, INITIAL, start), c);
    var second, s2 := CreateAndAdmit(codec, first, s1, f);
    var third, s3 := StopAtOnce(codec, second, s2);
    var fourth, s4 := StopToCommit(codec, third, s3, c);
    var publish := Publish(Admitted(f, 1));
    PublishMeans(codec, s4, Admitted(f, 1));
    Extend(codec, fourth, s4, publish);
    steps, j := fourth + [publish], |fourth|;
    assert steps[..j] == fourth;
  }

  lemma AfterNothingIsInitial(codec: Codec)
    ensures After(codec, []) == Some(INITIAL)
  {
  }

  /** Such a configuration and such a frame exist. */
  lemma LocalConfigExists() returns (c: SC.Config, f: Frame)
    ensures SC.Validate(c).Success? && IsLocal(c) && WellFormed(f) && Acceptable(f)
  {
    c, f := SC.DEFAULT.(url := SC.LOCAL), JpegFrame([0xff, 0xd8, 0xff, 0xd9]);
    SC.DefaultsAreSafe();
  }
}
