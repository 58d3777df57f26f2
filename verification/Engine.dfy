/**
 The engine object: the fields its mutex guards, the writer thread's variables, and one method per critical
 section. `trace` lists the steps made so far, and Valid() says that the fields are the state they lead to, so a
 method's contract is the step it appends, and the theorems about runs hold of the object.
 */
module Engine {
  import opened Bytes
  import opened FrameLimits
  import opened Nv21Geometry
  import opened ImageTransform
  import opened Pacing
  import opened EngineSteps
  import JpegHeader
  import SC = StartCommand

  class Engine {
    const codec: Codec

    var status: Status
    var latestFrame: Option<Frame>
    var latestGeneration: nat
    var config: SC.Config
    var stopRequested: bool

    // The writer thread.
    var at: Writer
    var consumedGeneration: nat
    var outputJpeg: seq<byte>
    var nextWrite: int

    // The other threads, and the clock.
    var control: Control
    var sourceAlive: bool
    var clock: int

    // Frames past their activity test, sessions, and all that happened.
    ghost var inFlight: multiset<Admitted>
    ghost var session: nat
    ghost var history: History
    ghost var trace: seq<Step>

    constructor (codec: Codec)
      ensures Valid() && trace == [] && this.codec == codec
    {
      this.codec := codec;
      status, latestFrame, latestGeneration := Status(false, false, 0, 0, 0), None, 0;
      config, stopRequested := SC.DEFAULT, false;
      at, consumedGeneration, outputJpeg, nextWrite := NoWriter, 0, [], 0;
      control, sourceAlive, clock := Free, false, 0;
      inFlight, session, trace := multiset{}, 0, [];
      history := History([], 0, 0, [], 0, [], true, 0);
      new;
      AfterNothingIsInitial(codec);
    }

    ghost function View(): State
      reads this
    {
      State(Shared(status, latestFrame, latestGeneration, config),
            Local(at, consumedGeneration, outputJpeg, nextWrite),
            control, stopRequested, sourceAlive, inFlight, session, clock, history)
    }

    ghost predicate Valid()
      reads this
    {
      After(codec, trace) == Some(View())
    }

    /** Afterwards the trace is one step longer, and the fields are what that step makes of them. */
    ghost method Record(before: State, step: Step)
      requires After(codec, trace) == Some(before) && Enabled(before, step) && View() == Next(codec, before, step)
      modifies this`trace
      ensures Valid() && trace == old(trace) + [step]
    {
      hide EngineSteps.After, EngineSteps.Next, EngineSteps.Enabled;
      Extend(codec, trace, before, step);
      trace := trace + [step];
    }

    // ----- What holds of the object at any moment

    /** Every frame is received, rejected or still to be seen, and counted once as dropped or rendered. */
    lemma Accounting()
      requires Valid()
      ensures latestGeneration >= 1 ==> latestGeneration == status.received + 1
      ensures at == AtHead || at == Waiting || at == Holding ==>
                consumedGeneration <= latestGeneration
                && status.received + 1 + history.rejected
                   == status.dropped + history.rendered + (latestGeneration - consumedGeneration)
    {
      hide EngineSteps.After;
      FrameAccounting(codec, trace);
    }

    /** Every byte string on the device is the rendering of a published frame, in order; the counter counts them. */
    lemma Freshness()
      requires Valid()
      ensures forall w :: w in history.writes ==> Genuine(codec, config, history.published, w)
      ensures forall i, j :: 0 <= i < j < |history.writes| ==>
                history.writes[i].generation <= history.writes[j].generation
      ensures |history.writes| == status.written + if at.Sent? && at.ok then 1 else 0
    {
      hide EngineSteps.After, EngineSteps.Genuine;
      WritesAreFreshAndOrdered(codec, trace);
    }

    /** No iteration is early, and no stretch of iterations catches up by more than two intervals. */
    lemma Pace(i: nat, j: nat)
      requires Valid() && i < |history.ticks|
      ensures history.ticks[i] >= history.start + i * Interval(config)
      ensures i < j < |history.ticks| ==> history.ticks[j] - history.ticks[i] >= (j - i - 2) * Interval(config)
    {
      hide EngineSteps.After, EngineSteps.Interval;
      WriterIsPaced(codec, trace, i, j);
    }

    // ----- Producers

    /** The activity and metadata tests of PushFrame and PushNv21Frame. */
    method AdmitFrame(frame: Frame) returns (admitted: bool)
      requires Valid()
      modifies this`inFlight, this`trace
      ensures admitted <==> old(status.running && config.url == SC.LOCAL) && WellFormed(frame)
      ensures Valid() && trace == old(trace) + if admitted then [Admit(frame)] else []
    {
      hide EngineSteps.After, EngineSteps.Next, EngineSteps.Enabled, EngineSteps.WellFormed;
      ghost var before := View();
      AdmitMeans(codec, before, frame);
      if !status.running || config.url != SC.LOCAL {
        return false;
      }
      if !WellFormed(frame) {
        return false;
      }
      inFlight := inFlight + multiset{Admitted(frame, session)};
      Record(before, Admit(frame));
      return true;
    }

    method PublishFrame(frame: Frame)
      modifies this`status, this`latestFrame, this`latestGeneration, this`history
      ensures View() == OnBoard(old(View()), Published(BoardOf(old(View())), frame))
    {
      hide EngineSteps.Published;
      PublishedCases(BoardOf(View()), frame);
      if |frame.payload| < 4 || |frame.payload| > MAX_FRAME_BYTES {
        status := status.(dropped := status.dropped + 1);
        history := history.(rejected := history.rejected + 1);
        return;
      }
      latestFrame := Some(frame);
      latestGeneration := latestGeneration + 1;
      status := status.(received := status.received + 1);
      history := history.(published := history.published + [frame]);
    }

    /** The second half of a push, possibly in a later session than the first. */
    method PublishPushed(frame: Frame, ghost admittedIn: nat)
      requires Valid() && Admitted(frame, admittedIn) in inFlight
      modifies this`status, this`latestFrame, this`latestGeneration, this`history, this`inFlight, this`trace
      ensures Valid() && trace == old(trace) + [Publish(Admitted(frame, admittedIn))]
    {
      hide EngineSteps.After, EngineSteps.Next, EngineSteps.Enabled, EngineSteps.Published;
      ghost var before := View();
      PublishMeans(codec, before, Admitted(frame, admittedIn));
      PublishFrame(frame);
      inFlight := inFlight - multiset{Admitted(frame, admittedIn)};
      Record(before, Publish(Admitted(frame, admittedIn)));
    }

    method PublishFromSource(frame: Frame)
      requires Valid() && sourceAlive
      modifies this`status, this`latestFrame, this`latestGeneration, this`history, this`trace
      ensures Valid() && trace == old(trace) + [SourcePublish(frame)]
    {
      hide EngineSteps.After, EngineSteps.Next, EngineSteps.Enabled, EngineSteps.Published;
      ghost var before := View();
      SourcePublishMeans(codec, before, frame);
      PublishFrame(frame);
      Record(before, SourcePublish(frame));
    }

    /** The source thread ends once it sees the stop. */
    method LeaveSourceLoop()
      requires Valid() && sourceAlive && stopRequested
      modifies this`sourceAlive, this`trace
      ensures Valid() && trace == old(trace) + [SourceExit]
    {
      hide EngineSteps.After, EngineSteps.Next, EngineSteps.Enabled;
      ghost var before := View();
      SourceExitMeans(codec, before);
      sourceAlive := false;
      Record(before, SourceExit);
    }

    method TimePasses(time: int)
      requires Valid() && time >= clock
      modifies this`clock, this`trace
      ensures Valid() && trace == old(trace) + [Advance(time)]
    {
      hide EngineSteps.After, EngineSteps.Next, EngineSteps.Enabled;
      ghost var before := View();
      AdvanceMeans(codec, before, time);
      clock := time;
      Record(before, Advance(time));
    }

    // ----- The writer loop, section by section

    method BeginWriting()
      requires Valid() && at == Created
      modifies this`at, this`nextWrite, this`history, this`trace
      ensures Valid() && trace == old(trace) + [Begin]
    {
      hide EngineSteps.After, EngineSteps.Next, EngineSteps.Enabled;
      ghost var before := View();
      BeginMeans(codec, before);
      nextWrite := clock;
      history := history.(start := nextWrite);
      at := AtHead;
      Record(before, Begin);
    }

    /** The loop head: leave on a stop, else wait. */
    method LoopHead()
      requires Valid() && at == AtHead
      modifies this`at, this`trace
      ensures Valid() && trace == old(trace) + [if old(stopRequested) then WriterExit else EnterWait]
    {
      hide EngineSteps.After, EngineSteps.Next, EngineSteps.Enabled;
      ghost var before := View();
      EnterWaitMeans(codec, before);
      WriterExitMeans(codec, before);
      if stopRequested {
        at := Finished;
        Record(before, WriterExit);
      } else {
        at := Waiting;
        Record(before, EnterWait);
      }
    }

    /** After the first wait, on a stop, a new frame or the deadline: leave, hold, or take. */
    method WakeUp()
      requires Valid() && at == Waiting
      requires stopRequested || clock >= nextWrite || (outputJpeg == [] && latestGeneration != consumedGeneration)
      modifies this`status, this`at, this`trace
      ensures Valid() && trace == old(trace) + [Wake]
    {
      hide EngineSteps.After, EngineSteps.Next, EngineSteps.Enabled, EngineSteps.Taken;
      ghost var before := View();
      WakeMeans(codec, before);
      var beforeTick := clock;
      if stopRequested {
        at := Finished;
      } else if beforeTick < nextWrite {
        at := Holding;
      } else {
        TakeLatest();
      }
      Record(before, Wake);
    }

    /** After the second wait, on a stop or the deadline: leave or take. */
    method ResumeAtDeadline()
      requires Valid() && at == Holding && (stopRequested || clock >= nextWrite)
      modifies this`status, this`at, this`trace
      ensures Valid() && trace == old(trace) + [Resume]
    {
      hide EngineSteps.After, EngineSteps.Next, EngineSteps.Enabled, EngineSteps.Taken;
      ghost var before := View();
      ResumeMeans(codec, before);
      if stopRequested {
        at := Finished;
      } else {
        TakeLatest();
      }
      Record(before, Resume);
    }

    method TakeLatest()
      modifies this`status, this`at
      ensures View() == OnDesk(old(View()), Taken(DeskOf(old(View()))))
    {
      var generation := latestGeneration;
      at := Took(latestFrame, generation);
      if generation > consumedGeneration + 1 {
        status := status.(dropped := status.dropped + (generation - consumedGeneration - 1));
      }
    }

    /** The rendering itself, on an immutable frame and configuration; it changes no field. */
    method RenderFrame(frame: Frame) returns (jpeg: Option<seq<byte>>)
      ensures jpeg == Render(codec, config, frame)
    {
      hide ImageTransform.JpegTransformed, ImageTransform.Nv21Transformed;
      var size, orientation := Size(config.width, config.height), Orientation(config.rotation, config.mirror);
      var nv21: Result<array<byte>, TransformError>;
      match frame {
      case JpegFrame(payload) =>
        var dimensions := JpegHeader.ReadJpegDimensions(payload);
        if dimensions.Some? && dimensions.value.width == config.width && dimensions.value.height == config.height
           && config.rotation == 0 && !config.mirror {
          HeaderMeansBytes(payload);
          return Some(payload);
        }
        nv21 := TransformJpegToNv21(payload, codec.Decoded(payload), size, orientation);
      case Nv21Frame(payload, sourceSize) =>
        nv21 := TransformNv21(payload, sourceSize, size, orientation);
      }
      if nv21.Failure? {
        return None;
      }
      jpeg := codec.encode(nv21.value[..], size);
    }

    method TransformTaken()
      requires Valid() && at.Took?
      modifies this`status, this`at, this`consumedGeneration, this`outputJpeg, this`history, this`trace
      ensures Valid() && trace == old(trace) + [Transform]
    {
      hide EngineSteps.After, EngineSteps.Next, EngineSteps.Enabled, EngineSteps.Render;
      ghost var before := View();
      TransformMeans(codec, before);
      var sourceFrame, generation := at.frame, at.generation;
      if sourceFrame.Some? && generation != consumedGeneration {
        var jpeg := RenderFrame(sourceFrame.value);
        if jpeg.Some? {
          outputJpeg := jpeg.value;
          history := history.(rendered := history.rendered + 1);
        } else {
          status := status.(dropped := status.dropped + 1);
          outputJpeg := [];
        }
        consumedGeneration := generation;
      }
      at := Rendered;
      Record(before, Transform);
    }

    method FrameInterval() returns (interval: nat)
      ensures interval == Interval(config)
    {
      interval := if config.fps > 0 then 1_000_000_000 / config.fps else 0;
    }

    method ReadTheClock()
      requires Valid() && at == Rendered
      modifies this`at, this`nextWrite, this`history, this`trace
      ensures Valid() && trace == old(trace) + [ReadClock]
    {
      hide EngineSteps.After, EngineSteps.Next, EngineSteps.Enabled, EngineSteps.Interval;
      ghost var before := View();
      ReadClockMeans(codec, before);
      var now := clock;
      var interval := FrameInterval();
      history := history.(ticks := history.ticks + [now]);
      if outputJpeg == [] {
        nextWrite := now + interval;
        at := AtHead;
      } else {
        at := Sending(now);
      }
      Record(before, ReadClock);
    }

    method WriteToSink(accepted: bool)
      requires Valid() && at.Sending?
      modifies this`at, this`history, this`trace
      ensures Valid() && trace == old(trace) + [Write(accepted)]
    {
      hide EngineSteps.After, EngineSteps.Next, EngineSteps.Enabled;
      ghost var before := View();
      WriteMeans(codec, before, accepted);
      history := history.(deviceOk := accepted);
      if accepted {
        history := history.(writes := history.writes + [Sample(consumedGeneration, outputJpeg)]);
      } else {
        history := history.(refusals := history.refusals + 1);
      }
      at := Sent(at.now, accepted);
      Record(before, Write(accepted));
    }

    method AccountForWrite()
      requires Valid() && at.Sent?
      modifies this`status, this`at, this`nextWrite, this`trace
      ensures Valid() && trace == old(trace) + [Account]
    {
      hide EngineSteps.After, EngineSteps.Next, EngineSteps.Enabled, EngineSteps.Interval;
      ghost var before := View();
      AccountMeans(codec, before);
      var now := at.now;
      var interval := FrameInterval();
      if at.ok {
        status := status.(sinkOpen := true, written := status.written + 1);
        nextWrite := nextWrite + interval;
        if nextWrite < now - interval {
          nextWrite := now + interval;
        }
      } else {
        status := status.(sinkOpen := false);
        nextWrite := now + interval;
      }
      at := AtHead;
      Record(before, Account);
    }

    // ----- Starting and stopping

    /** The beginning of a Start: an invalid configuration is refused before anything is touched. */
    method BeginStart(target: SC.Config) returns (valid: bool)
      requires Valid() && control == Free
      modifies this`stopRequested, this`control, this`trace
      ensures valid <==> SC.Validate(target).Success?
      ensures Valid() && trace == old(trace) + if valid then [AskStop(Some(target))] else []
    {
      hide EngineSteps.After, EngineSteps.Next, EngineSteps.Enabled, SC.Validate;
      ghost var before := View();
      AskStopMeans(codec, before, Some(target));
      if SC.Validate(target).Failure? {
        return false;
      }
      stopRequested, control := true, StopAsked(Some(target));
      Record(before, AskStop(Some(target)));
      return true;
    }

    method BeginStop()
      requires Valid() && control == Free
      modifies this`stopRequested, this`control, this`trace
      ensures Valid() && trace == old(trace) + [AskStop(None)]
    {
      hide EngineSteps.After, EngineSteps.Next, EngineSteps.Enabled;
      ghost var before := View();
      AskStopMeans(codec, before, None);
      stopRequested, control := true, StopAsked(None);
      Record(before, AskStop(None));
    }

    /** Both joins return only when their threads have ended. */
    method JoinThreads()
      requires Valid() && control.StopAsked? && !WriterLives(at) && !sourceAlive
      modifies this`at, this`control, this`trace
      ensures Valid() && trace == old(trace) + [Join]
    {
      hide EngineSteps.After, EngineSteps.Next, EngineSteps.Enabled;
      ghost var before := View();
      JoinMeans(codec, before);
      at, control := NoWriter, Joined(control.target);
      Record(before, Join);
    }

    method FinishStopping()
      requires Valid() && control.Joined?
      modifies this`status, this`latestFrame, this`control, this`trace
      ensures Valid() && trace == old(trace) + [FinishStop]
    {
      hide EngineSteps.After, EngineSteps.Next, EngineSteps.Enabled;
      ghost var before := View();
      FinishStopMeans(codec, before);
      status := status.(running := false, sinkOpen := false);
      latestFrame := None;
      control := if control.target.Some? then Opening(control.target.value) else Free;
      Record(before, FinishStop);
    }

    method OpenDevice(ok: bool)
      requires Valid() && control.Opening?
      modifies this`control, this`trace
      ensures Valid() && trace == old(trace) + [OpenSink(ok)]
    {
      hide EngineSteps.After, EngineSteps.Next, EngineSteps.Enabled;
      ghost var before := View();
      OpenSinkMeans(codec, before, ok);
      control := if ok then Opened(control.config) else Free;
      Record(before, OpenSink(ok));
    }

    method CommitStart()
      requires Valid() && control.Opened?
      modifies this`config, this`status, this`latestFrame, this`latestGeneration, this`stopRequested, this`control,
               this`session, this`history, this`trace
      ensures Valid() && trace == old(trace) + [Commit]
    {
      hide EngineSteps.After, EngineSteps.Next, EngineSteps.Enabled, EngineSteps.Committing;
      ghost var before := View();
      CommitMeans(codec, before);
      InstallSession(control.config);
      stopRequested, control := false, Committed;
      session := session + 1;
      Record(before, Commit);
    }

    /** A new session's configuration, counters and first frame. */
    method InstallSession(c: SC.Config)
      modifies this`config, this`status, this`latestFrame, this`latestGeneration, this`history
      ensures View() == OnBoard(old(View()), Committing(c, old(clock)))
    {
      hide EngineSteps.StartFrame;
      config, status := c, Status(true, true, 0, 0, 0);
      latestFrame, latestGeneration := Some(StartFrame(c)), 1;
      history := History([StartFrame(c)], 0, 0, [], clock, [], true, 0);
    }

    method CreateWriterThread(created: bool)
      requires Valid() && control == Committed
      modifies this`at, this`consumedGeneration, this`outputJpeg, this`nextWrite, this`stopRequested, this`control,
               this`trace
      ensures Valid() && trace == old(trace) + [CreateWriter(created)]
    {
      hide EngineSteps.After, EngineSteps.Next, EngineSteps.Enabled;
      ghost var before := View();
      CreateWriterMeans(codec, before, created);
      if created {
        at, consumedGeneration, outputJpeg, nextWrite := Created, 0, [], 0;
        control := if config.url != SC.LOCAL && config.url != SC.PLACEHOLDER then SourceDue else Free;
      } else {
        stopRequested, control := true, StopAsked(None);
      }
      Record(before, CreateWriter(created));
    }

    /** The writer may already have run; a failure here stops it. */
    method CreateSourceThread(created: bool)
      requires Valid() && control == SourceDue
      modifies this`sourceAlive, this`stopRequested, this`control, this`trace
      ensures Valid() && trace == old(trace) + [CreateSource(created)]
    {
      hide EngineSteps.After, EngineSteps.Next, EngineSteps.Enabled;
      ghost var before := View();
      CreateSourceMeans(codec, before, created);
      if created {
        sourceAlive, control := true, Free;
      } else {
        stopRequested, control := true, StopAsked(None);
      }
      Record(before, CreateSource(created));
    }

    /**
     What the wait for the first frame returns once it is over: yes when the device took the rendering of a published
     frame, no only on a timeout, without a session, or after a device failure.
     */
    method WaitForFirstFrameWritten(timedOut: bool) returns (ok: bool)
      requires Valid() && (timedOut || status.written > 0 || !status.running || !status.sinkOpen)
      ensures ok ==> history.writes != [] && Genuine(codec, config, history.published, history.writes[0])
      ensures !ok ==> timedOut || !status.running || history.refusals > 0
      ensures !ok ==> |history.writes| == if at.Sent? && at.ok then 1 else 0
    {
      hide EngineSteps.After, EngineSteps.Genuine;
      FirstFrameWait(codec, trace, timedOut);
      Freshness();
      return status.written > 0;
    }
  }

  lemma HeaderMeansBytes(jpeg: seq<byte>)
    requires JpegHeader.Read(jpeg).Some?
    ensures jpeg != []
  {
  }
}
