/**
 Laws of whole sessions: which of them have a source thread, what a Start and a Stop need and leave behind, and that
 the writer is prompt.
 */
module SessionLaws {
  import opened Bytes
  import opened Pacing
  import opened EngineSteps
  import CommandGrammar
  import StreamSource
  import SC = StartCommand

  lemma NetworkMeansStream(c: SC.Config)
    requires SC.Validate(c).Success?
    ensures IsNetwork(c) <==> StreamSource.ParseStreamSourceUrl(c.url).Success?
  {
    hide StreamSource.ParseStreamSourceUrl;
    CommandGrammar.ValidMeansRunnable(c);
    CommandGrammar.ReservedAreNotStreams();
  }

  /** Every session runs a valid configuration, and once started has a source thread iff its address is a stream's. */
  lemma SourceFollowsAddress(codec: Codec, steps: seq<Step>)
    requires After(codec, steps).Some?
    requires After(codec, steps).value.control == Free && After(codec, steps).value.shared.status.running
    ensures var s := After(codec, steps).value;
            && SC.Validate(s.shared.config).Success?
            && (s.sourceAlive <==> StreamSource.ParseStreamSourceUrl(s.shared.config.url).Success?)
  {
    hide Lifecycle, Mailbox, Accounts, Fresh, WritesOrdered, WrittenCounted, Paced, SC.Validate, After;
    hide StreamSource.ParseStreamSourceUrl;
    RunKeepsInv(codec, steps);
    NetworkMeansStream(After(codec, steps).value.shared.config);
  }

  /** When a Stop returns nothing runs, the device is closed and no frame is held. */
  lemma StopLeavesNothing(codec: Codec, steps: seq<Step>, i: nat)
    requires After(codec, steps).Some? && i < |steps| && steps[i] == FinishStop
    ensures After(codec, steps[..i + 1]).Some?
    ensures var s := After(codec, steps[..i + 1]).value;
            && !s.shared.status.running && !s.shared.status.sinkOpen && s.shared.latest == None
            && s.local.at == NoWriter && !s.sourceAlive
  {
    hide Next, Enabled, After, Mailbox, Accounts, Fresh, WritesOrdered, WrittenCounted, Paced, Sound;
    PrefixRuns(codec, steps, i);
    var before := After(codec, steps[..i]).value;
    RunKeepsInv(codec, steps[..i]);
    FinishStopMeans(codec, before);
  }

  predicate MovesControl(step: Step)
  {
    || step.AskStop? || step == Join || step == FinishStop || step.OpenSink? || step == Commit
    || step.CreateWriter? || step.CreateSource?
  }

  lemma OthersLeaveControl(codec: Codec, s: State, step: Step)
    requires Enabled(s, step) && !MovesControl(step)
    ensures Next(codec, s, step).control == s.control
  {
    hide Published, Committing, Woken, Resumed, Transformed, Clocked, DeviceWritten, Accounted, Begun;
    hide SC.Validate, WellFormed, Stopped, CommittedAs, WriterCreated, SourceCreated;
  }

  lemma OnlyOpeningOpens(codec: Codec, s: State, step: Step)
    requires Enabled(s, step) && MovesControl(step) && Next(codec, s, step).control.Opened?
    ensures step == OpenSink(true)
  {
    hide Next, Enabled, Committing, SC.Validate;
    match step
    case AskStop(target) => AskStopMeans(codec, s, target);
    case Join => JoinMeans(codec, s);
    case FinishStop => FinishStopMeans(codec, s);
    case OpenSink(ok) => OpenSinkMeans(codec, s, ok);
    case Commit => CommitMeans(codec, s);
    case CreateWriter(ok) => CreateWriterMeans(codec, s, ok);
    case CreateSource(ok) => CreateSourceMeans(codec, s, ok);
  }

  /** A session is committed only when the device has just been opened for it. */
  lemma {:induction false} OpenedBefore(codec: Codec, steps: seq<Step>)
    requires After(codec, steps).Some? && After(codec, steps).value.control.Opened?
    ensures exists i :: 0 <= i < |steps| && steps[i] == OpenSink(true)
                        && forall k :: i < k < |steps| ==> !MovesControl(steps[k])
    decreases |steps|
  {
    hide Next, Enabled, MovesControl;
    if steps == [] {
      AfterNothingIsInitial(codec);
    } else {
      var n := |steps| - 1;
      PrefixRuns(codec, steps, n);
      assert steps[..n + 1] == steps;
      var before := After(codec, steps[..n]).value;
      if MovesControl(steps[n]) {
        OnlyOpeningOpens(codec, before, steps[n]);
        assert steps[n] == OpenSink(true);
      } else {
        OthersLeaveControl(codec, before, steps[n]);
        OpenedBefore(codec, steps[..n]);
        var i :| 0 <= i < n && steps[..n][i] == OpenSink(true)
                 && forall k :: i < k < n ==> !MovesControl(steps[..n][k]);
        assert steps[i] == OpenSink(true);
        forall k | i < k < |steps| ensures !MovesControl(steps[k]) {
          assert k < n ==> steps[..n][k] == steps[k];
        }
      }
    }
  }

  lemma CommitNeedsDevice(codec: Codec, steps: seq<Step>, j: nat)
    requires After(codec, steps).Some? && j < |steps| && steps[j] == Commit
    ensures exists i :: 0 <= i < j && steps[i] == OpenSink(true) && forall k :: i < k < j ==> !MovesControl(steps[k])
  {
    hide Next, Enabled, After, MovesControl;
    PrefixRuns(codec, steps, j);
    CommitMeans(codec, After(codec, steps[..j]).value);
    OpenedBefore(codec, steps[..j]);
    var i :| 0 <= i < j && steps[..j][i] == OpenSink(true) && forall k :: i < k < j ==> !MovesControl(steps[..j][k]);
    assert steps[i] == OpenSink(true);
    forall k | i < k < j ensures !MovesControl(steps[k]) {
      assert steps[..j][k] == steps[k];
    }
  }

  /** A waiting writer without output is woken by a frame it has not seen, and by the deadline, and by a stop. */
  lemma WakesInTime(s: State)
    requires s.local.at == Waiting
    requires s.stop || s.clock >= s.local.nextWrite
             || (s.local.output == [] && s.shared.generation != s.local.consumed)
    ensures Enabled(s, Wake)
  {
  }

  /** Between iterations the writer waits at most one interval from its last clock read, and at first not at all. */
  lemma WriterIsPrompt(codec: Codec, steps: seq<Step>)
    requires After(codec, steps).Some?
    requires var at := After(codec, steps).value.local.at; at == AtHead || at == Waiting || at == Holding
    ensures var s := After(codec, steps).value;
            s.local.nextWrite <= Soonest(s.history.start, Interval(s.shared.config), s.history.ticks)
  {
    hide Lifecycle, Sound, Mailbox, Accounts, Fresh, WritesOrdered, WrittenCounted, After, Interval;
    RunKeepsInv(codec, steps);
  }
}
