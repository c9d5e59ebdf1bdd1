/** Where the frames in the post-processor come from: each queue holds only frames that came in the
    way that the queue is for. */
module PostProcOrigins {
  import opened Wrappers
  import opened PostProcSteps

  /** A job without a reprocess source holds a frame that needed no reprocessing; one with a source
      holds the frame that was made from it, and the source needed reprocessing. */
  ghost predicate JobOrigin(j: JpegJob, run: seq<Step>) {
    match j.reproc
    case None => Data(j.src, false) in run
    case Some(g) => Data(g, true) in run && PPEnqueue(g, j.src) in run
  }

  ghost predicate JobOrigins(js: seq<JpegJob>, run: seq<Step>) {
    forall i :: 0 <= i < |js| ==> JobOrigin(js[i], run)
  }

  /** The frames needed reprocessing. */
  ghost predicate FrameOrigins(fs: seq<Frame>, run: seq<Step>) {
    forall i :: 0 <= i < |fs| ==> Data(fs[i], true) in run
  }

  ghost predicate Origins(s: State, run: seq<Step>) {
    && JobOrigins(s.inputJpegQ, run) && JobOrigins(s.ongoingJpegQ, run)
    && FrameOrigins(s.inputPPQ, run) && FrameOrigins(s.ongoingPPQ, run)
    && (forall f :: f in s.inHand ==> Data(f, true) in run)
    && (s.pc.BeginJpeg? ==> JobOrigin(s.pc.job, run))
    && (s.pc.BeginPP? ==> Data(s.pc.frame, true) in run)
  }

  lemma LongerRun(s: State, run: seq<Step>, e: Step)
    requires Origins(s, run)
    ensures Origins(s, run + [e])
  {
    forall j: JpegJob | JobOrigin(j, run) ensures JobOrigin(j, run + [e]) {}
  }

  lemma StepKeepsOrigins(s: State, run: seq<Step>, e: Step)
    requires Origins(s, run) && Enabled(s, e) && e in run
    ensures Origins(Next(s, e), run)
  {
    hide JobOrigin, JobFrames, JobsFrames;
    if e.Worker? {
      hide Origins;
      if Stopping(s.pc) { StopKeepsOrigins(s, run); }
      else if Encoding(s.pc) { EncodeKeepsOrigins(s, run, e.ok, e.jobId); }
      else if Reprocessing(s.pc) { ReprocessKeepsOrigins(s, run, e.ok); }
      else if Dropping(s.pc) { DropKeepsOrigins(s, run); }
      else { CommandKeepsOrigins(s, run); }
    } else {
      CallKeepsOrigins(s, run, e);
    }
  }

  lemma CallKeepsOrigins(s: State, run: seq<Step>, e: Step)
    requires Origins(s, run) && Enabled(s, e) && e in run && !e.Worker?
    ensures Origins(Next(s, e), run)
  {
    hide WorkerNext, JobFrames, JobsFrames;
  }

  lemma CommandKeepsOrigins(s: State, run: seq<Step>)
    requires Origins(s, run) && |s.cmds| > 0
    ensures Origins(CommandNext(s), run)
  {
    hide JobOrigin;
  }

  lemma StopKeepsOrigins(s: State, run: seq<Step>)
    requires Origins(s, run) && Stopping(s.pc)
    ensures Origins(StopNext(s), run)
  {
    hide JobOrigin, JobFrames, JobsFrames;
  }

  lemma EncodeKeepsOrigins(s: State, run: seq<Step>, ok: bool, id: nat)
    requires Origins(s, run) && Encoding(s.pc) && (s.pc.Encode? ==> |s.ongoingJpegQ| > 0)
    ensures Origins(EncodeNext(s, ok, id), run)
  {
    hide JobFrames, JobsFrames;
  }

  lemma ReprocessKeepsOrigins(s: State, run: seq<Step>, ok: bool)
    requires Origins(s, run) && Reprocessing(s.pc) && (s.pc.SubmitPP? ==> |s.ongoingPPQ| > 0)
    ensures Origins(ReprocessNext(s, ok), run)
  {
    hide JobOrigin;
  }

  lemma DropKeepsOrigins(s: State, run: seq<Step>)
    requires Origins(s, run) && Dropping(s.pc)
    ensures Origins(DropNext(s), run)
  {
    hide JobOrigin, JobFrames, JobsFrames;
  }

  lemma {:induction false} RunKeepsOrigins(s: State, before: seq<Step>, run: seq<Step>)
    requires Origins(s, before) && ValidRun(s, run)
    ensures Origins(Exec(s, run), before + run)
    decreases |run|
  {
    hide Origins, Enabled, Next;
    if run == [] {
      assert before + run == before;
    } else {
      LongerRun(s, before, run[0]);
      StepKeepsOrigins(s, before + [run[0]], run[0]);
      RunKeepsOrigins(Next(s, run[0]), before + [run[0]], run[1..]);
      assert before + [run[0]] + run[1..] == before + run;
    }
  }

  /** Over every run from the initial state. */
  lemma FramesCameIn(run: seq<Step>)
    requires ValidRun(INITIAL, run)
    ensures Origins(Exec(INITIAL, run), run)
  {
    hide ValidRun, Exec;
    RunKeepsOrigins(INITIAL, [], run);
    assert [] + run == run;
  }
}
