/** The edge agent: mode, counters, callback and context buffer, updated by each public call. */
module EdgeAgents {
  import opened Wrappers
  import opened Context
  import opened AgentHistory
  import opened Trimming

  datatype InferenceSource = Cloud | Local

  /** The action field: the cloud's fixed answer, the local backend's text, or one of the two fixed fallbacks. */
  datatype Action = CloudAnalysisComplete | LocalText(text: string) | InferenceError | Buffered

  datatype InferenceResult = InferenceResult(action: Action, source: InferenceSource)

  const MAX_FRAMES: nat := 100
  const MAX_BYTES: nat := 10 * 1024 * 1024

  class EdgeAgent {
    var mode: AgentMode
    var networkQuality: NetworkQuality
    const contextBuffer: ContextBuffer
    var callbackInstalled: bool
    var lastMode: AgentMode
    var frameCounter: nat
    var framesProcessed: nat
    var cloudOffloads: nat
    var localInferences: nat
    var modeTransitions: nat
    /** The calls made to the installed callback, oldest first. */
    ghost var callbackCalls: seq<(AgentMode, AgentMode)>

    ghost function State(): AgentState
      reads this, contextBuffer
    {
      AgentState(mode, networkQuality, callbackInstalled, lastMode, frameCounter, cloudOffloads,
                 localInferences, modeTransitions, callbackCalls, contextBuffer.pushed)
    }

    ghost predicate Valid()
      reads this, contextBuffer
    {
      && contextBuffer.Valid()
      && contextBuffer.maxFrames == MAX_FRAMES && contextBuffer.maxBytes == MAX_BYTES
      && framesProcessed == frameCounter
      && mode != Transitioning
      && (mode == Degraded ==> CanReachCloud())
    }

    constructor ()
      ensures Valid() && fresh(contextBuffer) && State() == INITIAL_STATE
    {
      hide IsWindow;
      mode, lastMode := Online, Online;
      networkQuality := INITIAL_QUALITY;
      contextBuffer := new ContextBuffer(MAX_FRAMES, MAX_BYTES);
      callbackInstalled := false;
      frameCounter, framesProcessed, cloudOffloads, localInferences, modeTransitions := 0, 0, 0, 0, 0;
      callbackCalls := [];
    }

    method SetModeChangeCallback()
      requires Valid()
      modifies this
      ensures Valid() && State() == Next(old(State()), CallbackSet)
    {
      hide IsWindow;
      callbackInstalled := true;
    }

    function DetermineMode(): AgentMode
      reads this
    {
      Classify(networkQuality)
    }

    function CanReachCloud(): bool
      reads this
    {
      !IsOffline(networkQuality)
    }

    method UpdateNetworkQuality(quality: NetworkQuality)
      requires Valid()
      modifies this, contextBuffer
      ensures Valid() && State() == Next(old(State()), QualityUpdate(quality))
    {
      hide IsWindow;
      networkQuality := quality;
      var newMode := DetermineMode();
      if newMode != mode {
        TransitionMode(newMode);
      }
    }

    method TransitionMode(newMode: AgentMode)
      requires contextBuffer.Valid()
      modifies this, contextBuffer
      ensures mode == newMode && lastMode == old(mode) && modeTransitions == old(modeTransitions) + 1
      ensures callbackCalls == old(callbackCalls) + if callbackInstalled then [(old(mode), newMode)] else []
      ensures contextBuffer.Valid()
      ensures contextBuffer.pushed == if newMode == Online then [] else old(contextBuffer.pushed)
      ensures unchanged(`networkQuality) && unchanged(`callbackInstalled) && unchanged(`frameCounter)
      ensures unchanged(`framesProcessed) && unchanged(`cloudOffloads) && unchanged(`localInferences)
    {
      hide IsWindow;
      var oldMode := mode;
      mode := Transitioning;
      if newMode == Online {
        contextBuffer.Clear();
      }
      mode := newMode;
      lastMode := oldMode;
      modeTransitions := modeTransitions + 1;
      if callbackInstalled {
        callbackCalls := callbackCalls + [(oldMode, newMode)];
      }
    }

    /** The mode dispatch of process_frame, in whatever state it is reached. */
    method Route(local: Result<string, string>) returns (r: InferenceResult)
      modifies this`cloudOffloads, this`localInferences
      ensures mode == Online || (mode == Degraded && CanReachCloud()) ==>
                r == InferenceResult(CloudAnalysisComplete, Cloud) && cloudOffloads == old(cloudOffloads) + 1
                && localInferences == old(localInferences)
      ensures mode == Offline || (mode == Degraded && !CanReachCloud()) ==>
                r == InferenceResult(if local.Ok? then LocalText(Trim(local.value)) else InferenceError, Local)
                && cloudOffloads == old(cloudOffloads)
                && localInferences == old(localInferences) + 1
      ensures mode == Transitioning ==>
                r == InferenceResult(Buffered, Local) && cloudOffloads == old(cloudOffloads)
                && localInferences == old(localInferences)
    {
      hide Trim, IsOffline;
      r := InferenceResult(Buffered, Local);
      match mode {
        case Online =>
          cloudOffloads := cloudOffloads + 1;
          r := CloudOffload();
        case Degraded =>
          if CanReachCloud() {
            cloudOffloads := cloudOffloads + 1;
            r := CloudOffload();
          } else {
            localInferences := localInferences + 1;
            r := LocalInference(local);
          }
        case Offline =>
          localInferences := localInferences + 1;
          r := LocalInference(local);
        case Transitioning =>
      }
    }

    /**
      `local` is what the local backend answers. The result comes from the cloud unless the
      network is offline, and then it is the backend's answer, trimmed, or its failure; the
      buffering of a transition is never taken.
     */
    method ProcessFrame(frame: TelemetryFrame, local: Result<string, string>) returns (r: InferenceResult)
      requires Valid()
      modifies this, contextBuffer
      ensures Valid() && State() == Next(old(State()), FrameArrived(frame))
      ensures r.source == Local <==> old(mode) == Offline
      ensures r.action == CloudAnalysisComplete <==> r.source == Cloud
      ensures r.source == Local ==>
                r.action == if local.Ok? then LocalText(Trim(local.value)) else InferenceError
    {
      hide IsWindow, Trim, IsOffline, Classify, Bytes;
      frameCounter := frameCounter + 1;
      var numbered := frame.(frameId := frameCounter);
      framesProcessed := framesProcessed + 1;
      contextBuffer.Push(numbered);
      r := Route(local);
    }
  }

  /** What a call hands back in a given mode: a result for a frame, nothing otherwise. */
  function Answered(mode: AgentMode, e: Event, local: Result<string, string>): seq<InferenceResult> {
    if !e.FrameArrived? then []
    else if mode != Offline then [InferenceResult(CloudAnalysisComplete, Cloud)]
    else if local.Ok? then [InferenceResult(LocalText(Trim(local.value)), Local)]
    else [InferenceResult(InferenceError, Local)]
  }

  /** What a history of calls hands back, each by the mode at that point. */
  function ResultsOf(h: History, answers: seq<Result<string, string>>): seq<InferenceResult>
    requires |answers| == |h|
  {
    if h == [] then []
    else
      var n := |h| - 1;
      ResultsOf(h[..n], answers[..n]) + Answered(ModeAfter(h[..n]), h[n], answers[n])
  }

  function CountFrom(results: seq<InferenceResult>, source: InferenceSource): nat {
    if results == [] then 0
    else CountFrom(results[..|results| - 1], source) + if results[|results| - 1].source == source then 1 else 0
  }

  lemma CountAppend(results: seq<InferenceResult>, handed: seq<InferenceResult>, source: InferenceSource)
    requires |handed| <= 1
    ensures CountFrom(results + handed, source) == CountFrom(results, source) + CountFrom(handed, source)
  {
    if handed == [] {
      assert results + handed == results;
    } else {
      assert (results + handed)[..|results|] == results;
    }
  }

  lemma AnsweredCount(s: AgentState, e: Event, local: Result<string, string>)
    ensures var handed := Answered(s.mode, e, local);
            && |handed| <= 1
            && Next(s, e).offloads == s.offloads + CountFrom(handed, Cloud)
            && Next(s, e).locals == s.locals + CountFrom(handed, Local)
  {
    hide Trim, Classify;
  }

  /** The results over a run are as many from the cloud and from the local backend as the counters say. */
  lemma {:induction false} ResultsAreCounted(h: History, answers: seq<Result<string, string>>)
    requires |answers| == |h|
    ensures CountFrom(ResultsOf(h, answers), Cloud) == Run(h).offloads
    ensures CountFrom(ResultsOf(h, answers), Local) == Run(h).locals
  {
    hide CountFrom, Answered, Next, Run;
    if h == [] {
      RunStart();
      NothingCounted();
    } else {
      var n := |h| - 1;
      var before, handed := ResultsOf(h[..n], answers[..n]), Answered(ModeAfter(h[..n]), h[n], answers[n]);
      ResultsAreCounted(h[..n], answers[..n]);
      RunMeansHistory(h[..n]);
      assert h[..n] + [h[n]] == h;
      RunStep(h[..n], h[n]);
      AnsweredCount(Run(h[..n]), h[n], answers[n]);
      CountAppend(before, handed, Cloud);
      CountAppend(before, handed, Local);
    }
  }

  lemma NothingCounted()
    ensures CountFrom([], Cloud) == CountFrom([], Local) == 0
  {}

  /**
    Any client: whatever calls are made in whatever order, the agent ends in the state that the
    history of those calls determines, having answered every frame as that history says.
   */
  method Replay(events: History, answers: seq<Result<string, string>>)
    returns (agent: EdgeAgent, results: seq<InferenceResult>)
    requires |answers| == |events|
    ensures agent.Valid() && agent.State() == Run(events)
    ensures results == ResultsOf(events, answers)
    ensures CountFrom(results, Cloud) == agent.cloudOffloads && CountFrom(results, Local) == agent.localInferences
  {
    hide IsWindow, Next, EdgeAgent.Valid, Run, Answered;
    agent := new EdgeAgent();
    results := [];
    RunStart();
    for i := 0 to |events|
      invariant agent.Valid() && fresh(agent) && fresh(agent.contextBuffer)
      invariant agent.State() == Run(events[..i])
      invariant results == ResultsOf(events[..i], answers[..i])
    {
      RunStep(events[..i], events[i]);
      RunMeansHistory(events[..i]);
      assert events[..i + 1] == events[..i] + [events[i]];
      assert events[..i + 1][..i] == events[..i] && answers[..i + 1][..i] == answers[..i];
      var handed := Perform(agent, events[i], answers[i]);
      results := results + handed;
    }
    assert events[..|events|] == events && answers[..|answers|] == answers;
    ResultsAreCounted(events, answers);
  }

  /** One call. */
  method Perform(agent: EdgeAgent, event: Event, local: Result<string, string>) returns (handed: seq<InferenceResult>)
    requires agent.Valid()
    modifies agent, agent.contextBuffer
    ensures agent.Valid() && agent.State() == Next(old(agent.State()), event)
    ensures handed == Answered(old(agent.mode), event, local)
  {
    hide IsWindow, Next, EdgeAgent.Valid, Trim;
    handed := [];
    match event {
      case QualityUpdate(quality) => agent.UpdateNetworkQuality(quality);
      case FrameArrived(frame) =>
        var r := agent.ProcessFrame(frame, local);
        handed := [r];
      case CallbackSet => agent.SetModeChangeCallback();
    }
  }

  lemma RunStart()
    ensures Run([]) == INITIAL_STATE
  {}

  /** What the buffer holds: the window of the frames received since the last return to Online. */
  lemma BufferIsWindowOfSpool(agent: EdgeAgent, h: History)
    requires agent.Valid() && agent.State() == Run(h)
    ensures IsWindow(agent.contextBuffer.frames, FramesFrom(h, SpoolStart(h)), 100, 10_485_760)
  {
    RunMeansHistory(h);
  }

  /** Between public calls: mode as classified, every frame routed once, and the transitions a chain. */
  lemma RestingState(agent: EdgeAgent, h: History)
    requires agent.Valid() && agent.State() == Run(h)
    ensures agent.mode == agent.DetermineMode() == ModeAfter(h)
    ensures agent.framesProcessed == agent.frameCounter == agent.cloudOffloads + agent.localInferences
    ensures agent.modeTransitions == |Transitions(h)| && Chain(Transitions(h), Online, agent.mode)
    ensures agent.modeTransitions > 0 ==>
              agent.lastMode == Transitions(h)[agent.modeTransitions - 1].0 && agent.lastMode != agent.mode
  {
    RunMeansHistory(h);
    RoutingConservation(h);
    TransitionsChain(h);
    if agent.modeTransitions > 0 { LastLinkOfChain(Transitions(h), Online, agent.mode); }
  }

  function CloudOffload(): InferenceResult {
    InferenceResult(CloudAnalysisComplete, Cloud)
  }

  function LocalInference(local: Result<string, string>): InferenceResult {
    InferenceResult(if local.Ok? then LocalText(Trim(local.value)) else InferenceError, Local)
  }

  lemma {:induction false} LastLinkOfChain(calls: seq<(AgentMode, AgentMode)>, from: AgentMode, to: AgentMode)
    requires Chain(calls, from, to) && calls != []
    ensures calls[|calls| - 1].1 == to && calls[|calls| - 1].0 != to
  {
    if |calls| > 1 { LastLinkOfChain(calls[1..], calls[0].1, to); }
  }
}
