/**
  What the edge agent's state must be after a history of events: the specification the EdgeAgent
  class is proved against, and the laws that hold of it.
 */
module AgentHistory {
  import opened Context

  /** An f64 measurement. Every finite f64 is a real; nothing below depends on which reals are. */
  datatype Metric = NaN | MinusInfinity | Number(value: real) | PlusInfinity

  /** `metric > limit`, false for NaN. */
  predicate Exceeds(m: Metric, limit: real) {
    m.PlusInfinity? || (m.Number? && m.value > limit)
  }

  datatype NetworkQuality = NetworkQuality(latencyMs: Metric, packetLossPct: Metric, jitterMs: Metric)

  datatype AgentMode = Online | Degraded | Offline | Transitioning

  predicate IsDegraded(q: NetworkQuality) {
    Exceeds(q.latencyMs, 200.0) || Exceeds(q.packetLossPct, 5.0) || Exceeds(q.jitterMs, 50.0)
  }

  predicate IsOffline(q: NetworkQuality) {
    Exceeds(q.latencyMs, 5000.0) || Exceeds(q.packetLossPct, 50.0)
  }

  function Classify(q: NetworkQuality): AgentMode {
    if IsOffline(q) then Offline else if IsDegraded(q) then Degraded else Online
  }

  datatype Event =
    | QualityUpdate(quality: NetworkQuality)
    | FrameArrived(frame: TelemetryFrame)
    | CallbackSet

  type History = seq<Event>

  const INITIAL_QUALITY: NetworkQuality := NetworkQuality(Number(0.0), Number(0.0), Number(0.0))

  function QualityAfter(h: History): NetworkQuality {
    if h == [] then INITIAL_QUALITY
    else
      var last := h[|h| - 1];
      if last.QualityUpdate? then last.quality else QualityAfter(h[..|h| - 1])
  }

  function ModeAfter(h: History): AgentMode {
    Classify(QualityAfter(h))
  }

  // ---- Positions in the history that the counters count -----------------------------------

  function FramesAt(h: History): set<nat> {
    set i: nat | i < |h| && h[i].FrameArrived?
  }

  /** Frames that arrived while the network was not offline. */
  function OffloadedAt(h: History): set<nat> {
    set i: nat | i < |h| && h[i].FrameArrived? && ModeAfter(h[..i]) != Offline
  }

  function LocalAt(h: History): set<nat> {
    set i: nat | i < |h| && h[i].FrameArrived? && ModeAfter(h[..i]) == Offline
  }

  /** Position `i` is an update that changes the mode. */
  predicate TransitionAt(h: History, i: nat)
    requires i < |h|
  {
    h[i].QualityUpdate? && ModeAfter(h[..i]) != Classify(h[i].quality)
  }

  /** The mode changes so far as (old, new) pairs. */
  function Transitions(h: History): seq<(AgentMode, AgentMode)> {
    if h == [] then []
    else
      var n := |h| - 1;
      Transitions(h[..n]) +
      if TransitionAt(h, n) then [(ModeAfter(h[..n]), Classify(h[n].quality))] else []
  }

  /** The pairs reported to a callback: those made after one was installed. */
  function CallbackCalls(h: History): seq<(AgentMode, AgentMode)> {
    if h == [] then []
    else
      var n := |h| - 1;
      CallbackCalls(h[..n]) +
      if TransitionAt(h, n) && HasCallback(h[..n]) then [(ModeAfter(h[..n]), Classify(h[n].quality))] else []
  }

  predicate HasCallback(h: History) {
    exists i :: 0 <= i < |h| && h[i].CallbackSet?
  }

  /** Position just after the last transition into Online, or 0. */
  function SpoolStart(h: History): (s: nat)
    ensures s <= |h|
    ensures s > 0 ==> TransitionAt(h, s - 1) && Classify(h[s - 1].quality) == Online
    ensures forall i :: s <= i < |h| && TransitionAt(h, i) ==> Classify(h[i].quality) != Online
  {
    if h == [] then 0
    else
      var n := |h| - 1;
      if TransitionAt(h, n) && Classify(h[n].quality) == Online then |h|
      else
        var s := SpoolStart(h[..n]);
        assert forall i :: 0 <= i < n ==> h[..n][..i] == h[..i];
        s
  }

  /** The frames from position `s` on, numbered by their place among all frames ever received. */
  function FramesFrom(h: History, s: nat): seq<TelemetryFrame> {
    if |h| <= s then []
    else
      var n := |h| - 1;
      FramesFrom(h[..n], s) +
      if h[n].FrameArrived? then [h[n].frame.(frameId := |FramesAt(h)|)] else []
  }

  function Spooled(h: History): seq<TelemetryFrame> {
    FramesFrom(h, SpoolStart(h))
  }

  // ---- One more event ---------------------------------------------------------------------

  lemma PrefixOfAppend(h: History, e: Event)
    ensures (h + [e])[..|h|] == h
    ensures forall i :: 0 <= i < |h| ==> (h + [e])[..i] == h[..i]
  {}

  lemma FramesAfter(h: History, e: Event)
    ensures |FramesAt(h + [e])| == |FramesAt(h)| + if e.FrameArrived? then 1 else 0
  {
    assert FramesAt(h + [e]) == FramesAt(h) + if e.FrameArrived? then {|h|} else {};
    assert |h| !in FramesAt(h);
  }

  lemma OffloadedAfter(h: History, e: Event)
    ensures |OffloadedAt(h + [e])| == |OffloadedAt(h)| + if e.FrameArrived? && ModeAfter(h) != Offline then 1 else 0
  {
    PrefixOfAppend(h, e);
    assert OffloadedAt(h + [e]) == OffloadedAt(h) + if e.FrameArrived? && ModeAfter(h) != Offline then {|h|} else {};
    assert |h| !in OffloadedAt(h);
  }

  lemma LocalAfter(h: History, e: Event)
    ensures |LocalAt(h + [e])| == |LocalAt(h)| + if e.FrameArrived? && ModeAfter(h) == Offline then 1 else 0
  {
    PrefixOfAppend(h, e);
    assert LocalAt(h + [e]) == LocalAt(h) + if e.FrameArrived? && ModeAfter(h) == Offline then {|h|} else {};
    assert |h| !in LocalAt(h);
  }

  /** The event changes the mode reached after `h`. */
  predicate Changes(h: History, e: Event) {
    e.QualityUpdate? && ModeAfter(h) != Classify(e.quality)
  }

  lemma SpooledAfter(h: History, e: Event)
    ensures Spooled(h + [e]) ==
            if Changes(h, e) && Classify(e.quality) == Online then []
            else Spooled(h) + if e.FrameArrived? then [e.frame.(frameId := |FramesAt(h + [e])|)] else []
  {
    PrefixOfAppend(h, e);
    assert (h + [e])[|h|] == e;
  }

  lemma QualityAfterEvent(h: History, e: Event)
    ensures QualityAfter(h + [e]) == if e.QualityUpdate? then e.quality else QualityAfter(h)
  {
    PrefixOfAppend(h, e);
  }

  lemma TransitionsAfter(h: History, e: Event)
    ensures Transitions(h + [e]) ==
            Transitions(h) + if Changes(h, e) then [(ModeAfter(h), Classify(e.quality))] else []
    ensures CallbackCalls(h + [e]) ==
            CallbackCalls(h) + if Changes(h, e) && HasCallback(h) then [(ModeAfter(h), Classify(e.quality))] else []
  {
    PrefixOfAppend(h, e);
    assert (h + [e])[|h|] == e;
  }

  lemma CallbackAfter(h: History, e: Event)
    ensures HasCallback(h + [e]) == (HasCallback(h) || e.CallbackSet?)
  {
    if HasCallback(h) {
      var i :| 0 <= i < |h| && h[i].CallbackSet?;
      assert (h + [e])[i].CallbackSet?;
    }
    assert (h + [e])[|h|] == e;
  }

  // ---- The agent's state, run event by event and read off the history ------------------------

  datatype AgentState = AgentState(
    mode: AgentMode,
    quality: NetworkQuality,
    callbackInstalled: bool,
    lastMode: AgentMode,
    frames: nat,
    offloads: nat,
    locals: nat,
    transitions: nat,
    calls: seq<(AgentMode, AgentMode)>,
    spool: seq<TelemetryFrame>)

  /** One public call, as the agent performs it on its state. */
  function Next(s: AgentState, e: Event): AgentState {
    match e
    case CallbackSet => s.(callbackInstalled := true)
    case FrameArrived(frame) =>
      var n := s.frames + 1;
      var t := s.(frames := n, spool := s.spool + [frame.(frameId := n)]);
      if s.mode == Offline then t.(locals := s.locals + 1) else t.(offloads := s.offloads + 1)
    case QualityUpdate(quality) =>
      var mode := Classify(quality);
      if mode == s.mode then s.(quality := quality)
      else
        s.(quality := quality, mode := mode, lastMode := s.mode, transitions := s.transitions + 1,
           calls := s.calls + (if s.callbackInstalled then [(s.mode, mode)] else []),
           spool := if mode == Online then [] else s.spool)
  }

  const INITIAL_STATE: AgentState := AgentState(Online, INITIAL_QUALITY, false, Online, 0, 0, 0, 0, [], [])

  function Run(h: History): AgentState {
    if h == [] then INITIAL_STATE else Next(Run(h[..|h| - 1]), h[|h| - 1])
  }

  lemma RunStep(h: History, e: Event)
    ensures Run(h + [e]) == Next(Run(h), e)
  {
    PrefixOfAppend(h, e);
  }

  /** The mode before the latest transition; Online before any. */
  function PreviousMode(h: History): AgentMode {
    var t := Transitions(h);
    if t == [] then Online else t[|t| - 1].0
  }

  /** The state read off the history as a whole. */
  function StateAfter(h: History): AgentState {
    AgentState(ModeAfter(h), QualityAfter(h), HasCallback(h), PreviousMode(h), |FramesAt(h)|, |OffloadedAt(h)|,
               |LocalAt(h)|, |Transitions(h)|, CallbackCalls(h), Spooled(h))
  }

  lemma StateStep(h: History, e: Event)
    ensures StateAfter(h + [e]) == Next(StateAfter(h), e)
  {
    hide FramesAt, OffloadedAt, LocalAt, HasCallback, Transitions, CallbackCalls, Spooled, QualityAfter;
    hide IsOffline, IsDegraded;
    QualityAfterEvent(h, e);
    FramesAfter(h, e);
    OffloadedAfter(h, e);
    LocalAfter(h, e);
    CallbackAfter(h, e);
    TransitionsAfter(h, e);
    SpooledAfter(h, e);
  }

  lemma InitialStateMeansHistory()
    ensures StateAfter([]) == INITIAL_STATE
  {
    assert FramesAt([]) == {} && OffloadedAt([]) == {} && LocalAt([]) == {};
  }

  /**
    Whole-run meaning of the agent: after any history its mode is the classification of the latest
    quality, every counter is the number of matching positions, and the spool is the frames
    received since the last transition into Online.
   */
  lemma {:induction false} RunMeansHistory(h: History)
    ensures Run(h) == StateAfter(h)
  {
    hide StateAfter, Next;
    if h == [] {
      InitialStateMeansHistory();
    } else {
      var n := |h| - 1;
      RunMeansHistory(h[..n]);
      StateStep(h[..n], h[n]);
      assert h[..n] + [h[n]] == h;
    }
  }

  /**
    The frames from any position on carry consecutive numbers, ending with how many frames were ever
    received; the very first frame is number 1.
   */
  lemma {:induction false} FramesNumbered(h: History, s: nat)
    ensures |FramesFrom(h, s)| <= |FramesAt(h)| && |FramesFrom(h, 0)| == |FramesAt(h)|
    ensures forall i :: 0 <= i < |FramesFrom(h, s)| ==>
              FramesFrom(h, s)[i].frameId == |FramesAt(h)| - |FramesFrom(h, s)| + i + 1
  {
    hide FramesAt;
    if h != [] {
      var n := |h| - 1;
      FramesNumbered(h[..n], s);
      assert h[..n] + [h[n]] == h;
      FramesAfter(h[..n], h[n]);
    } else {
      NoFrames();
    }
  }

  lemma NoFrames()
    ensures FramesAt([]) == {}
  {}

  // ---- The mode in numbers -----------------------------------------------------------------

  /** Above the limit, for a value that is a number or infinite. */
  predicate Above(m: Metric, limit: real) {
    match m
    case NaN => false
    case MinusInfinity => false
    case Number(value) => value > limit
    case PlusInfinity => true
  }

  /** Position `i` is the latest update of the quality. */
  ghost predicate LatestUpdate(h: History, i: nat) {
    && i < |h| && h[i].QualityUpdate?
    && forall j :: i < j < |h| ==> !h[j].QualityUpdate?
  }

  lemma {:induction false} QualityIsLatest(h: History, i: nat)
    requires LatestUpdate(h, i)
    ensures QualityAfter(h) == h[i].quality
  {
    if i < |h| - 1 { QualityIsLatest(h[..|h| - 1], i); }
  }

  /**
    After any history, in terms of its latest update: offline above 5000 ms of latency or 50 percent
    of loss, otherwise degraded above 200 ms, 5 percent or 50 ms of jitter, otherwise online. NaN
    exceeds nothing.
   */
  lemma ModeInNumbers(h: History, i: nat)
    requires LatestUpdate(h, i)
    ensures var q := h[i].quality; var offline := Above(q.latencyMs, 5000.0) || Above(q.packetLossPct, 50.0);
            var degraded := Above(q.latencyMs, 200.0) || Above(q.packetLossPct, 5.0) || Above(q.jitterMs, 50.0);
            && (Run(h).mode == Offline <==> offline)
            && (Run(h).mode == Degraded <==> degraded && !offline)
            && (Run(h).mode == Online <==> !degraded)
  {
    hide Run;
    RunMeansHistory(h);
    QualityIsLatest(h, i);
  }

  /** Before any update the agent is online, with a network of zeros. */
  lemma {:induction false} OnlineBeforeAnyUpdate(h: History)
    requires forall i :: 0 <= i < |h| ==> !h[i].QualityUpdate?
    ensures Run(h).mode == Online && Run(h).quality == NetworkQuality(Number(0.0), Number(0.0), Number(0.0))
  {
    if h != [] { OnlineBeforeAnyUpdate(h[..|h| - 1]); }
  }

  // ---- Laws of the counters ---------------------------------------------------------------

  /** Every frame is either offloaded or handled locally. */
  lemma RoutingConservation(h: History)
    ensures |FramesAt(h)| == |OffloadedAt(h)| + |LocalAt(h)|
    ensures OffloadedAt(h) !! LocalAt(h)
  {
    assert FramesAt(h) == OffloadedAt(h) + LocalAt(h);
  }

  /** A chain of genuine mode changes from `from` to `to`. */
  predicate Chain(calls: seq<(AgentMode, AgentMode)>, from: AgentMode, to: AgentMode) {
    if calls == [] then from == to
    else calls[0].0 == from && calls[0].0 != calls[0].1 && Chain(calls[1..], calls[0].1, to)
  }

  lemma {:induction false} ChainAppend(calls: seq<(AgentMode, AgentMode)>, from: AgentMode, mid: AgentMode,
                                       to: AgentMode)
    requires Chain(calls, from, mid) && mid != to
    ensures Chain(calls + [(mid, to)], from, to)
  {
    if calls == [] {
      assert calls + [(mid, to)] == [(mid, to)];
    } else {
      assert (calls + [(mid, to)])[1..] == calls[1..] + [(mid, to)];
      ChainAppend(calls[1..], calls[0].1, mid, to);
    }
  }

  /** The transitions link up from Online to the present mode, and never report a non-change. */
  lemma {:induction false} TransitionsChain(h: History)
    ensures Chain(Transitions(h), Online, ModeAfter(h))
  {
    if h != [] {
      var n := |h| - 1;
      TransitionsChain(h[..n]);
      if TransitionAt(h, n) {
        ChainAppend(Transitions(h[..n]), Online, ModeAfter(h[..n]), ModeAfter(h));
      } else {
        assert Transitions(h) == Transitions(h[..n]);
      }
    }
  }

  /** The callback sees a suffix of the transitions, and all of them if it was installed first. */
  lemma {:induction false} CallbackSeesSuffix(h: History) returns (k: nat)
    ensures k <= |Transitions(h)| && CallbackCalls(h) == Transitions(h)[k..]
    ensures h != [] && h[0].CallbackSet? ==> k == 0
    ensures !HasCallback(h) ==> k == |Transitions(h)|
  {
    if h == [] {
      k := 0;
    } else {
      var p, e := h[..|h| - 1], h[|h| - 1];
      assert h == p + [e];
      k := CallbackSeesSuffix(p);
      TransitionsAfter(p, e);
      CallbackAfter(p, e);
      if !HasCallback(p) { k := |Transitions(h)|; }
      FirstCallback(h);
    }
  }

  lemma FirstCallback(h: History)
    requires h != []
    ensures h[0].CallbackSet? && |h| > 1 ==> HasCallback(h[..|h| - 1])
    ensures h[0].CallbackSet? && |h| == 1 ==> Transitions(h) == []
  {
    if |h| > 1 { assert h[..|h| - 1][0] == h[0]; }
  }

  // ---- Two agents on the same events, one with the worse network -----------------------------

  /** Order on metrics that are not NaN. */
  predicate MetricLe(a: Metric, b: Metric) {
    && !a.NaN? && !b.NaN?
    && (a.MinusInfinity? || b.PlusInfinity? || (a.Number? && b.Number? && a.value <= b.value))
  }

  predicate WorseQuality(better: NetworkQuality, worse: NetworkQuality) {
    && MetricLe(better.latencyMs, worse.latencyMs)
    && MetricLe(better.packetLossPct, worse.packetLossPct)
    && MetricLe(better.jitterMs, worse.jitterMs)
  }

  predicate WorseEvent(better: Event, worse: Event) {
    || (better.QualityUpdate? && worse.QualityUpdate? && WorseQuality(better.quality, worse.quality))
    || (better.FrameArrived? && worse.FrameArrived?)
    || (better.CallbackSet? && worse.CallbackSet?)
  }

  /** The same interleaving of updates and frames, every update pointwise worse. */
  predicate WorseHistory(better: History, worse: History) {
    |better| == |worse| && forall i :: 0 <= i < |better| ==> WorseEvent(better[i], worse[i])
  }

  function Severity(m: AgentMode): nat {
    match m
    case Online => 0
    case Degraded => 1
    case Offline => 2
    case Transitioning => 3
  }

  lemma WorseQualityIsMoreSevere(better: NetworkQuality, worse: NetworkQuality)
    requires WorseQuality(better, worse)
    ensures Severity(Classify(better)) <= Severity(Classify(worse))
  {}

  lemma {:induction false} WorseModeAtEveryStep(better: History, worse: History, i: nat)
    requires WorseHistory(better, worse) && i <= |better|
    ensures Severity(ModeAfter(better[..i])) <= Severity(ModeAfter(worse[..i]))
    decreases i
  {
    if i > 0 {
      var b, w := better[..i], worse[..i];
      assert b[..i - 1] == better[..i - 1] && w[..i - 1] == worse[..i - 1];
      assert WorseEvent(b[i - 1], w[i - 1]);
      if b[i - 1].QualityUpdate? {
        WorseQualityIsMoreSevere(b[i - 1].quality, w[i - 1].quality);
      } else {
        WorseModeAtEveryStep(better, worse, i - 1);
      }
    }
  }

  lemma SubsetCardinality(a: set<nat>, b: set<nat>)
    requires a <= b
    ensures |a| <= |b|
  {
    assert b == a + (b - a);
  }

  /**
    On the same interleaving, the agent with the worse network is never in a milder mode, never
    offloads more frames, and never handles fewer locally.
   */
  lemma WorseNetworkNeverOffloadsMore(better: History, worse: History)
    requires WorseHistory(better, worse)
    ensures forall i :: 0 <= i <= |better| ==> Severity(ModeAfter(better[..i])) <= Severity(ModeAfter(worse[..i]))
    ensures OffloadedAt(worse) <= OffloadedAt(better) && |OffloadedAt(worse)| <= |OffloadedAt(better)|
    ensures LocalAt(better) <= LocalAt(worse) && |LocalAt(better)| <= |LocalAt(worse)|
  {
    forall i | 0 <= i <= |better|
      ensures Severity(ModeAfter(better[..i])) <= Severity(ModeAfter(worse[..i]))
    {
      WorseModeAtEveryStep(better, worse, i);
    }
    forall i | 0 <= i < |better|
      ensures better[i].FrameArrived? <==> worse[i].FrameArrived?
    {
      assert WorseEvent(better[i], worse[i]);
    }
    SubsetCardinality(OffloadedAt(worse), OffloadedAt(better));
    SubsetCardinality(LocalAt(better), LocalAt(worse));
  }
}
