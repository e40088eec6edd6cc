/** The gateway's per-source accounting, which every frame updates before the model is called. */
module Gateway {
  import opened Words
  import opened Wrappers
  import opened Context
  import opened ExecutionLog
  import opened TextCodec

  datatype SessionState = SessionState(lastActivity: nat, frameCount: nat)

  datatype QwenResponse = QwenResponse(model: string, choices: seq<string>, totalTokens: nat)

  datatype GatewayStats = GatewayStats(processedFrames: nat, activeSessions: nat, apiCalls: nat)

  /** The sum of all per-source frame counts. */
  ghost function Total(cache: map<string, SessionState>): nat
    decreases |cache|
  {
    if cache == map[] then 0
    else
      var s :| s in cache;
      cache[s].frameCount + Total(cache - {s})
  }

  /** The sum does not depend on which source is taken out first. */
  lemma {:induction false} TotalRemove(cache: map<string, SessionState>, s: string)
    requires s in cache
    ensures Total(cache) == cache[s].frameCount + Total(cache - {s})
    decreases |cache|
  {
    var first :| first in cache && Total(cache) == cache[first].frameCount + Total(cache - {first});
    if first != s {
      TotalRemove(cache - {first}, s);
      TotalRemove(cache - {s}, first);
      assert cache - {first} - {s} == cache - {s} - {first};
    }
  }

  lemma TotalUpdate(cache: map<string, SessionState>, s: string, entry: SessionState)
    ensures Total(cache[s := entry]) ==
            Total(cache) + entry.frameCount - if s in cache then cache[s].frameCount else 0
  {
    TotalRemove(cache[s := entry], s);
    assert cache[s := entry] - {s} == cache - {s};
    if s in cache { TotalRemove(cache, s); } else { assert cache - {s} == cache; }
  }

  /** `time` goes with the last occurrence of `s`. */
  ghost predicate IsLatestTime(sources: seq<string>, times: seq<nat>, s: string, time: nat)
    requires |times| == |sources|
  {
    exists i :: 0 <= i < |sources| && sources[i] == s && times[i] == time
                && forall j :: i < j < |sources| ==> sources[j] != s
  }

  lemma LatestTimeAfter(sources: seq<string>, times: seq<nat>, source: string, now: nat, s: string, time: nat)
    requires |times| == |sources|
    requires if s == source then time == now else IsLatestTime(sources, times, s, time)
    ensures IsLatestTime(sources + [source], times + [now], s, time)
  {
    var sources', times' := sources + [source], times + [now];
    if s == source {
      assert sources'[|sources|] == s && times'[|sources|] == time;
    } else {
      var i :| 0 <= i < |sources| && sources[i] == s && times[i] == time
               && forall j :: i < j < |sources| ==> sources[j] != s;
      assert sources'[i] == s && times'[i] == time;
    }
  }

  class TeeGateway {
    var processedFrames: nat
    var sessionCache: map<string, SessionState>
    /** The source address of every frame handed in, and when, oldest first. */
    ghost var sources: seq<string>
    ghost var times: seq<nat>

    /**
      Counts per source are occurrences in the history and add up to all frames; a source was last
      active when its latest frame came.
     */
    ghost predicate Valid()
      reads this
    {
      && processedFrames == |sources| == Total(sessionCache)
      && (forall s :: s in sessionCache <==> s in sources)
      && (forall s :: s in sessionCache ==> sessionCache[s].frameCount == multiset(sources)[s])
      && |times| == |sources|
      && (forall s :: s in sessionCache ==> IsLatestTime(sources, times, s, sessionCache[s].lastActivity))
    }

    constructor ()
      ensures Valid() && sources == [] && times == []
    {
      processedFrames, sessionCache, sources, times := 0, map[], [], [];
    }

    /** `api` is the outcome of the model call; the accounting is the same if it fails. */
    method ProcessFrame(frame: TelemetryFrame, now: nat, api: Result<QwenResponse, string>)
      returns (r: Result<QwenResponse, string>)
      requires Valid()
      modifies this
      ensures Valid() && sources == old(sources) + [frame.sourceIp] && times == old(times) + [now] && r == api
    {
      hide IsLatestTime;
      processedFrames := processedFrames + 1;
      var source := frame.sourceIp;
      var session := if source in sessionCache then sessionCache[source] else SessionState(now, 0);
      session := session.(lastActivity := now, frameCount := session.frameCount + 1);
      TotalUpdate(sessionCache, source, session);
      sessionCache := sessionCache[source := session];
      forall s | s in sessionCache
        ensures IsLatestTime(sources + [source], times + [now], s, sessionCache[s].lastActivity)
      {
        LatestTimeAfter(sources, times, source, now, s, sessionCache[s].lastActivity);
      }
      sources, times := sources + [source], times + [now];
      r := api;
    }

    /** Every frame is counted, and active sessions are the distinct sources seen. */
    method Stats() returns (stats: GatewayStats)
      requires Valid()
      ensures stats.processedFrames == stats.apiCalls == |sources| == Total(sessionCache)
      ensures stats.activeSessions == |set s | s in sources|
    {
      assert sessionCache.Keys == set s | s in sources;
      stats := GatewayStats(processedFrames, |sessionCache|, processedFrames);
    }

    /** The log entry of a response; the source indexes its first choice. */
    method GenerateExecutionLog(frameId: nat, response: QwenResponse, sha256: string -> Digest) returns (log: string)
      requires response.choices != []
      ensures var text := "FRAME:" + Decimal(frameId) + "|MODEL:" + response.model + "|ACTION:"
                          + response.choices[0] + "|TOKENS:" + Decimal(response.totalTokens);
              log == text + "|HASH:" + Hex(sha256(text))
      ensures var record := ExecutionRecord(frameId, response.model, response.choices[0], response.totalTokens);
              && ('|' !in response.model ==> Decode(log, sha256) == Some(record))
              && (!Occurs(SEPARATOR, response.model) && !Occurs(SEPARATOR, response.choices[0]) ==>
                    forall r :: ExecutionLog.GenerateExecutionLog(r, sha256) == log ==> r == record)
    {
      hide Occurs, Decode;
      var record := ExecutionRecord(frameId, response.model, response.choices[0], response.totalTokens);
      var body := Body(record);
      var hash := sha256(body);
      log := body + HashField(hash);
      DecodeIffGenerated(log, record, sha256);
      AmbiguousIffSeparatorInside(record, sha256);
      EntryText(record, sha256);
    }
  }
}
