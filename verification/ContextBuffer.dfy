/** Telemetry frames and the rolling context buffer with its two eviction loops. */
module Context {
  import opened Words

  datatype TelemetryFrame = TelemetryFrame(frameId: nat, sourceIp: string, payload: seq<byte>)

  function Bytes(frames: seq<TelemetryFrame>): nat {
    if frames == [] then 0 else |frames[0].payload| + Bytes(frames[1..])
  }

  function Newest(frames: seq<TelemetryFrame>, k: nat): seq<TelemetryFrame>
    requires k <= |frames|
  {
    frames[|frames| - k..]
  }

  predicate Fits(frames: seq<TelemetryFrame>, maxFrames: nat, maxBytes: nat) {
    (|frames| <= 1 || |frames| <= maxFrames) && Bytes(frames) <= maxBytes
  }

  /**
    `w` is the longest non-empty suffix of `pushed` within both caps, or just the newest frame
    when none is: what an eviction policy that saw the whole history at once would keep.
   */
  ghost predicate IsWindow(w: seq<TelemetryFrame>, pushed: seq<TelemetryFrame>, maxFrames: nat, maxBytes: nat) {
    && |w| <= |pushed| && w == Newest(pushed, |w|)
    && (pushed != [] ==> w != [])
    && (|w| == 1 || Fits(w, maxFrames, maxBytes))
    && (forall k :: |w| < k <= |pushed| ==> !Fits(Newest(pushed, k), maxFrames, maxBytes))
  }

  lemma WindowUnique(v: seq<TelemetryFrame>, w: seq<TelemetryFrame>, pushed: seq<TelemetryFrame>,
                     maxFrames: nat, maxBytes: nat)
    requires IsWindow(v, pushed, maxFrames, maxBytes) && IsWindow(w, pushed, maxFrames, maxBytes)
    ensures v == w
  {}

  lemma {:induction false} BytesAppend(frames: seq<TelemetryFrame>, f: TelemetryFrame)
    ensures Bytes(frames + [f]) == Bytes(frames) + |f.payload|
  {
    if frames == [] {
      assert frames + [f] == [f];
    } else {
      assert (frames + [f])[1..] == frames[1..] + [f];
      BytesAppend(frames[1..], f);
    }
  }

  function SaturatingSub(a: nat, b: nat): nat {
    if a >= b then a - b else 0
  }

  /** Why a buffered suffix of length `k` had to give way to a frame of `size` bytes. */
  ghost predicate NoRoom(frames: seq<TelemetryFrame>, k: nat, size: nat, maxFrames: nat, maxBytes: nat)
    requires k <= |frames|
  {
    k >= maxFrames || Bytes(Newest(frames, k)) + size > maxBytes
  }

  /** A suffix longer than the new window does not fit, evicted before or only now. */
  lemma LongerDoesNotFit(w: seq<TelemetryFrame>, keep: nat, pushed: seq<TelemetryFrame>, f: TelemetryFrame,
                         k: nat, maxFrames: nat, maxBytes: nat)
    requires IsWindow(w, pushed, maxFrames, maxBytes) && keep < k <= |pushed|
    requires k <= |w| ==> NoRoom(w, k, |f.payload|, maxFrames, maxBytes)
    ensures !Fits(Newest(pushed, k) + [f], maxFrames, maxBytes)
  {
    BytesAppend(Newest(pushed, k), f);
    if k <= |w| {
      assert Newest(pushed, k) == Newest(w, k);
    } else {
      assert !Fits(Newest(pushed, k), maxFrames, maxBytes);
    }
  }

  /** Evicting only what has no room next to the new frame keeps the window the longest one. */
  lemma WindowStep(w: seq<TelemetryFrame>, keep: nat, pushed: seq<TelemetryFrame>, f: TelemetryFrame,
                   maxFrames: nat, maxBytes: nat)
    requires IsWindow(w, pushed, maxFrames, maxBytes) && keep <= |w|
    requires keep > 0 ==> Fits(Newest(w, keep) + [f], maxFrames, maxBytes)
    requires forall k :: keep < k <= |w| ==> NoRoom(w, k, |f.payload|, maxFrames, maxBytes)
    ensures IsWindow(Newest(w, keep) + [f], pushed + [f], maxFrames, maxBytes)
  {
    hide Bytes, NoRoom, Fits;
    var next := Newest(w, keep) + [f];
    var h := pushed + [f];
    assert next == Newest(h, |next|);
    forall k | |next| < k <= |h|
      ensures !Fits(Newest(h, k), maxFrames, maxBytes)
    {
      assert Newest(h, k) == Newest(pushed, k - 1) + [f];
      LongerDoesNotFit(w, keep, pushed, f, k - 1, maxFrames, maxBytes);
    }
  }

  lemma NewestAll(frames: seq<TelemetryFrame>)
    ensures Newest(frames, |frames|) == frames
  {}

  lemma NewestTail(frames: seq<TelemetryFrame>, k: nat)
    requires 0 < k <= |frames|
    ensures |Newest(frames, k)| == k && Newest(frames, k)[1..] == Newest(frames, k - 1)
  {}

  lemma FitsTogether(frames: seq<TelemetryFrame>, f: TelemetryFrame, maxFrames: nat, maxBytes: nat)
    requires |frames| < maxFrames && Bytes(frames) + |f.payload| <= maxBytes
    ensures Fits(frames + [f], maxFrames, maxBytes)
  {
    BytesAppend(frames, f);
  }

  class ContextBuffer {
    var frames: seq<TelemetryFrame>
    const maxFrames: nat
    const maxBytes: nat
    var totalBytes: nat
    /** Everything pushed since the last clear. */
    ghost var pushed: seq<TelemetryFrame>
    /** What was evicted since then, oldest first. */
    ghost var evicted: seq<TelemetryFrame>

    ghost predicate Valid()
      reads this
    {
      && IsWindow(frames, pushed, maxFrames, maxBytes)
      && totalBytes == Bytes(frames)
      && evicted + frames == pushed
    }

    constructor (maxFrames: nat, maxBytes: nat)
      ensures Valid() && pushed == [] && this.maxFrames == maxFrames && this.maxBytes == maxBytes
    {
      this.maxFrames, this.maxBytes := maxFrames, maxBytes;
      frames, totalBytes := [], 0;
      pushed, evicted := [], [];
    }

    /** Drops the oldest frame; the saturating subtraction never saturates. */
    method EvictOldest()
      requires frames != [] && totalBytes == Bytes(frames)
      modifies this`frames, this`totalBytes, this`evicted
      ensures frames == old(frames)[1..] && totalBytes == Bytes(frames)
      ensures evicted == old(evicted) + [old(frames)[0]]
      ensures old(totalBytes) == totalBytes + |old(frames)[0].payload|
    {
      var oldest := frames[0];
      frames := frames[1..];
      evicted := evicted + [oldest];
      totalBytes := SaturatingSub(totalBytes, |oldest.payload|);
    }

    /**
      Evicting online keeps exactly the window of the whole history, with no precondition on the
      frame; nothing is lost on the way, what was evicted and what is kept make up the history.
     */
    method Push(frame: TelemetryFrame)
      requires Valid()
      modifies this
      ensures Valid() && pushed == old(pushed) + [frame]
    {
      hide IsWindow, Bytes, Fits, Newest;
      var size := |frame.payload|;
      ghost var before := frames;
      NewestAll(before);
      while totalBytes + size > maxBytes && frames != []
        invariant |frames| <= |before| && frames == Newest(before, |frames|)
        invariant totalBytes == Bytes(frames) && pushed == old(pushed)
        invariant evicted + frames == pushed
        invariant forall k :: |frames| < k <= |before| ==> NoRoom(before, k, size, maxFrames, maxBytes)
      {
        assert NoRoom(before, |frames|, size, maxFrames, maxBytes);
        NewestTail(before, |frames|);
        EvictOldest();
      }
      while |frames| >= maxFrames && frames != []
        invariant |frames| <= |before| && frames == Newest(before, |frames|)
        invariant totalBytes == Bytes(frames) && pushed == old(pushed)
        invariant evicted + frames == pushed
        invariant frames != [] ==> totalBytes + size <= maxBytes
        invariant forall k :: |frames| < k <= |before| ==> NoRoom(before, k, size, maxFrames, maxBytes)
      {
        assert NoRoom(before, |frames|, size, maxFrames, maxBytes);
        NewestTail(before, |frames|);
        EvictOldest();
      }
      BytesAppend(frames, frame);
      if frames != [] { FitsTogether(frames, frame, maxFrames, maxBytes); }
      WindowStep(before, |frames|, pushed, frame, maxFrames, maxBytes);
      totalBytes := totalBytes + size;
      assert evicted + (frames + [frame]) == (evicted + frames) + [frame];
      frames := frames + [frame];
      pushed := pushed + [frame];
    }

    /** The most recent frames, newest first. */
    function GetRecent(count: nat): (recent: seq<TelemetryFrame>)
      requires Valid()
      reads this
      ensures |recent| == if count < |frames| then count else |frames|
      ensures forall i :: 0 <= i < |recent| ==> recent[i] == pushed[|pushed| - 1 - i]
    {
      var n := if count < |frames| then count else |frames|;
      var all := frames;
      seq(n, (i: nat) requires i < n => all[|all| - 1 - i])
    }

    method Clear()
      modifies this
      ensures Valid() && pushed == []
    {
      frames, totalBytes := [], 0;
      pushed, evicted := [], [];
    }
  }

  /** The caps hold after any run exactly when the newest frame alone respects them. */
  lemma CapsHoldIffNewestFits(w: seq<TelemetryFrame>, pushed: seq<TelemetryFrame>, maxFrames: nat, maxBytes: nat)
    requires IsWindow(w, pushed, maxFrames, maxBytes) && pushed != []
    ensures Bytes(w) <= maxBytes <==> |pushed[|pushed| - 1].payload| <= maxBytes
    ensures |w| <= maxFrames <==> maxFrames >= 1
  {
    var newest := pushed[|pushed| - 1];
    assert w[..|w| - 1] + [newest] == w;
    BytesAppend(w[..|w| - 1], newest);
    if |w| == 1 { assert w == [newest]; }
  }
}
