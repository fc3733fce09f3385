/**
 * The broadcaster's state and `_startGlobalBroadcast`, the selection of the
 * next track: empty-playlist retry, index wrap, the synchronous skip over
 * missing files, and the start of a track.
 */
module Broadcast {
  import opened Optional
  import opened JsValues
  import opened Registry

  /**
   * Which callback the broadcast loop is waiting for: nothing yet (`start` not
   * called), the directory listing requested by `start`, the 5-second
   * empty-playlist retry timer, or the `data`/`end`/`error` events of the
   * current track's read.
   */
  datatype Loop = Idle | AwaitingListing | AwaitingRetry | Streaming

  /** The fields of `RadioBroadcaster` that drive a decision. */
  datatype Broadcaster = Broadcaster(
    playlist: seq<Json>,
    currentFileIndex: nat,
    isBroadcasting: bool,
    clients: Clients,
    currentFileName: Option<string>,
    byteOffset: nat,
    loop: Loop)

  /** The constructor's state. */
  const Initial: Broadcaster := Broadcaster([], 0, false, map[], None, 0, Idle)

  /**
   * Ways the process stops: `path.join` throws on a playlist entry that is
   * not a string, or the skip over missing files never returns.
   */
  datatype Crash = PathNotString(index: nat) | EndlessSkip

  /** The outcome of one event. */
  datatype Next = Running(state: Broadcaster) | Crashed(crash: Crash)

  /** Index normalisation: an index at or past the end of the playlist reads position 0. */
  function Wrap(index: nat, n: nat): nat {
    if index >= n then 0 else index
  }

  /**
   * An entry at which the skip loop stops: a name whose file exists, or a
   * value that is not a string (on which `path.join` throws).
   */
  predicate Stops(e: Json, onDisk: set<string>) {
    !e.JString? || e.s in onDisk
  }

  /**
   * `t` is `s` with the entry at `t.currentFileIndex` started as the current
   * track from byte 0; that entry is a name whose file exists, and nothing
   * else (playlist, clients, `isBroadcasting`) changed.
   */
  ghost predicate StartedTrack(s: Broadcaster, t: Broadcaster, onDisk: set<string>) {
    && t.currentFileIndex < |s.playlist|
    && s.playlist[t.currentFileIndex].JString?
    && s.playlist[t.currentFileIndex].s in onDisk
    && t == s.(currentFileIndex := t.currentFileIndex,
               currentFileName := Some(s.playlist[t.currentFileIndex].s),
               byteOffset := 0,
               loop := Streaming)
  }

  /**
   * `_startGlobalBroadcast`, allowed `fuel` nested calls. An empty playlist
   * only schedules the retry. Otherwise the index is wrapped and the entry it
   * names is examined: a non-string throws, a missing file advances the index
   * by one and recurses, and an existing file becomes the current track read
   * from byte 0.
   */
  function StartGlobalBroadcast(s: Broadcaster, onDisk: set<string>, fuel: nat): (r: Next)
    decreases fuel
    ensures |s.playlist| == 0 ==> r.Running? && r.state.loop == AwaitingRetry
    ensures |s.playlist| == 0 ==> r.state.(loop := s.loop) == s
    ensures |s.playlist| > 0 && r.Running? ==> StartedTrack(s, r.state, onDisk)
    ensures r.Crashed? ==> |s.playlist| > 0
    ensures r.Crashed? && r.crash.PathNotString? ==>
              r.crash.index < |s.playlist| && !s.playlist[r.crash.index].JString?
  {
    if |s.playlist| == 0 then Running(s.(loop := AwaitingRetry))
    else if fuel == 0 then Crashed(EndlessSkip)
    else
      var i := Wrap(s.currentFileIndex, |s.playlist|);
      var entry := s.playlist[i];
      if !entry.JString? then Crashed(PathNotString(i))
      else if entry.s !in onDisk then
        StartGlobalBroadcast(s.(currentFileIndex := i + 1), onDisk, fuel - 1)
      else
        Running(s.(currentFileIndex := i, currentFileName := Some(entry.s),
                   byteOffset := 0, loop := Streaming))
  }

  /** Steps from position `j` forward, wrapping at `n`, until position `k`. */
  function Dist(j: nat, k: nat, n: nat): nat
    requires j < n && k < n
  {
    if j <= k then k - j else n - j + k
  }

  /** `p` lies on the way from `j` forward (wrapping) to `i`, `i` excluded. */
  predicate CyclicallyBefore(j: nat, p: nat, i: nat) {
    if j <= i then j <= p < i else j <= p || p < i
  }

  /**
   * If the entry at `k` stops the skip loop and the fuel covers the walk from
   * the wrapped index to `k`, the selection does not run out of fuel.
   */
  lemma {:induction false} StopWithin(s: Broadcaster, onDisk: set<string>, fuel: nat, k: nat)
    requires 0 <= k < |s.playlist|
    requires Stops(s.playlist[k], onDisk)
    requires fuel > Dist(Wrap(s.currentFileIndex, |s.playlist|), k, |s.playlist|)
    ensures StartGlobalBroadcast(s, onDisk, fuel) != Crashed(EndlessSkip)
    decreases fuel
  {
    var n := |s.playlist|;
    var i := Wrap(s.currentFileIndex, n);
    var entry := s.playlist[i];
    if entry.JString? && entry.s !in onDisk {
      assert i != k;
      var s' := s.(currentFileIndex := i + 1);
      assert Dist(Wrap(i + 1, n), k, n) == Dist(i, k, n) - 1;
      StopWithin(s', onDisk, fuel - 1, k);
    }
  }

  /**
   * If no entry stops the skip loop, no amount of fuel is enough. This follows
   * from the contract of `StartGlobalBroadcast`: a start and a throw each name
   * an entry that stops the loop.
   */
  lemma NoStopNeverEnds(s: Broadcaster, onDisk: set<string>, fuel: nat)
    requires |s.playlist| > 0
    requires forall k :: 0 <= k < |s.playlist| ==> !Stops(s.playlist[k], onDisk)
    ensures StartGlobalBroadcast(s, onDisk, fuel) == Crashed(EndlessSkip)
  {
    var r := StartGlobalBroadcast(s, onDisk, fuel);
    if r.Running? {
      assert Stops(s.playlist[r.state.currentFileIndex], onDisk);
    } else if r.crash.PathNotString? {
      assert Stops(s.playlist[r.crash.index], onDisk);
    }
  }

  /**
   * The selection finishes within `|playlist|` nested calls if and only if
   * some entry stops it; with an empty playlist it always finishes.
   */
  lemma SelectionEndsIff(s: Broadcaster, onDisk: set<string>)
    ensures StartGlobalBroadcast(s, onDisk, |s.playlist|) != Crashed(EndlessSkip)
            <==> |s.playlist| == 0 || exists k :: 0 <= k < |s.playlist| && Stops(s.playlist[k], onDisk)
  {
    var n := |s.playlist|;
    if n > 0 {
      if k :| 0 <= k < n && Stops(s.playlist[k], onDisk) {
        StopWithin(s, onDisk, n, k);
      } else {
        NoStopNeverEnds(s, onDisk, n);
      }
    }
  }

  /** Once the selection finishes, more fuel changes nothing. */
  lemma {:induction false} FuelSuffices(s: Broadcaster, onDisk: set<string>, fuel: nat, more: nat)
    requires StartGlobalBroadcast(s, onDisk, fuel) != Crashed(EndlessSkip)
    requires fuel <= more
    ensures StartGlobalBroadcast(s, onDisk, more) == StartGlobalBroadcast(s, onDisk, fuel)
    decreases fuel
  {
    if |s.playlist| > 0 && fuel > 0 {
      var i := Wrap(s.currentFileIndex, |s.playlist|);
      var entry := s.playlist[i];
      if entry.JString? && entry.s !in onDisk {
        FuelSuffices(s.(currentFileIndex := i + 1), onDisk, fuel - 1, more - 1);
      }
    }
  }

  /**
   * The started track is the first playable entry: every position from the
   * wrapped index forward (wrapping) to the started one holds a name whose
   * file is missing.
   */
  lemma {:induction false} SkipsOnlyMissing(s: Broadcaster, onDisk: set<string>, fuel: nat)
    requires |s.playlist| > 0
    requires StartGlobalBroadcast(s, onDisk, fuel).Running?
    ensures forall p :: 0 <= p < |s.playlist|
              && CyclicallyBefore(Wrap(s.currentFileIndex, |s.playlist|), p,
                                  StartGlobalBroadcast(s, onDisk, fuel).state.currentFileIndex)
              ==> s.playlist[p].JString? && s.playlist[p].s !in onDisk
    decreases fuel
  {
    var n := |s.playlist|;
    var j := Wrap(s.currentFileIndex, n);
    var entry := s.playlist[j];
    var t := StartGlobalBroadcast(s, onDisk, fuel).state;
    if entry.JString? && entry.s !in onDisk {
      var s' := s.(currentFileIndex := j + 1);
      SkipsOnlyMissing(s', onDisk, fuel - 1);
      assert t == StartGlobalBroadcast(s', onDisk, fuel - 1).state;
      var j' := Wrap(j + 1, n);
      assert t.currentFileIndex != j;
      forall p | 0 <= p < n && CyclicallyBefore(j, p, t.currentFileIndex)
        ensures s.playlist[p].JString? && s.playlist[p].s !in onDisk
      {
        if p != j {
          assert CyclicallyBefore(j', p, t.currentFileIndex);
        }
      }
    } else {
      assert t.currentFileIndex == j;
    }
  }

  /**
   * A throw on a non-string entry also happens at the first entry that stops
   * the skip: every position from the wrapped index forward (wrapping) to the
   * thrown-on one holds a name whose file is missing.
   */
  lemma {:induction false} ThrowsOnlyAtFirstStop(s: Broadcaster, onDisk: set<string>, fuel: nat)
    requires StartGlobalBroadcast(s, onDisk, fuel).Crashed?
    requires StartGlobalBroadcast(s, onDisk, fuel).crash.PathNotString?
    ensures |s.playlist| > 0
    ensures forall p :: 0 <= p < |s.playlist|
              && CyclicallyBefore(Wrap(s.currentFileIndex, |s.playlist|), p,
                                  StartGlobalBroadcast(s, onDisk, fuel).crash.index)
              ==> s.playlist[p].JString? && s.playlist[p].s !in onDisk
    decreases fuel
  {
    var n := |s.playlist|;
    var j := Wrap(s.currentFileIndex, n);
    var entry := s.playlist[j];
    var c := StartGlobalBroadcast(s, onDisk, fuel).crash;
    if entry.JString? && entry.s !in onDisk {
      var s' := s.(currentFileIndex := j + 1);
      ThrowsOnlyAtFirstStop(s', onDisk, fuel - 1);
      assert c == StartGlobalBroadcast(s', onDisk, fuel - 1).crash;
      var j' := Wrap(j + 1, n);
      assert c.index != j;
      forall p | 0 <= p < n && CyclicallyBefore(j, p, c.index)
        ensures s.playlist[p].JString? && s.playlist[p].s !in onDisk
      {
        if p != j {
          assert CyclicallyBefore(j', p, c.index);
        }
      }
    } else {
      assert c.index == j;
    }
  }
}
