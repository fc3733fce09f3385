/**
 * Properties of the broadcaster's event handling: idempotent start, track
 * advance, byte-offset accounting, playlist reordering, and the independence
 * of listeners from the broadcast and from one another.
 */
module RadioFacts {
  import opened Optional
  import opened JsValues
  import opened Registry
  import opened Broadcast
  import opened Radio

  /** A second `start()` changes nothing, whatever the first found. */
  lemma StartIdempotent(s: Broadcaster, d1: set<string>, d2: set<string>)
    ensures s.isBroadcasting ==> Step(s, Start, d1) == Running(s)
    ensures Step(Step(s, Start, d1).state, Start, d2) == Step(s, Start, d1)
  {
  }

  /**
   * On `end` or `error` the index moves to the next position (wrapping to 0
   * past the end); when that entry's file exists it is the new track, read
   * from byte 0.
   */
  lemma TrackOverAdvancesOne(s: Broadcaster, e: Event, onDisk: set<string>)
    requires e == TrackEnd || e == TrackError
    requires s.loop.Streaming? && |s.playlist| > 0
    requires var j := Wrap(s.currentFileIndex + 1, |s.playlist|);
             s.playlist[j].JString? && s.playlist[j].s in onDisk
    ensures var j := Wrap(s.currentFileIndex + 1, |s.playlist|);
            Step(s, e, onDisk) == Running(s.(currentFileIndex := j,
                                             currentFileName := Some(s.playlist[j].s),
                                             byteOffset := 0))
  {
  }

  /**
   * On `end` or `error` with a missing next file, the skip goes one further
   * position: the outcome is that of a selection from two positions on, and
   * the name and offset of the finished track are still in place until a
   * track starts.
   */
  lemma MissingNextSkipped(s: Broadcaster, e: Event, onDisk: set<string>)
    requires e == TrackEnd || e == TrackError
    requires s.loop.Streaming? && |s.playlist| > 0
    requires var j := Wrap(s.currentFileIndex + 1, |s.playlist|);
             s.playlist[j].JString? && s.playlist[j].s !in onDisk
    ensures var j := Wrap(s.currentFileIndex + 1, |s.playlist|);
            Step(s, e, onDisk) ==
              StartGlobalBroadcast(s.(currentFileIndex := j + 1), onDisk, |s.playlist| - 1)
  {
  }

  /** `Sum(ns)`: the total length of the chunks `ns`. */
  function Sum(ns: seq<nat>): nat {
    if |ns| == 0 then 0 else ns[0] + Sum(ns[1..])
  }

  /** The state after the `data` events for chunks of the lengths `ns`. */
  function FeedChunks(s: Broadcaster, ns: seq<nat>): Broadcaster
    decreases |ns|
  {
    if |ns| == 0 then s else FeedChunks(OnChunk(s, ns[0]), ns[1..])
  }

  /** While a track's read is live, the offset grows by exactly the bytes read, and nothing else changes. */
  lemma {:induction false} ChunksAccumulate(s: Broadcaster, ns: seq<nat>)
    requires s.loop.Streaming?
    ensures FeedChunks(s, ns) == s.(byteOffset := s.byteOffset + Sum(ns))
    decreases |ns|
  {
    if |ns| > 0 {
      ChunksAccumulate(OnChunk(s, ns[0]), ns[1..]);
    }
  }

  lemma {:induction false} SumAppend(a: seq<nat>, b: seq<nat>)
    ensures Sum(a + b) == Sum(a) + Sum(b)
    decreases |a|
  {
    if |a| > 0 {
      assert (a + b)[1..] == a[1..] + b;
      SumAppend(a[1..], b);
    } else {
      assert a + b == b;
    }
  }

  /**
   * From the start of a track, `byteOffset` is the total length of the chunks
   * read since, so later chunks never make it smaller.
   */
  lemma TrackOffsetCountsBytes(s: Broadcaster, onDisk: set<string>, a: seq<nat>, b: seq<nat>)
    requires |s.playlist| > 0 && Select(s, onDisk).Running?
    ensures FeedChunks(Select(s, onDisk).state, a).byteOffset == Sum(a)
    ensures FeedChunks(Select(s, onDisk).state, a).byteOffset
            <= FeedChunks(Select(s, onDisk).state, a + b).byteOffset
  {
    var t := Select(s, onDisk).state;
    ChunksAccumulate(t, a);
    ChunksAccumulate(t, a + b);
    SumAppend(a, b);
  }

  /**
   * The order route: an array replaces the playlist and nothing else, even if
   * it names files the catalog never held; anything else leaves the state as
   * it was.
   */
  lemma ReorderOnlyReplacesPlaylist(s: Broadcaster, newOrder: Option<Json>, onDisk: set<string>)
    ensures newOrder.Some? && newOrder.value.JArray? ==>
              Step(s, OrderRequest(newOrder), onDisk) == Running(s.(playlist := newOrder.value.items))
    ensures !(newOrder.Some? && newOrder.value.JArray?) ==>
              Step(s, OrderRequest(newOrder), onDisk) == Running(s)
  {
  }

  /**
   * After a reorder, the track that follows the current one is chosen by the
   * old index in the new list, not by where the current track went.
   */
  lemma ReorderThenEnd(s: Broadcaster, order: seq<Json>, onDisk: set<string>)
    requires s.loop.Streaming?
    ensures var t := Step(s, OrderRequest(Some(JArray(order))), onDisk).state;
            Step(t, TrackEnd, onDisk) ==
              Select(s.(playlist := order, currentFileIndex := s.currentFileIndex + 1), onDisk)
  {
  }

  /**
   * Catalog [A, B, C] with B playing, reordered to [C, A, B]: when B ends the
   * index moves from 1 to 2, so B plays again rather than C.
   */
  lemma ReorderReplaysCurrentTrack()
    ensures var a, b, c := "A.flac", "B.flac", "C.flac";
            var s := Initial.(playlist := [JString(a), JString(b), JString(c)], currentFileIndex := 1,
                              isBroadcasting := true, currentFileName := Some(b),
                              byteOffset := 2000, loop := Streaming);
            var t := Step(s, OrderRequest(Some(JArray([JString(c), JString(a), JString(b)]))), {a, b, c}).state;
            var u := Step(t, TrackEnd, {a, b, c});
            u.Running? && u.state.currentFileName == Some(b) && u.state.currentFileIndex == 2
  {
  }

  /** Catalog [A, B, C] with C deleted: when B ends, C is skipped and A starts. */
  lemma MissingTrackSkipped()
    ensures var a, b, c := "A.flac", "B.flac", "C.flac";
            var s := Initial.(playlist := [JString(a), JString(b), JString(c)], currentFileIndex := 1,
                              isBroadcasting := true, currentFileName := Some(b),
                              byteOffset := 2000, loop := Streaming);
            var u := Step(s, TrackEnd, {a, b});
            u.Running? && u.state.currentFileName == Some(a) && u.state.currentFileIndex == 0
  {
    var a, b, c := "A.flac", "B.flac", "C.flac";
    var s := Initial.(playlist := [JString(a), JString(b), JString(c)], currentFileIndex := 1,
                      isBroadcasting := true, currentFileName := Some(b),
                      byteOffset := 2000, loop := Streaming);
    assert c !in {a, b};
    var s1 := s.(currentFileIndex := 2);
    assert Step(s, TrackEnd, {a, b}) == StartGlobalBroadcast(s1, {a, b}, 3);
    assert StartGlobalBroadcast(s1, {a, b}, 3) == StartGlobalBroadcast(s.(currentFileIndex := 3), {a, b}, 2);
  }

  /**
   * When a track's read ends or fails and the next entry (wrapping) is not a
   * string, the process stops: `path.join` throws on that entry.
   */
  lemma NonStringEntryCrashes(s: Broadcaster, e: Event, onDisk: set<string>)
    requires e == TrackEnd || e == TrackError
    requires s.loop.Streaming? && |s.playlist| > 0
    requires !s.playlist[Wrap(s.currentFileIndex + 1, |s.playlist|)].JString?
    ensures Step(s, e, onDisk) == Crashed(PathNotString(Wrap(s.currentFileIndex + 1, |s.playlist|)))
  {
  }

  /** The reorder route lets a number into the playlist, and the next selection that reaches it stops the process. */
  lemma ReorderedNumberCrashes()
    ensures var s := Initial.(playlist := [JString("A.flac")], isBroadcasting := true,
                              currentFileName := Some("A.flac"), loop := Streaming);
            var t := Step(s, OrderRequest(Some(JArray([JString("A.flac"), JNumber(7)]))), {"A.flac"}).state;
            Step(t, TrackEnd, {"A.flac"}) == Crashed(PathNotString(1))
  {
  }

  /**
   * A close or error on a listener's response or its own read removes that
   * listener only; a second such event changes nothing.
   */
  lemma LeaveRemovesOnlyThatListener(s: Broadcaster, e: Event, e2: Event, onDisk: set<string>)
    requires e.ResponseClose? || e.ResponseError? || e.ClientReadError? || e.ClientReadClose?
    requires e2.ResponseClose? || e2.ResponseError? || e2.ClientReadError? || e2.ClientReadClose?
    requires e2.res == e.res
    ensures var t := Step(s, e, onDisk).state;
            && t.clients.Keys == s.clients.Keys - {e.res}
            && (forall k :: k in t.clients ==> t.clients[k] == s.clients[k])
            && Step(t, e2, onDisk) == Running(t)
  {
  }

  /**
   * A listener that joins while a track is live reads that track's file from
   * the live offset, and keeps that read through every later chunk.
   */
  lemma JoinSeedsAtLiveOffset(s: Broadcaster, res: Res, onDisk: set<string>, ns: seq<nat>)
    requires Valid(s) && s.loop.Streaming?
    requires s.currentFileName.value in onDisk
    ensures var t := Step(s, ClientAdd(res), onDisk).state;
            && t.clients[res].stream == Some(ClientRead(s.currentFileName.value, s.byteOffset))
            && res in FeedChunks(t, ns).clients
            && FeedChunks(t, ns).clients[res].stream == Some(ClientRead(s.currentFileName.value, s.byteOffset))
            && FeedChunks(t, ns).byteOffset == s.byteOffset + Sum(ns)
  {
    var t := Step(s, ClientAdd(res), onDisk).state;
    ChunksAccumulate(t, ns);
  }

  /**
   * While no track name is set (before the first track starts, in particular
   * while `start()` awaits its listing), a joining listener's read opens the
   * uploads directory itself (`""`) at the current offset, which is 0 then.
   */
  lemma EarlyListenerReadsDirectory(s: Broadcaster, res: Res, onDisk: set<string>)
    requires s.currentFileName.None? && "" in onDisk
    ensures Step(s, ClientAdd(res), onDisk).state.clients[res].stream == Some(ClientRead("", s.byteOffset))
    ensures Valid(s) && s.loop.AwaitingListing? ==>
              Step(s, ClientAdd(res), onDisk).state.clients[res].stream == Some(ClientRead("", 0))
  {
  }

  /** A listener's record changes only through that listener's own join or retry. */
  lemma OnlyOwnEventsMoveARead(s: Broadcaster, e: Event, onDisk: set<string>, res: Res)
    requires e != ClientAdd(res) && e != ClientRetry(res)
    ensures var r := Step(s, e, onDisk);
            r.Running? && res in r.state.clients ==> res in s.clients && r.state.clients[res] == s.clients[res]
  {
  }

  /** Any run of listener events leaves every broadcast field as it was. */
  lemma {:induction false} ListenersNeverSteerBroadcast(s: Broadcaster, trace: seq<Input>)
    requires forall i :: 0 <= i < |trace| ==> IsListenerEvent(trace[i].event)
    ensures Run(s, trace).Running?
    ensures Run(s, trace).state.(clients := s.clients) == s
    decreases |trace|
  {
    if |trace| > 0 {
      var t := Step(s, trace[0].event, trace[0].onDisk).state;
      ListenersNeverSteerBroadcast(t, trace[1..]);
    }
  }

  /** Any run of broadcast events, across any number of track changes, leaves the registry as it was. */
  lemma {:induction false} BroadcastNeverTouchesListeners(s: Broadcaster, trace: seq<Input>)
    requires forall i :: 0 <= i < |trace| ==> !IsListenerEvent(trace[i].event)
    ensures Run(s, trace).Running? ==> Run(s, trace).state.clients == s.clients
    decreases |trace|
  {
    if |trace| > 0 {
      var n := Step(s, trace[0].event, trace[0].onDisk);
      if n.Running? {
        BroadcastNeverTouchesListeners(n.state, trace[1..]);
      }
    }
  }

  /** The total length of the `data` chunks among `trace`'s events. */
  function ChunkBytes(trace: seq<Input>): nat
    decreases |trace|
  {
    if |trace| == 0 then 0
    else (if trace[0].event.Chunk? then trace[0].event.size else 0) + ChunkBytes(trace[1..])
  }

  /**
   * Within a track, whatever else happens between its chunks (listeners
   * joining and leaving, rescans, reorders, a repeated `start()`), the track
   * stays live, its name and index stay, and the offset grows by exactly the
   * chunk bytes read, so it never decreases.
   */
  lemma {:induction false} OffsetCountsBytesWithinTrack(s: Broadcaster, trace: seq<Input>)
    requires Valid(s) && s.loop.Streaming?
    requires forall i :: 0 <= i < |trace| ==> !trace[i].event.TrackEnd? && !trace[i].event.TrackError?
    ensures Run(s, trace).Running?
    ensures Run(s, trace).state.loop.Streaming?
    ensures Run(s, trace).state.byteOffset == s.byteOffset + ChunkBytes(trace)
    ensures Run(s, trace).state.currentFileName == s.currentFileName
    ensures Run(s, trace).state.currentFileIndex == s.currentFileIndex
    decreases |trace|
  {
    if |trace| > 0 {
      var e := trace[0].event;
      StepKeepsValid(s, e, trace[0].onDisk);
      var n := Step(s, e, trace[0].onDisk);
      assert n.Running? && n.state.loop.Streaming?;
      assert n.state.byteOffset == s.byteOffset + (if e.Chunk? then e.size else 0);
      OffsetCountsBytesWithinTrack(n.state, trace[1..]);
    }
  }
}
