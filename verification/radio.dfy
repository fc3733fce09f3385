/**
 * `RadioBroadcaster` as a state machine: every callback of `server.js` that
 * touches the broadcaster is one `Event`, and `Step` is its effect.
 */
module Radio {
  import opened Optional
  import opened JsValues
  import opened Registry
  import opened Broadcast
  import Catalog

  datatype Event =
    | Start                                      // `start()`
    | StartListed(listing: Option<seq<string>>)  // the listing `start()` requested arrives; first selection
    | RetryTimer                                 // the 5-second empty-playlist retry fires
    | Chunk(size: nat)                           // `data` on the current track's read
    | TrackEnd                                   // `end` on the current track's read
    | TrackError                                 // `error` on the current track's read
    | Rescan(listing: Option<seq<string>>)       // `refreshPlaylist` from the playlist or upload route
    | OrderRequest(newOrder: Option<Json>)       // POST /api/playlist/order with this `newOrder`
    | ClientAdd(res: Res)                        // GET /stream: `addClient(res)`
    | ClientRetry(res: Res)                      // the 1-second retry of `_streamForClient` fires
    | ResponseClose(res: Res)                    // `close` on the listener's response
    | ResponseError(res: Res)                    // `error` on the listener's response
    | ClientReadError(res: Res)                  // `error` on the listener's own file read
    | ClientReadClose(res: Res)                  // `close` on the listener's own file read

  /** Events that only a listener's connection or its own read raises. */
  predicate IsListenerEvent(e: Event) {
    e.ClientAdd? || e.ClientRetry? || e.ResponseClose? || e.ResponseError?
    || e.ClientReadError? || e.ClientReadClose?
  }

  /** `t` is at the start of a track: byte 0 of the entry the index names. */
  ghost predicate AtTrackStart(t: Broadcaster) {
    && t.loop.Streaming?
    && t.byteOffset == 0
    && t.currentFileIndex < |t.playlist|
    && t.currentFileName.Some?
    && t.playlist[t.currentFileIndex] == JString(t.currentFileName.value)
  }

  /** One selection: the nested skip calls never exceed the playlist's length (see `SelectionEndsIff`). */
  function Select(s: Broadcaster, onDisk: set<string>): (r: Next)
    ensures r.Running? ==> r.state.clients == s.clients
    ensures r.Running? && (r.state.byteOffset < s.byteOffset || r.state.currentFileName != s.currentFileName) ==>
              AtTrackStart(r.state)
  {
    StartGlobalBroadcast(s, onDisk, |s.playlist|)
  }

  /** `start()`: a no-op once broadcasting; otherwise raise the flag and request the listing. */
  function StartBroadcast(s: Broadcaster): (r: Broadcaster)
    ensures r.isBroadcasting
    ensures s.isBroadcasting ==> r == s
    ensures !s.isBroadcasting ==> r.loop == AwaitingListing
    ensures r.(isBroadcasting := s.isBroadcasting, loop := s.loop) == s
  {
    if s.isBroadcasting then s else s.(isBroadcasting := true, loop := AwaitingListing)
  }

  /** The `data` handler: the offset grows by the chunk's length. */
  function OnChunk(s: Broadcaster, size: nat): (r: Broadcaster)
    ensures s.loop.Streaming? ==> r.byteOffset == s.byteOffset + size
    ensures r.(byteOffset := s.byteOffset) == s
  {
    if s.loop.Streaming? then s.(byteOffset := s.byteOffset + size) else s
  }

  /** `updatePlaylistOrder`: only the playlist changes; the index still counts positions. */
  function UpdatePlaylistOrder(s: Broadcaster, newOrder: seq<Json>): (r: Broadcaster)
    ensures r.playlist == newOrder
    ensures r.(playlist := s.playlist) == s
  {
    s.(playlist := newOrder)
  }

  /**
   * The file a listener's read opens: `this.currentFileName || ''`, so the
   * uploads directory itself (`""`) whenever no track name is set.
   */
  function ListenerFile(s: Broadcaster): (r: string)
    ensures s.currentFileName.Some? ==> r == s.currentFileName.value
    ensures s.currentFileName.None? ==> r == ""
  {
    match s.currentFileName
    case Some(name) => name
    case None => ""
  }

  /**
   * `_streamForClient`: nothing for a listener not in the registry; nothing
   * yet (a retry in one second) when the file is missing; otherwise the
   * listener gets its own read of that file from the current `byteOffset`.
   */
  function StreamForClient(s: Broadcaster, res: Res, onDisk: set<string>): (r: Broadcaster)
    ensures res !in s.clients ==> r == s
    ensures r.(clients := s.clients) == s
    ensures r.clients.Keys == s.clients.Keys
    ensures forall k :: k in s.clients && k != res ==> r.clients[k] == s.clients[k]
    ensures res in s.clients && ListenerFile(s) in onDisk ==>
              r.clients[res].stream == Some(ClientRead(ListenerFile(s), s.byteOffset))
    ensures ListenerFile(s) !in onDisk ==> r == s
  {
    if res !in s.clients then s
    else
      var file := ListenerFile(s);
      if file !in onDisk then s
      else s.(clients := Attach(s.clients, res, ClientRead(file, s.byteOffset)))
  }

  /**
   * `addClient`: exactly one entry, keyed by the response, is registered and
   * then seeded at the live offset; no other entry and no broadcast field
   * changes.
   */
  function AddClient(s: Broadcaster, res: Res, onDisk: set<string>): (r: Broadcaster)
    ensures r.(clients := s.clients) == s
    ensures r.clients.Keys == s.clients.Keys + {res}
    ensures forall k :: k in s.clients && k != res ==> r.clients[k] == s.clients[k]
    ensures r.clients[res].stream ==
              if ListenerFile(s) in onDisk then Some(ClientRead(ListenerFile(s), s.byteOffset)) else None
  {
    StreamForClient(s.(clients := Register(s.clients, res)), res, onDisk)
  }

  /** The close and error handlers: `clients.delete(res)`. */
  function DropClient(s: Broadcaster, res: Res): (r: Broadcaster)
    ensures r.(clients := s.clients) == s
    ensures r.clients.Keys == s.clients.Keys - {res}
    ensures forall k :: k in r.clients ==> r.clients[k] == s.clients[k]
  {
    s.(clients := Drop(s.clients, res))
  }

  /**
   * The effect of one event, given which names `fs.existsSync` finds at that
   * moment (`""` stands for the uploads directory itself). Track events that
   * arrive while their callback is not pending cannot happen and change nothing.
   *
   * Only a selection (the first one after `start()`, the retry, `end`,
   * `error`) can stop the process. Broadcast events leave the registry alone
   * and listener events touch nothing else. The offset only ever falls, and
   * the track name only ever changes, when a track starts at byte 0 from the
   * entry the index names.
   */
  function Step(s: Broadcaster, e: Event, onDisk: set<string>): (r: Next)
    ensures r.Crashed? ==> e.StartListed? || e.RetryTimer? || e.TrackEnd? || e.TrackError?
    ensures !IsListenerEvent(e) && r.Running? ==> r.state.clients == s.clients
    ensures IsListenerEvent(e) ==> r.Running? && r.state.(clients := s.clients) == s
    ensures r.Running? && (r.state.byteOffset < s.byteOffset || r.state.currentFileName != s.currentFileName) ==>
              AtTrackStart(r.state)
  {
    if IsListenerEvent(e) then Running(ListenerStep(s, e, onDisk)) else BroadcastStep(s, e, onDisk)
  }

  /** The broadcast loop's and the catalog's events. */
  function BroadcastStep(s: Broadcaster, e: Event, onDisk: set<string>): (r: Next)
    requires !IsListenerEvent(e)
    ensures r.Crashed? ==> e.StartListed? || e.RetryTimer? || e.TrackEnd? || e.TrackError?
    ensures r.Running? ==> r.state.clients == s.clients
    ensures r.Running? && (r.state.byteOffset < s.byteOffset || r.state.currentFileName != s.currentFileName) ==>
              AtTrackStart(r.state)
  {
    match e
    case Start => Running(StartBroadcast(s))
    case StartListed(listing) =>
      if s.loop.AwaitingListing? then Select(s.(playlist := Catalog.Refresh(listing)), onDisk)
      else Running(s)
    case RetryTimer =>
      if s.loop.AwaitingRetry? then Select(s, onDisk) else Running(s)
    case Chunk(size) => Running(OnChunk(s, size))
    case TrackEnd =>
      if s.loop.Streaming? then Select(s.(currentFileIndex := s.currentFileIndex + 1), onDisk)
      else Running(s)
    case TrackError =>
      if s.loop.Streaming? then Select(s.(currentFileIndex := s.currentFileIndex + 1), onDisk)
      else Running(s)
    case Rescan(listing) => Running(s.(playlist := Catalog.Refresh(listing)))
    case OrderRequest(newOrder) =>
      var accepted := Catalog.OrderRoute(newOrder);
      if accepted.Some? then Running(UpdatePlaylistOrder(s, accepted.value)) else Running(s)
  }

  /** A listener's connection events and the events of its own read. */
  function ListenerStep(s: Broadcaster, e: Event, onDisk: set<string>): (r: Broadcaster)
    requires IsListenerEvent(e)
    ensures r.(clients := s.clients) == s
  {
    match e
    case ClientAdd(res) => AddClient(s, res, onDisk)
    case ClientRetry(res) => StreamForClient(s, res, onDisk)
    case ResponseClose(res) => DropClient(s, res)
    case ResponseError(res) => DropClient(s, res)
    case ClientReadError(res) => DropClient(s, res)
    case ClientReadClose(res) => DropClient(s, res)
  }

  /** One event together with what the file system holds when it is handled. */
  datatype Input = Input(event: Event, onDisk: set<string>)

  /** Events in order, until the process stops. */
  function Run(s: Broadcaster, trace: seq<Input>): Next
    decreases |trace|
  {
    if |trace| == 0 then Running(s)
    else
      match Step(s, trace[0].event, trace[0].onDisk)
      case Crashed(c) => Crashed(c)
      case Running(t) => Run(t, trace[1..])
  }

  /**
   * The flag `isBroadcasting` is raised exactly when the loop has left
   * `Idle`; a track is named whenever its read is live; and nothing moves
   * the position before the first selection.
   */
  ghost predicate Valid(s: Broadcaster) {
    && (s.isBroadcasting <==> !s.loop.Idle?)
    && (s.loop.Streaming? ==> s.currentFileName.Some?)
    && ((s.loop.Idle? || s.loop.AwaitingListing?) ==>
          s.currentFileIndex == 0 && s.currentFileName.None? && s.byteOffset == 0)
  }

  lemma InitialValid()
    ensures Valid(Initial)
  {
  }

  lemma StepKeepsValid(s: Broadcaster, e: Event, onDisk: set<string>)
    requires Valid(s)
    ensures Step(s, e, onDisk).Running? ==> Valid(Step(s, e, onDisk).state)
  {
  }

  lemma {:induction false} RunKeepsValid(s: Broadcaster, trace: seq<Input>)
    requires Valid(s)
    ensures Run(s, trace).Running? ==> Valid(Run(s, trace).state)
    decreases |trace|
  {
    if |trace| > 0 {
      StepKeepsValid(s, trace[0].event, trace[0].onDisk);
      var n := Step(s, trace[0].event, trace[0].onDisk);
      if n.Running? {
        RunKeepsValid(n.state, trace[1..]);
      }
    }
  }
}
