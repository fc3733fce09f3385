# Lossless radio broadcaster, modelled in Dafny

This project models `RadioBroadcaster` from `server.js`. It is the single object that drives the radio:
- it walks through an ordered playlist of `.flac` files, one track after another;
- it counts how many bytes of the current track have been read (`byteOffset`);
- it rebuilds the playlist from the uploads directory, and replaces it on a reorder request;
- it keeps a registry of listeners. Each listener gets its own read of the current file, starting at `byteOffset`.

The callbacks are treated as discrete events, and each event is a pure transition over an immutable state record (`Radio.Step`). The events are:
- `start()`;
- the directory listing arriving;
- the empty-playlist retry timer;
- `data`, `end` and `error` on the current track's read;
- a rescan;
- the reorder route;
- a listener joining, its retry timer, and `close`/`error` on its response or on its own read.

The file system is a parameter. `onDisk` is the set of names for which `fs.existsSync` holds when an event is handled. The name `""` stands for the uploads directory itself.

Modules:
- `Optional`: `Option`.
- `JsValues`: JSON values, JavaScript truthiness, `Array.isArray`.
- `PathExt`: Node's POSIX `path.extname` and the `.flac` test.
- `Catalog`: `refreshPlaylist` and the order route's check.
- `Registry`: the listener map.
- `Broadcast`: the state and `_startGlobalBroadcast`.
- `Radio`: events, handlers, the transition function and its invariant.
- `RadioFacts`: properties relating several events.

Behaviours of the code that the model states rather than assumes away:
- **The missing-file skip is synchronous recursion.** `StartGlobalBroadcast` carries a fuel bound. `SelectionEndsIff` proves that `|playlist|` nested calls are enough exactly when some entry stops the skip, and `NoStopNeverEnds` proves that no fuel is enough otherwise. An entry stops the skip when its file exists or when it is not a string. When no entry stops it, the outcome is `Crashed(EndlessSkip)`: the recursion never returns.
- **The reorder route accepts any array.** Its elements are not checked. A non-string element makes `path.join` throw when a selection reaches it (`Crashed(PathNotString)`, `NonStringEntryCrashes`).
- **Reordering does not touch `currentFileIndex`.** The next track is the entry at the old index + 1 in the new list. Say B is playing from [A, B, C] and the list is reordered to [C, A, B]. When B ends, the index moves from 1 to 2, so B plays again rather than C (`ReorderReplaysCurrentTrack`).
- **Each listener reads the file on its own; there is no shared fan-out.** A listener's read starts at the live `byteOffset`, and the listener leaves the registry when that read closes. Nothing hands a listener over to the next track: track changes never touch listeners (`BroadcastNeverTouchesListeners`).
- **Early listeners read the directory.** A listener that joins while no track name is set reads `currentFileName || ''`, which is the uploads directory itself, from the current `byteOffset` (`EarlyListenerReadsDirectory`).

## Model

| member | source | states |
|---|---|---|
| PathExt.Extname | server.js:69 | an extension is empty or is a `.` followed by characters that are neither `.` nor `/`; for a name without `/`, it is non-empty exactly when the name is not `..` and has a `.` after its first character, and it then runs from the name's last `.` to its end |
| PathExt.ExtnameInLastSegment | server.js:69 | a non-empty extension is a proper suffix of the path without its trailing `/`s, and the character before it is not `/` |
| PathExt.SegmentExt | server.js:69 | a segment's extension runs from its last `.` to its end, and that `.` is never the segment's first character |
| PathExt.SegmentExtNonEmpty | server.js:69 | a segment has an extension exactly when it is not `..` and has a `.` after its first character |
| PathExt.IsFlac | server.js:69 | for a directory entry, the filter holds exactly when the name is longer than five characters and ends in `.flac` in any letter case (a bare `.flac` is rejected) |
| Catalog.FlacOnly | server.js:69 | the filtered list holds each `.flac` name as often as the listing does, no other name, in listing order (a subsequence) |
| Catalog.Refresh | server.js:66-75 | a rebuilt playlist holds exactly the listed `.flac` names as strings; a failed listing gives the empty playlist |
| Catalog.OrderRoute | server.js:211-217 | the route accepts exactly the arrays, whatever their contents, and hands them over unchanged; anything else is rejected |
| Registry.Register | server.js:35-42 | registering adds exactly the response's key, with no read yet, and keeps every other entry |
| Registry.Attach | server.js:155-156 | seeding a listener's read changes only that listener's record |
| Registry.Drop | server.js:51 | deleting removes exactly that key and keeps every other entry as it was |
| Registry.DropIdempotent | server.js:45-61 | removing a listener twice equals removing it once |
| Registry.DropCommutes | server.js:45-61 | two listeners leaving give the same registry in either order |
| Broadcast.StartGlobalBroadcast | server.js:88-112 | an empty playlist only schedules the retry (index, name, offset unchanged); a started track is a wrapped in-range index whose entry is an existing name, with `currentFileName` set to it and `byteOffset` reset to 0; a crash names a non-string entry or an endless skip |
| Broadcast.StopWithin | server.js:95-107 | when a playable entry lies within the fuel's reach from the wrapped index, the skip ends |
| Broadcast.NoStopNeverEnds | server.js:102-107 | when every entry is a missing file, the skip never ends, whatever the fuel |
| Broadcast.SelectionEndsIff | server.js:95-107 | the selection ends within `playlist.length` calls if and only if the playlist is empty or some entry stops it |
| Broadcast.FuelSuffices | server.js:102-107 | once the selection ends, more fuel gives the same result |
| Broadcast.SkipsOnlyMissing | server.js:95-107 | every position passed over on the way from the wrapped index to the started track held a missing file, so the first playable entry is the one started |
| Broadcast.ThrowsOnlyAtFirstStop | server.js:95-107 | a throw on a non-string entry happens only at the first entry that stops the skip: every position passed over on the way to it held a missing file |
| Radio.StartBroadcast | server.js:82-86 | `start()` only raises the flag and requests the listing, and does nothing once broadcasting |
| Radio.OnChunk | server.js:121-123 | a chunk grows the offset by its length and changes nothing else |
| Radio.UpdatePlaylistOrder | server.js:77-80 | a reorder replaces the playlist and leaves the index, the current name and the offset as they were |
| Radio.ListenerFile | server.js:143 | a listener reads the current track's file, or the uploads directory (`""`) while no track name is set |
| Radio.StreamForClient | server.js:140-158 | a listener not in the registry is ignored; with the file missing nothing changes; otherwise the listener's read opens the current file (or the uploads directory when no track has started) at the live `byteOffset`, and no other listener changes |
| Radio.AddClient | server.js:35-64 | joining adds exactly one registry entry, keyed by the response, seeded at the live offset, and changes nothing else |
| Radio.DropClient | server.js:45-61 | a leaving listener's entry goes; every other entry and every broadcast field stays |
| Radio.Select | server.js:88-112 | a selection never touches the registry, and whenever it lowers the offset or changes the track name, it has just opened a read of the playlist entry at the in-range index, at byte 0 |
| Radio.BroadcastStep | server.js:82-137 | a broadcast event can stop the process only through a selection (the listing, the retry timer, `end` or `error`), and never changes the registry |
| Radio.ListenerStep | server.js:35-64 | a listener event changes nothing but the registry |
| Radio.Step | server.js:35-170 | every event: only a selection can crash; broadcast events keep the registry; listener events never crash and change only the registry; the offset falls or the track name changes only when a track starts at byte 0 |
| Radio.InitialValid | server.js:19-33 | the constructor's state satisfies the invariant |
| Radio.StepKeepsValid | server.js:82-138 | every event keeps the invariant: the flag is up exactly when the loop has left `Idle`, a live read always has a track name, and nothing moves before the first selection |
| Radio.RunKeepsValid | server.js:82-138 | the invariant holds after any sequence of events |
| RadioFacts.StartIdempotent | server.js:82-86 | a second `start()` changes nothing |
| RadioFacts.TrackOverAdvancesOne | server.js:127-137 | on `end` or `error` the index moves one position on (wrapping to 0), and an existing file there starts from byte 0 |
| RadioFacts.MissingNextSkipped | server.js:102-107 | when the next file is missing, the selection continues one position further, with the old name and offset still in place |
| RadioFacts.ChunksAccumulate | server.js:121-123 | while a read is live, the offset grows by exactly the total chunk length and nothing else changes |
| RadioFacts.SumAppend | server.js:122 | the byte total of two runs of chunks is the sum of their totals |
| RadioFacts.TrackOffsetCountsBytes | server.js:109-123 | from a track's start, `byteOffset` equals the bytes read since, and it never decreases within the track |
| RadioFacts.OffsetCountsBytesWithinTrack | server.js:121-123 | across any run of events without `end` or `error` on the track's read (chunks, listeners joining and leaving, rescans, reorders, repeated `start()`), the track and its index stay, the read stays live, and `byteOffset` grows by exactly the bytes of the chunks in the run |
| RadioFacts.ReorderOnlyReplacesPlaylist | server.js:211-217 | an accepted reorder replaces only the playlist, even with names not in the catalog; a rejected one changes nothing |
| RadioFacts.ReorderThenEnd | server.js:77-80 | after a reorder, the next selection starts at the old index + 1 in the new list |
| RadioFacts.ReorderReplaysCurrentTrack | server.js:129 | [A, B, C] with B playing, reordered to [C, A, B]: B plays again next |
| RadioFacts.MissingTrackSkipped | server.js:102-107 | [A, B, C] with C deleted: after B, A starts at index 0 |
| RadioFacts.NonStringEntryCrashes | server.js:99-137 | when a track's read ends or fails and the next entry (wrapping) is not a string, the process stops with `path.join` throwing on that entry |
| RadioFacts.ReorderedNumberCrashes | server.js:77-100 | the order route lets a number into the playlist, and the selection after the current track stops the process on it |
| RadioFacts.LeaveRemovesOnlyThatListener | server.js:160-170 | close or error on a listener's response or read removes that listener only, and a repeat changes nothing |
| RadioFacts.OnlyOwnEventsMoveARead | server.js:35-64 | a listener's record changes only through its own join or retry; every other event keeps it or removes it |
| RadioFacts.ListenersNeverSteerBroadcast | server.js:35-64 | any sequence of listener joins, retries, closes and errors leaves the playlist, index, track, offset and loop as they were |
| RadioFacts.BroadcastNeverTouchesListeners | server.js:88-137 | any sequence of broadcast events, across any number of track changes, leaves the listener registry as it was |
| RadioFacts.JoinSeedsAtLiveOffset | server.js:155 | in any reachable state with a live track whose file exists, a joining listener reads that file from the live offset, and keeps that read while the broadcast offset grows |
| RadioFacts.EarlyListenerReadsDirectory | server.js:143-155 | whenever no track name is set, a joining listener's read opens the uploads directory at the live offset; while `start()` awaits its listing that offset is 0 |

## Left out

- HTTP plumbing. The Express routes, multer storage, `express.static` and response headers are left out. The one exception is the order route's array check (`Catalog.OrderRoute`).
- Stream I/O is left out: `fs.createReadStream`, `pipe`, the `PassThrough`, and stream destruction. The model keeps only the counters and registry changes that these calls drive.
- `cleanup()` is not modelled. Nothing in the code calls it.
- The ending of a listener's response is not modelled. When a listener's own read ends, `pipe` ends the response. The model records only the listener's removal from the registry.
- Flow control is not modelled. The `PassThrough` at server.js:118 has no reader. By Node's stream rules a file read delivers 64 KiB chunks and the pass-through buffers 16 KiB, so `pipe` pauses the master read after its first chunk. For a file over 64 KiB, `byteOffset` then stays at 65536 and `end` never fires; the broadcast stalls on its first track. This follows from Node's documented stream behaviour and was not executed. The model lets the environment deliver `data`, `end` and `error` in any order while the read is live, so its properties cover the code with that stall removed, and say nothing about how many chunks arrive.
- Timers are not modelled as time. The empty-playlist retry is the loop state `AwaitingRetry`, which the `RetryTimer` event ends. A listener waiting for its one-second retry is a registry entry with no read.
- `ClientRetry` applies `_streamForClient` to any state. That timer exists only while the listener has no read.
- Asynchrony is collapsed into single events. The directory listing that `start()` awaits arrives as one event, `StartListed`. That event also covers the callback that runs the first selection. A rescan's await and assignment form one event.
- Client ids (`Date.now() + Math.random()`), `currentFileStartTime`, `broadcastStartTime`, `isLooping` and console logging are left out. No decision depends on them.
- `masterStream` and `sharedStream` are left out as objects. Whether the master read is live is the loop state `Streaming`.
- Paths are not modelled. `path.join` and its normalisation are abstracted into the set of names that exist. Creating the uploads directory at startup is left out.
- JSON numbers are integers; NaN and fractions are not modelled. No decision here depends on them.
- `PathExt.LowerChar` folds only ASCII letters. No other character lower-cases to one of `.flac`'s characters.
- `Broadcast.StartGlobalBroadcast`: the fuel bound stands for the unbounded synchronous recursion. How the process fails when the recursion never returns, such as exhausting the call stack, is not modelled beyond `Crashed(EndlessSkip)`.
- The browser code in `public/js/main.js` and `public/js/playlist.js` is not part of this model. It is audio-element and drag-and-drop UI.
