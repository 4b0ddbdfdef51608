# boxten core, modelled in Dafny

boxten is a modular music player. A playback controller pulls PCM packets
out of a stream input, runs them through sound processors and pushes them
to a stream output. The packets pass through a frame-counted buffer.
Playlists share ref-counted audio files through a cache. Event hooks let
components react to song and playback-state changes. Components are loaded
from module libraries and configured through JSON.

This project models the decision logic of that core as pure Dafny
functions over immutable datatypes, and proves what each operation
promises:

- `Pcm` (pcm.dfy): sample formats, byte width, format equality and the frame count of a packet unit.
- `PcmBuffer` (buffer.dfy): the PCM buffer. This covers `filled_frame`, `free_frame`, `append`, `clear`, `get_next_format` and `cut`, including how units are split and the underrun notification.
- `Playback` (playback.cpp, playback.dfy): the playback controller's command handlers (start, stop, pause, resume, song change) and the command-queue batch. It also covers the body of the fill loop with its 64-bit `frames_left` arithmetic, the underrun latch, the position queries, the packet hand-off to the output and the cursor corrections made when the playing playlist changes. The state is an `Engine` value. Every side effect is listed in the returned `Effect` log: hook invocations, output-device calls, spawning and joining the fill worker, and disk reads.
- `AudioFile` (audiofile.dfy): private decoder data and its deleter, plus the total frame count.
- `Playlist` (playlist.dfy): the audio-file cache (`get_audio_ref`/`release_audio_ref`) and the playlist operations `add`, `insert`, `erase`, `size` and `[]`.
- `EventHook` (eventhook.dfy): installing, uninstalling and invoking hooks, and how the hook thread dispatches a batch.
- `Registry` (registry.dfy): `search_component` and the list concatenation in `open_modules`.
- `Plugin` (plugin.dfy): component construction and destruction, the console prefix and the cached resource directory.
- `JsonTest`, `Configuration`, `ConfigTool` (jsontest.dfy, configuration.dfy, config_tool.dfy): JSON type checks, configuration lookups, layout parsing, config-directory discovery and the default input/output components.
- `Debug` (debug.dfy): how the debug printer assigns colours to threads.
- `Arith`, `Wrappers`, `Paths`: helpers. They cover division facts, `Option`, and the part of `std::filesystem::path::operator/=` that the core relies on.

Fixed-width arithmetic is written out where the source depends on it:
- the unsigned 64-bit subtraction behind `frames_left` (`Playback.SubU64`);
- the 32-bit reference-count decrement (`Playlist.DecU32`);
- the `size_t` to `int` conversion in `get_color` (`Debug.DecToInt`).

Two places in the source state an intent that the code does not carry out
(see Findings). `playing_playlist_erase` ends with
`if(playing_playlist->empty()) stop_playback();` (playback.cpp:442), so
erasing the last member should stop playback, but it runs before the member
is removed. `Playlist::insert(path, pos)` (playlist.cpp:88-90) takes a
position, and `proc_insert` corrects the cursor for it, but the member is
appended at the end. The model follows the code: `Playlist.Insert` and
`Playlist.EraseAsWritten` behave as written, and `Playlist.ProcInsert` and
`Playlist.Erase` are the corrected versions.

The model also shows that STOP leaves the underrun freeze in place
(`Playback.RestartKeepsFreeze`): after STOP and PLAY from a frozen engine,
the fill loop's latch starts the output and then resumes it once more.

## Model

| member | source | states |
|---|---|---|
| Pcm.Bytewidth | src/libboxten/type.hpp:44-67 | the byte width is at most 4, and is 0 exactly for an UNKNOWN sample type |
| Pcm.BytewidthMatchesBits | src/libboxten/type.hpp:44-67 | the byte width is the encoding's bit depth divided by 8: 1 for S8/U8, 2 for the 16-bit, 3 for the 24-bit, 4 for FLOAT and the 32-bit types |
| Pcm.FormatEq | src/libboxten/type.hpp:69-73 | two formats compare equal exactly when sample type, channels and rate all agree |
| Pcm.FormatNe | src/libboxten/type.hpp:74-76 | `!=` is exactly the negation of `==` |
| Pcm.FormatEqIsEquivalence | src/libboxten/type.hpp:69-73 | format equality is reflexive, symmetric and transitive |
| Pcm.Frames | src/libboxten/type.hpp:83-85 | the whole-frame count never exceeds the byte count, and is 0 when the bytes do not hold one sample |
| Pcm.FramesBracket | src/libboxten/type.hpp:83-85 | `get_frames` is the number of whole frames in the bytes: that many fit and one more does not; exact for frame-aligned bytes |
| PcmBuffer.FilledFrame | src/libboxten/buffer.cpp:19-27 | the loop's running total equals the frame sum over all buffered units |
| PcmBuffer.FreeFrame | src/libboxten/buffer.cpp:28-31 | free space is the limit minus the filled frames when the buffer is not over the limit, 0 otherwise; filled + free equals the limit in the first case |
| PcmBuffer.FreeFrameAfterAppend | src/libboxten/buffer.cpp:28-31 | appending a unit lowers the free count by the unit's frames, down to 0 |
| PcmBuffer.Clear | src/libboxten/buffer.cpp:12-18 | clearing empties the buffer and sets the refill flag; the underrun handler stays as it was |
| PcmBuffer.AppendUnit | src/libboxten/buffer.cpp:32-42 | appending adds exactly that unit at the back; earlier units and the refill flag are untouched, and there is no capacity check |
| PcmBuffer.AppendUnitFrames | src/libboxten/buffer.cpp:32-42 | appending a unit of known format raises the filled frames by exactly that unit's frames |
| PcmBuffer.AppendPacket | src/libboxten/buffer.cpp:43-47 | appending a packet equals appending its units one by one, in order |
| PcmBuffer.HeadTail | src/libboxten/buffer.cpp:67-75 | splitting a unit after k frames gives a head of exactly k frames and a tail of the remaining frames, whose bytes join back to the unit's |
| PcmBuffer.CutUnits | src/libboxten/buffer.cpp:57-85 | the returned units total min(n, filled) frames and the kept units the remainder; returned bytes followed by kept bytes are the original bytes; the units are either divided whole between the two or split at one unit |
| PcmBuffer.Cut | src/libboxten/buffer.cpp:48-88 | a cut reports an underrun exactly when more frames are asked for than are buffered and a handler is set; it returns min(n, filled) frames and keeps the rest; returned and kept bytes join to the original; the packet is empty exactly when the buffer was; the refill flag is set |
| PcmBuffer.CutBeyondFilled | src/libboxten/buffer.cpp:49-55 | cutting more than is filled yields the same packet and buffer as cutting exactly the filled frames; only the former notifies the handler, and it does so when one is set |
| PcmBuffer.CutSplitRanges | src/libboxten/buffer.cpp:67-75 | when a cut splits a unit, the returned piece starts at the old start and spans its own frames, the remainder starts where the piece ends and keeps the old end, and both keep the unit's format |
| PcmBuffer.CutScenario | src/libboxten/buffer.cpp:48-88 | on three 512-frame stereo 16-bit units, cutting 1000 frames returns 1000 frames, leaves 536 and reports no underrun |
| PcmBuffer.NextFormat | src/libboxten/buffer.cpp:89-97 | the next format is UNKNOWN for an empty buffer, otherwise the front unit's format |
| EventHook.Install | src/libboxten/eventhook.cpp:40-43 | installing appends one (hook, event, component) entry at the end and keeps the rest |
| EventHook.Uninstall | src/libboxten/eventhook.cpp:44-53 | after uninstalling, no entry names the component, and every other entry is kept in order |
| EventHook.WithoutIdempotent | src/libboxten/eventhook.cpp:44-53 | a second uninstall of the same component changes nothing |
| EventHook.Invoke | src/libboxten/eventhook.cpp:54-56 | invoking only queues (event, payload) at the back; the installed hooks are untouched |
| EventHook.CallsFor | src/libboxten/eventhook.cpp:24-27 | an event causes exactly as many calls as there are hooks installed for it, each with that event and its payload |
| EventHook.ProcessPending | src/libboxten/eventhook.cpp:22-32 | a batch empties the queue and keeps the hooks; its action log is the dispatch of the queued events in queue order (so the dispatch lemmas below apply to it), with one call per (queued event, listener) pair plus one release per non-null payload |
| EventHook.CallsForMatch | src/libboxten/eventhook.cpp:24-27 | every call an event causes goes to a hook installed for that event, with that event and its payload |
| EventHook.CallsForAppend | src/libboxten/eventhook.cpp:24-27 | the calls for a list of installed entries are the calls for its front followed by the calls for its back |
| EventHook.CallsForInOrder | src/libboxten/eventhook.cpp:24-27 | each installed entry contributes exactly its own call (one if it listens for the event, none otherwise) at its install position: all calls of earlier entries come before it and all calls of later entries after it |
| EventHook.InstallRunsLast | src/libboxten/eventhook.cpp:40-43 | a newly installed hook is called after every hook installed before it, once for each event it listens for |
| EventHook.Dispatch | src/libboxten/eventhook.cpp:22-32 | a batch's action log has, per queued event, one call per listener plus one release if the payload is non-null |
| EventHook.DispatchAppend | src/libboxten/eventhook.cpp:22-32 | dispatching two queued batches one after the other gives the same actions as dispatching them joined |
| EventHook.DispatchInPlace | src/libboxten/eventhook.cpp:22-32 | in a batch, the calls and then the release of the event at position i come after every action of earlier events and before every action of later ones |
| EventHook.InvokeThenProcess | src/libboxten/eventhook.cpp:54-56 | an invoked event is handled after everything already pending: its listeners' calls in install order, then the release of its payload |
| EventHook.NoCallsAfterUninstall | src/libboxten/eventhook.cpp:44-53 | after uninstall, every call an event causes goes to a hook of another component |
| Playback.Start | src/libboxten/playback.cpp:163-187 | start does nothing without a playlist, when already playing or when the playlist is empty, and acts as resume from paused. Otherwise the engine is the old one with state PLAYING, cursor (0,0), end-of-playlist cleared, starting set and the underrun handler installed, and nothing else changes (the frozen flag, seek target, pause position, packet formats and buffered data are kept). The effects are SONG_CHANGE(old, 0), spawning the fill worker, and (STOPPED, PLAYING) |
| Playback.Stop | src/libboxten/playback.cpp:188-200 | stop does nothing when stopped. Otherwise it joins the fill worker, stops the output and reports (old, STOPPED). The engine is the old one with state STOPPED and the buffer cleared, and nothing else changes (cursor, starting, frozen, end-of-playlist and seek target are kept) |
| Playback.Pause | src/libboxten/playback.cpp:201-208 | pause acts only while playing: it pauses the output, moves to PAUSED, records the current position and reports the change |
| Playback.Resume | src/libboxten/playback.cpp:209-219 | resume acts only while paused: it resumes the output, moves to PLAYING and reports the change; nothing else changes |
| Playback.PlaybackPos | src/libboxten/playback.cpp:137-144 | the position is -1 exactly when stopped; the recorded pause position when paused; while playing, the pending seek target if there is one, else the extrapolated estimate |
| Playback.DelayCorrected | src/libboxten/playback.cpp:155-156 | the reported position is the extrapolated frame minus the output delay, clamped at 0, and never later than the extrapolated frame |
| Playback.DefaultDelayKeepsPosition | src/libboxten/plugin.cpp:68-70 | an output with the default delay reports the extrapolated frame unchanged, and a larger delay never reports a later position |
| Playback.ChangeSongAbs | src/libboxten/playback.cpp:259-273 | an index outside [0, size) changes nothing; otherwise the cursor becomes (index, 0), seeked_to becomes 0, the buffer is cleared (refill flag set, underrun handler kept) and one song change is reported; nothing else in the engine changes, so the state, `end_of_playlist`, the starting and frozen flags, the pause position and the packet formats are kept |
| Playback.SongChangeAtEndStops | src/libboxten/playback.cpp:21-29 | since a song change keeps `end_of_playlist`, after the last song has been read to its end a change of song still leaves it set, and the next underrun queues STOP |
| Playback.ChangeSongRel | src/libboxten/playback.cpp:274-289 | a zero delta or a target outside [0, size) changes nothing; otherwise the engine equals the input with only the cursor moved to (song + delta, 0), seeked_to set to 0 and the buffer cleared, plus one song change report |
| Playback.ChangeSongAbsReported | src/libboxten/playback.cpp:259-273 | after a successful absolute change while playing, the playing index is the new index and the position reads 0 |
| Playback.Process | src/libboxten/playback.cpp:297-326 | handling a command never changes the playlist the engine plays |
| Playback.Run | src/libboxten/playback.cpp:297-326 | a batch of commands never changes the playlist the engine plays |
| Playback.RunAppend | src/libboxten/playback.cpp:297-326 | running two batches in turn equals running them as one batch, with the effects concatenated |
| Playback.ProcessFollowsDiagram | src/libboxten/playback.cpp:163-219 | PLAY ends in PLAYING or leaves the state; STOP always ends in STOPPED; PAUSE moves PLAYING to PAUSED and leaves other states; RESUME moves PAUSED to PLAYING and leaves other states; song changes keep the state; only PLAY leaves STOPPED |
| Playback.PlayWithEmptyPlaylist | src/libboxten/playback.cpp:163-170 | play with an empty or missing playlist changes nothing |
| Playback.StopIdempotent | src/libboxten/playback.cpp:188-200 | a second stop is a no-op |
| Playback.PauseResume | src/libboxten/playback.cpp:201-219 | pausing and then resuming gives back the same engine, with only the recorded pause position changed |
| Playback.ProcessKeepsInv | src/libboxten/playback.cpp:163-289 | every command keeps the engine invariant: a running engine has a playlist and a non-negative song, and every buffered unit has a known format |
| Playback.PlayingIndex | src/libboxten/playback.cpp:132-136 | the playing index is -1 when stopped, otherwise the cursor's song |
| Playback.PlayingSongLength | src/libboxten/playback.cpp:378-386 | the song length is 0 when the cursor is outside the playlist, otherwise that song's total frames |
| Playback.SubU64 | src/libboxten/playback.cpp:69 | unsigned 64-bit subtraction: the difference when it is not negative, otherwise wrapped by 2^64 |
| Playback.ToRead | src/libboxten/playback.cpp:69-70 | frames to read are min(512, total − (frame+1)) when frame+1 ≤ total; when the subtraction wraps they are 512 |
| Playback.FillStep | src/libboxten/playback.cpp:61-90 | a cursor beyond the playlist sets end-of-playlist; otherwise it logs a read of ToRead frames from the cursor; reaching the end of the last song moves the frame to unit end + 1 and sets end-of-playlist without appending; reaching the end of another song reports SONG_CHANGE(s, s+1), moves to (s+1, 0) and appends; otherwise the frame becomes unit end + 1 and the unit is appended |
| Playback.FillStepProgress | src/libboxten/playback.cpp:61-90 | a step keeps the engine invariant, never moves back a song, and either leaves the buffer alone or appends the unit, adding exactly its frames |
| Playback.Latch | src/libboxten/playback.cpp:44-54 | without enough packets, or when neither starting nor frozen, nothing happens; when starting it starts the output and clears starting; when frozen it resumes the output and unfreezes |
| Playback.UnderrunHandler | src/libboxten/playback.cpp:25-33 | an underrun queues STOP when the playlist is exhausted; otherwise it pauses the output and freezes, unless already frozen, when it does nothing |
| Playback.UnderrunOncePerFreeze | src/libboxten/playback.cpp:25-33 | a second underrun while frozen does nothing more |
| Playback.UnderrunThenRefill | src/libboxten/playback.cpp:25-54 | from a running engine, an underrun pauses the output and freezes. The latch does nothing while packets are short, and once there are enough it resumes the output and gives back exactly the engine before the underrun |
| Playback.RestartKeepsFreeze | src/libboxten/playback.cpp:163-200 | STOP does not clear a freeze: after STOP then PLAY from a frozen engine, the first latch starts the output and the next one resumes it again |
| Playback.FormatsOf | src/libboxten/playback.cpp:96-115 | one record per unit, in order, holding its frame range and sampling rate |
| Playback.GetBufferPcmPacket | src/libboxten/playback.cpp:449-457 | the output receives the buffer's cut, and an underrun runs the handler, whose effects are returned. The engine becomes frozen exactly when it was frozen or the cut underruns before the playlist is exhausted. A non-empty packet clears the seek target and records its formats, and an empty one changes neither. Cursor, state, playlist, starting, end-of-playlist and pause position are kept |
| Playback.DeliveryUnderrunRecovers | src/libboxten/playback.cpp:449-457 | a delivery that runs short while more of the playlist is still to be buffered freezes the engine with one pause of the output, and the latch then resumes it and unfreezes |
| Playback.InsertCorrection | src/libboxten/playback.cpp:417-429 | an insertion after the cursor's song leaves the cursor alone; otherwise the song index goes up by one |
| Playback.EraseCorrection | src/libboxten/playback.cpp:430-441 | an erase after the song leaves the cursor alone, before it decrements the song, and at it keeps the song and rewinds the frame to 0 |
| Playback.PlayingPlaylistErase | src/libboxten/playback.cpp:430-444 | the cursor gets the erase correction, and STOP is queued exactly when the size it is given is 0 |
| AudioFile.New | src/libboxten/audiofile.hpp:18-34 | a new file keeps its path, has 0 total frames and has no private data or deleter |
| AudioFile.Free | src/libboxten/audiofile.cpp:4-10 | freeing calls the deleter once on the data and clears both when both are set, and does nothing otherwise |
| AudioFile.FreeIdempotent | src/libboxten/audiofile.cpp:4-10 | a second free calls nothing and changes nothing |
| AudioFile.SetPrivateData | src/libboxten/audiofile.cpp:21-25 | setting frees the previous data exactly as `free` would when it was set, calls nothing when it was not, then stores the new data and deleter |
| AudioFile.GetPrivateData | src/libboxten/audiofile.cpp:26-28 | the datum returned is the one destruction frees: none is freed when it is null, and with a deleter that deleter is called on it |
| AudioFile.SetTotalFrames | src/libboxten/audiofile.cpp:29-31 | setting the total frames keeps the path and the private data |
| AudioFile.GetTotalFrames | src/libboxten/audiofile.cpp:32-34 | storing the count read back changes nothing |
| AudioFile.GetAfterSet | src/libboxten/audiofile.cpp:26-34 | the getters return the values last set, and a new file reports 0 frames |
| AudioFile.ReplaceFreesOnce | src/libboxten/audiofile.cpp:21-39 | replacing data calls the old deleter once on the old data, and destruction then calls the new deleter once on the new data |
| AudioFile.Destroy | src/libboxten/audiofile.cpp:36-39 | destruction frees the private data as `free` does: at most one deleter call, made exactly when both the datum and the deleter are set, and that call is the deleter applied to the datum |
| Playlist.Find | src/libboxten/playlist.cpp:23-30 | the search returns the first entry matching the key, or None when there is none |
| Playlist.GetAudioRef | src/libboxten/playlist.cpp:23-37 | a cached path returns its handle and raises its count by one, with no entry added; a new path appends one entry with count 1 |
| Playlist.DecU32 | src/libboxten/playlist.cpp:41 | the `u32` decrement wraps 0 to 2^32 − 1 |
| Playlist.RemoveAt | src/libboxten/playlist.cpp:43 | erasing keeps every other entry, in order |
| Playlist.ReleaseAsWritten | src/libboxten/playlist.cpp:38-49 | as written: an unknown handle changes nothing; a count above 1 is decremented as in the corrected release; at count 1 the entry is removed, but the file is deleted exactly when the entry was the last one in the vector |
| Playlist.Release | src/libboxten/playlist.cpp:38-49 | corrected: an unknown handle changes nothing; at count 1 the entry is removed and its file deleted, wherever the entry sits; otherwise the count drops by one and the entries stay in place |
| Playlist.GetAudioRefKeepsValid | src/libboxten/playlist.cpp:23-37 | acquisition keeps the cache well formed and leak-free, and the handle names a live file |
| Playlist.ReleaseKeepsValid | src/libboxten/playlist.cpp:38-49 | the corrected release keeps the cache well formed and leak-free: the live files are exactly those with an entry |
| Playlist.GetReleaseRoundTrip | src/libboxten/playlist.cpp:23-49 | acquiring a path and releasing the handle returned restores the entries and the live files |
| Playlist.AcquireManyShape | src/libboxten/playlist.cpp:23-37 | n ≥ 1 acquisitions of a new path add one entry for it, at the end, with count n |
| Playlist.ReleaseManyShape | src/libboxten/playlist.cpp:38-49 | k releases of an entry with count k remove it and its file, and leave the others |
| Playlist.AcquireReleaseBalance | src/libboxten/playlist.cpp:23-49 | n acquisitions of a new path followed by n releases restore the entries and live files and leave no entry for that path |
| Playlist.ReleaseAsWrittenLeaks | src/libboxten/playlist.cpp:38-49 | as written, on cache [a (count 1), b (count 1)], releasing a removes its entry but its file stays live with no entry |
| Playlist.InsertCursor | src/libboxten/playlist.cpp:58-70 | a cursor is kept exactly when there was one, and it gets the insert correction |
| Playlist.ProcInsertAsWritten | src/libboxten/playlist.cpp:58-70 | as written, the new handle goes to the end whatever the position, while the cursor gets the correction for an insertion at pos; the cache is the one the acquisition leaves |
| Playlist.ProcInsert | src/libboxten/playlist.cpp:58-70 | corrected: the acquired handle goes in at pos, members before it keep their index, members after it shift by one, and the cache is the one acquisition leaves |
| Playlist.Add | src/libboxten/playlist.cpp:85-87 | `add` inserts at the current size, which puts the acquired handle at the end |
| Playlist.Insert | src/libboxten/playlist.cpp:88-90 | `insert` hands its position to `proc_insert`, so the new member is appended at the end, the cursor is corrected for the position, and the cache is the one the acquisition leaves |
| Playlist.InsertOnlyAtEnd | src/libboxten/playlist.cpp:58-70 | `insert` at the end agrees with the intended insertion; at an earlier position in front of any member other than the newcomer's own file, the member lists differ |
| Playlist.InsertKeepsPlaying | src/libboxten/playlist.cpp:58-70 | with the corrected insertion, the cursor still names the same member at the same frame |
| Playlist.InsertAsWrittenMovesCursor | src/libboxten/playlist.cpp:58-70 | as written, members [0, 1] playing 1, inserting at 0 makes the cursor name the new member 2 |
| Playlist.EraseAsWritten | src/libboxten/playlist.cpp:91-102 | as written: the member at pos is removed and the rest keep their order, its reference is dropped by the leaking release, and a cursor gets the erase correction |
| Playlist.Erase | src/libboxten/playlist.cpp:91-102 | corrected: the member at pos is removed and the rest keep their order, its reference is dropped once by the corrected release, and a cursor gets the erase correction |
| Playlist.EraseAsWrittenNeverStops | src/libboxten/playback.cpp:442 | as written, erasing never queues STOP, even when it removes the last member |
| Playlist.EraseStopsWhenEmptied | src/libboxten/playlist.cpp:91-102 | corrected: erasing queues something exactly when the playlist is playing and loses its only member, and then it is exactly STOP |
| Playlist.EraseKeepsPlaying | src/libboxten/playlist.cpp:91-102 | erasing another member keeps the cursor on the same member; erasing the playing one keeps the index and rewinds to frame 0 |
| Playlist.Size | src/libboxten/playlist.cpp:108-110 | the size is 0 exactly when the playlist has no members |
| Playlist.At | src/libboxten/playlist.cpp:111-113 | `[n]` is one of the playlist's members |
| Playlist.InsertSizeAt | src/libboxten/playlist.cpp:88-90 | after `insert` the size is one more, every earlier index names the same member, and the last index names the new audio file |
| Playlist.EraseSizeAt | src/libboxten/playlist.cpp:91-102 | after `erase`, as written or corrected, the size is one less, indices before pos name the same members and later ones move one down |
| Playlist.AddAtSize | src/libboxten/playlist.cpp:85-113 | after `add`, `size` is one more, `[old size]` is a cached file for that path, and erasing it restores the size |
| Registry.SearchCatalogue | src/libboxten/module.cpp:34-35 | the catalogue search returns the first entry with that name, or None when there is none |
| Registry.SearchComponent | src/libboxten/module.cpp:31-42 | the result is the first entry of the reference list of matches (module order, then catalogue order), or None when it is empty |
| Registry.AllMatches | src/libboxten/module.cpp:31-42 | the reference list of construction parameters holds only pairs matching both names |
| Registry.SearchNullIffAbsent | src/libboxten/module.cpp:31-42 | the search returns null exactly when no module and entry match both names |
| Registry.SearchPassesNamesake | src/libboxten/module.cpp:33-35 | a module with the right name but without the component does not stop the search |
| Registry.LoadDir | src/libboxten/module.cpp:14-27 | a directory's modules are exactly those of its libraries that opened and exported `install_modules`; none when none did |
| Registry.OpenModules | src/libboxten/module.cpp:12-30 | the returned count is the length of the list, and existing modules stay as its prefix |
| Registry.OpenModulesAppend | src/libboxten/module.cpp:12-30 | opening two directory lists in turn equals opening them joined |
| Registry.OpenOneDir | src/libboxten/module.cpp:13-29 | one directory contributes exactly its library's module list |
| Registry.FailedDirAddsNothing | src/libboxten/module.cpp:15-24 | a directory none of whose libraries load leaves the list and its count as they were |
| Plugin.BuildConsolePrefix | src/libboxten/plugin.cpp:13-16 | the prefix is "[" + name + "] " |
| Plugin.Construct | src/libboxten/plugin.cpp:54-57 | the component's name is (module name, entry name), its type is the entry's, its resource directory is not yet set, and its console prefix is built from the module name |
| Plugin.GetResourceDir | src/libboxten/plugin.cpp:18-24 | the first call stores and returns DATADIR joined with the module name; later calls return the stored value; nothing else changes |
| Plugin.ResourceDirCached | src/libboxten/plugin.cpp:18-24 | a second call returns the same path and changes nothing |
| Plugin.Destroy | src/libboxten/plugin.cpp:58-66 | afterwards no hook of the component remains and every other hook is kept; the decrement callback runs once, last, right after the hooks are uninstalled; private-data cleanup happens exactly for a StreamInput; the hook list afterwards is exactly the order-keeping removal `EventHook.Without` that `uninstall_eventhook` performs, and there are exactly two teardown steps, or three for a StreamInput |
| Plugin.OutputDelay | src/libboxten/plugin.cpp:68-70 | an output that does not override `output_delay` reports a delay of 0; one that overrides it reports its own |
| JsonTest.Lookup | src/libboxten/jsontest.cpp:22-25 | a value is found exactly when the JSON is an object with a member of that key, and it is such a member's value |
| JsonTest.ProcTypeCheck | src/libboxten/jsontest.cpp:5-19 | the kind test is true exactly for an object, a string or an array, matching the requested kind |
| JsonTest.TypeCheck | src/libboxten/jsontest.cpp:21-26 | false when the key is absent; otherwise the kind test on its value |
| JsonTest.ArrayTypeCheck | src/libboxten/jsontest.cpp:27-34 | true exactly when the key holds an array whose every element passes the kind test |
| JsonTest.ArrayTypeCheckEdges | src/libboxten/jsontest.cpp:21-34 | for every document: a missing key fails every type check and the array check, a value that is not an array fails the array check, and an empty array passes the array check for every element kind |
| Configuration.GetString | src/libboxten/configuration.cpp:40-44 | succeeds exactly when the key holds a string, and then yields it; otherwise the result is untouched |
| Configuration.StringsOf | src/libboxten/configuration.cpp:47-53 | the filtered list is never longer than the array |
| Configuration.StringsOfExtremes | src/libboxten/configuration.cpp:47-53 | an array without strings gives nothing, and an array of strings gives all of them in order |
| Configuration.StringsOfMembers | src/libboxten/configuration.cpp:47-53 | every string kept is a string element of the array |
| Configuration.StringsOfAppend | src/libboxten/configuration.cpp:47-53 | filtering distributes over concatenation |
| Configuration.GetStringArray | src/libboxten/configuration.cpp:45-55 | fails unless the key holds an array; otherwise the string elements are appended to the existing result in order, and it succeeds |
| Configuration.GetComponentName | src/libboxten/configuration.cpp:62-71 | succeeds exactly when the filtered list has two strings, and then yields them |
| Configuration.ComponentNameFiltersFirst | src/libboxten/configuration.cpp:62-71 | ["a", 1, "b"] is accepted as ("a", "b"), and ["a"] is rejected with the name untouched |
| Configuration.KindOf | src/libboxten/configuration.cpp:88-103 | "vlayout", "hlayout" and "widget" map to V_SPLIT, H_SPLIT and WIDGET, each exactly; any other value maps to no kind |
| Configuration.ParseLayout | src/libboxten/configuration.cpp:87-119 | parsing succeeds exactly when the node is well formed by the layout grammar. A node without a string type, or with an unknown type, leaves the layout untouched. Otherwise the node kind is the type's. A widget gets the name `get_component_name` reads, keeps its children, and succeeds exactly when the name is read. A split keeps its name; with a "children" array it appends the parses of the elements after its existing children and succeeds exactly when all of them do, and without one it fails with its children untouched |
| Configuration.ParseChildren | src/libboxten/configuration.cpp:115-117 | child i is the parse of element i into a fresh node, one per element; success exactly when every element is well formed |
| Configuration.FailedChildKeepsSiblings | src/libboxten/configuration.cpp:111-117 | with a failing child between two good ones, all three are parsed, the good ones alike, and the node fails |
| Configuration.GetLayoutConfig | src/libboxten/configuration.cpp:79-126 | fails with the layout untouched when there is no file or "layout" is not an object; otherwise returns the layout parsed from that object, succeeding exactly when it is well formed |
| Configuration.RenderedConfigLoads | src/libboxten/configuration.cpp:79-126 | a file whose "layout" member is the rendering of a layout tree loads exactly that tree, successfully |
| Configuration.WidgetParses | src/libboxten/configuration.cpp:105-109 | a widget node with a two-string name parses to that widget with no children |
| Configuration.RenderParses | src/libboxten/configuration.cpp:87-119 | parsing the configuration node that describes a layout tree (known kinds, widgets without children, splits without a name) gives back that tree, and the parse succeeds |
| Configuration.RenderAllParses | src/libboxten/configuration.cpp:115-117 | parsing the rendered "children" array of a list of describable trees gives back that list, and the parse succeeds |
| ConfigTool.FindConfigDir | src/boxten/config_tool.cpp:11-23 | with XDG_CONFIG_HOME set, PREFIX/(value minus its first char)/boxten; otherwise PREFIX/(HOME minus its first char)/.config/boxten |
| ConfigTool.ConfigDirShape | src/boxten/config_tool.cpp:11-23 | when the variable used has a second character other than '/', the directory starts with the prefix and ends in "/boxten" |
| ConfigTool.ConfigDirFromHome | src/boxten/config_tool.cpp:14-21 | with prefix "/usr", no XDG_CONFIG_HOME and HOME "/home/u", the directory is "/usr/home/u/.config/boxten" |
| ConfigTool.ConfigDirFromXdg | src/boxten/config_tool.cpp:12-21 | with prefix "/usr" and XDG_CONFIG_HOME "/cfg", the directory is "/usr/cfg/boxten" |
| ConfigTool.GetModuleDirs | src/boxten/config_tool.cpp:24-38 | the stored strings are appended to dirs; a missing key stores [PREFIX/lib/boxten-modules] and leaves dirs unchanged |
| ConfigTool.ComponentOrDefault | src/boxten/config_tool.cpp:39-64 | a stored two-string name is read back with nothing stored; otherwise the default is stored and the name is left untouched |
| ConfigTool.GetInputComponent | src/boxten/config_tool.cpp:39-51 | stores nothing exactly when a two-string name is configured; otherwise stores ["Wav input module", "Wav input"] and leaves the name untouched |
| ConfigTool.GetOutputComponent | src/boxten/config_tool.cpp:52-64 | stores nothing exactly when a two-string name is configured; otherwise stores ["ALSA output module", "ALSA output"] and leaves the name untouched |
| ConfigTool.DefaultIsReadBack | src/boxten/config_tool.cpp:39-51 | the default that is stored is read back as the name on the next start |
| Paths.Join | src/boxten/config_tool.cpp:16-21 | an absolute right side replaces the path; otherwise the result starts with the left side and ends with the right side, with one '/' between them when the left side ends in a file name |
| Debug.IndexOf | src/libboxten/debug.cpp:23-28 | the search returns the first index of the id, or None when it is absent |
| Debug.DecToInt | src/libboxten/debug.cpp:31 | `size - 1` converted to `int` is n − 1 for n from 1 to 2^31, and -1 for n = 0 |
| Debug.GetColorAsWritten | src/libboxten/debug.cpp:20-34 | as written: a known id at index i gets i mod 7 with the list unchanged; a new id is appended; the result lies in [-1, 7) |
| Debug.GetColor | src/libboxten/debug.cpp:20-34 | corrected: a known id at index i gets i mod 7 with the list unchanged; a new id is appended; the result lies in [0, 7) |
| Debug.GetColorKeepsDistinct | src/libboxten/debug.cpp:29-31 | both versions keep the list of seen ids free of duplicates |
| Debug.GetColorStable | src/libboxten/debug.cpp:20-34 | corrected: asking again for the same id gives the same colour and the same list |
| Debug.GetColorAsWrittenFirstSight | src/libboxten/debug.cpp:25-31 | as written, a new id's first colour matches its later ones, except for the 7th, 14th, … id, which first gets -1 and afterwards 6 |
| Debug.SeventhThreadOutOfRange | src/libboxten/debug.cpp:29-32 | as written, the seventh distinct thread gets -1, which indexes outside the colour table |

## Left out

- Threads, locks, condition variables and the QueueThread/WorkerThread machinery. A command batch is a sequence folded by `Playback.Run`. The fill worker appears only as SpawnFill and JoinFill effects.
- The seek commands (`proc_seek_rate_abs/rel`), which work on floating-point rates. Also left out: the floating-point extrapolation in `proc_get_playback_pos`, which is the `estimate` parameter of `Playback.PlaybackPos`, and the clock behind it (`update_time`).
- Plugin calls that the core cannot see:
  - `read_frames` and the sound-processor chain become the `unit` parameter of `Playback.FillStep`;
  - the output device calls become effects;
  - `cleanup_private_data` becomes a teardown step;
  - the component `alloc`/`free` callbacks are not modelled: `Registry.SearchComponent` returns the construction parameter, not the component.
- `has_enough_packets` of the output becomes a boolean parameter of `Playback.Latch`.
- `dlopen`/`dlsym`: each directory's outcome is a `LibOutcome` value. `LibraryInfo` bookkeeping is left out.
- File, console and GUI I/O:
  - loading and saving the configuration file and `get_config_path`;
  - writes of `set_string_array`, which are returned as stored values instead;
  - `apply_layout` (Qt widgets);
  - console printing.
- `get_number`/`set_number` are not modelled. configuration.cpp:57 type-checks with a NUMBER kind that jsontest.hpp does not declare, so `JsonTest.ProcTypeCheck` has only the three kinds jsontest.hpp lists.
- `AudioFile::get_handle`, the file stream, the path getter and tags.
- `Playlist::clear`, `activate`, `begin`/`end`, the playlist destructor, and setting or unsetting the playing playlist. The playing playlist is a flag on the store.
- Component-side forwarding wrappers (`install_eventhook`, configuration getters on `Component`), which only pass their arguments on.
- JSON objects with duplicate keys. Lookup takes the first member, and the JSON library's objects have unique keys.
- Paths.Join: models only the part of `std::filesystem::path::operator/=` the core uses. An absolute right side replaces the path; otherwise a '/' is added when the left side has a file name. Root names and normalisation are left out.
- Playback.FillStep: the frame counters (`filled_frame`, the cursor frame) are unbounded. Only the `frames_left` subtraction wraps at 2^64, because the loop's read size depends on it.
- Playlist.DecU32: only the decrement wraps. An increment past 2^32 − 1 is not modelled, because it would need 2^32 acquisitions of one file.
- Playback.FillStepProgress: requires the unit read back to be in a known format, which a stream input always reports.
- ConfigTool.GetModuleDirs, ConfigTool.GetInputComponent and ConfigTool.GetOutputComponent: their return value is always true, so it is not modelled.
- EventHook.Uninstall: components are identified by a number rather than by pointer identity.
- Registry.OpenModules: `std::filesystem::directory_iterator` (module.cpp:14) throws when a configured directory is missing or unreadable, including the default `PREFIX/lib/boxten-modules` that `get_module_dirs` stores. Every directory is given as a list of library outcomes, so the model has no such failure.
- Playback.ChangeSongRel: `song + val` is computed in `i64` (playback.cpp:279-280), and a large `val` overflows, which is undefined behaviour. The model adds unbounded integers.
- Playback.ChangeSongAbs, Playback.ChangeSongRel and Playback.PlayingSongLength: their preconditions (`Defined`, and `e.playlist.Some?` for the song length) exclude dereferencing a null `playing_playlist` (playback.cpp:262, 278, 381), which is undefined behaviour in the source; the model says nothing about it.
- ConfigTool.FindConfigDir: its precondition excludes an unset `HOME` when `XDG_CONFIG_HOME` is unset, and an empty variable, where the source reads past the terminator or dereferences null (config_tool.cpp:15-19). Those are undefined behaviour.
- EventHook.Dispatch: the payload is released with `delete` on a `void*` (eventhook.cpp:28-30), which runs no destructor. The model records a release only.
- Playlist.Find and Playlist.GetAudioRef: paths are compared as strings. `std::filesystem::path::operator==` compares element by element, so "a//b" and "a/b" name the same cache entry in the source but not in the model.
- Playback.Process and Playback.Run: their own contracts state only that the playlist is kept. What each command does is stated on its handler (`Playback.Start`, `Playback.Stop` and so on) and in `Playback.ProcessFollowsDiagram`.

## Findings

| source | as written | input that shows it | evidently intended | confidence | as-written member | corrected member |
|---|---|---|---|---|---|---|
| src/libboxten/debug.cpp:29-32 | a new thread gets `(size % colors_size) - 1` | thread ids 1..6 seen, then id 7: size is 7, and the colour is -1, which indexes `colors[-1]` at lines 39 and 46 | the new id's index mod 7, as known ids get | high, not executed | Debug.GetColorAsWritten, Debug.SeventhThreadOutOfRange | Debug.GetColor, Debug.GetColorStable |
| src/libboxten/playlist.cpp:58-70 | `proc_insert` pushes the new file at the back, but reports `pos` to the cursor correction | members [a, b], playing b (song 1), insert c at 0: the cursor moves to 2, which is c | insert at `pos`, so that the corrected cursor still names b | high, not executed | Playlist.ProcInsertAsWritten, Playlist.Insert, Playlist.InsertAsWrittenMovesCursor | Playlist.ProcInsert, Playlist.InsertKeepsPlaying |
| src/libboxten/playback.cpp:442 | the emptiness check runs before `erase` removes the member, so the size it sees is never 0 | a playing playlist with one member, erase it: no STOP is queued | queue STOP once the playlist is empty | medium, not executed | Playlist.EraseAsWritten, Playlist.EraseAsWrittenNeverStops | Playlist.Erase, Playlist.EraseStopsWhenEmptied |
| src/libboxten/playlist.cpp:43 | `erase` on a vector of `AudioFilePointer` copy-assigns the later entries down and destroys only the last one, so the file whose count reached 0 is not the one deleted | cache [A (count 1), B (count 1)], release A: A's slot takes B's pointer and count, the destroyed last slot still holds count 1 and deletes nothing, so A's file is never deleted | delete the file whose count reached 0 | medium, not executed | Playlist.ReleaseAsWritten, Playlist.ReleaseAsWrittenLeaks | Playlist.Release, Playlist.ReleaseKeepsValid |
