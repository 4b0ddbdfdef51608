/** The playback controller (src/libboxten/playback.cpp): the `proc_*`
    command handlers, one iteration of the fill loop, the underrun handler,
    the cursor corrections for the playing playlist and the position queries.
    Threads are gone: every handler is a pure transition that returns the new
    engine state together with the effects it caused, in order. */
module Playback {
  import opened Wrappers
  import opened Pcm
  import PcmBuffer
  import EventHook
  import Plugin

  /** `PLAYBACK_STATE`. */
  datatype PlaybackState = Stopped | Playing | Paused

  /** `FilledFramePos`: the next (song, frame) the fill loop will read. The
      song index starts at -1 before the first START. */
  datatype Cursor = Cursor(song: int, frame: nat)

  /** The parameter objects published with an event. */
  datatype HookParam =
    | SongChangeParam(from: int, to: int)
    | PlaybackChangeParam(before: PlaybackState, after: PlaybackState)

  /** What a transition does outside its own state, in order. */
  datatype Effect =
    | Publish(event: EventHook.Event, param: HookParam)  // invoke_eventhook
    | OutputStart | OutputStop | OutputPause | OutputResume  // calls into the stream output
    | SpawnFill | JoinFill                                 // the fill-buffer worker thread
    | ReadFrames(song: int, from: nat, count: nat)         // stream_input->read_frames
    | EnqueueStop                                          // stop_playback() queues a STOP command

  /** `PlayingPacket::PacketFormat`: frame range and rate of a delivered unit. */
  datatype PacketFormat = PacketFormat(start: nat, end: nat, samplingRate: nat)

  /** The controller's state. `playlist` is the playing playlist as the
      controller sees it, the total frame count of each member in order, or
      `None` when no playlist is set. */
  datatype Engine = Engine(
    state: PlaybackState,
    playlist: Option<seq<nat>>,
    cursor: Cursor,
    endOfPlaylist: bool,
    starting: bool,
    frozen: bool,
    seekedTo: Option<nat>,
    packetFormats: seq<PacketFormat>,
    pausedFramePos: nat,
    buffer: PcmBuffer.Buffer)

  /** A transition's result: the engine afterwards and the effects, in order. */
  datatype Step = Step(engine: Engine, effects: seq<Effect>)

  /** The engine at process start with `playlist` set. */
  function Initial(playlist: Option<seq<nat>>): Engine {
    Engine(Stopped, playlist, Cursor(-1, 0), false, false, false, None, [], 0, PcmBuffer.Initial)
  }

  function SongChanged(from: int, to: int): Effect {
    Publish(EventHook.SongChange, SongChangeParam(from, to))
  }

  function StateChanged(before: PlaybackState, after: PlaybackState): Effect {
    Publish(EventHook.PlaybackChange, PlaybackChangeParam(before, after))
  }

  /** `proc_resume_playback`: only acts when paused. */
  function Resume(e: Engine): (r: Step)
    ensures e.state != Paused ==> r == Step(e, [])
    ensures e.state == Paused ==>
              && r.engine == e.(state := Playing)
              && r.effects == [OutputResume, StateChanged(Paused, Playing)]
  {
    if e.state != Paused then Step(e, [])
    else Step(e.(state := Playing), [OutputResume, StateChanged(e.state, Playing)])
  }

  /** `proc_start_playback`: nothing without a playlist or when already
      playing; resume when paused; nothing for an empty playlist; otherwise
      rewind the cursor to the first song, install the underrun handler,
      start the fill worker and mark playback as starting. */
  function Start(e: Engine): (r: Step)
    ensures e.playlist.None? || e.state == Playing ==> r == Step(e, [])
    ensures e.playlist.Some? && e.state == Paused ==> r == Resume(e)
    ensures e.playlist.Some? && e.state == Stopped && |e.playlist.value| == 0 ==> r == Step(e, [])
    ensures e.playlist.Some? && e.state == Stopped && |e.playlist.value| > 0 ==>
              && r.engine == e.(state := Playing, cursor := Cursor(0, 0), endOfPlaylist := false, starting := true,
                                buffer := e.buffer.(hasUnderrunHandler := true))
              && r.effects == [SongChanged(e.cursor.song, 0), SpawnFill, StateChanged(Stopped, Playing)]
  {
    if e.playlist.None? then Step(e, [])
    else if e.state == Playing then Step(e, [])
    else if e.state == Paused then Resume(e)
    else if |e.playlist.value| == 0 then Step(e, [])
    else
      var e1 := e.(cursor := Cursor(0, 0), endOfPlaylist := false,
                   buffer := e.buffer.(hasUnderrunHandler := true), starting := true,
                   state := Playing);
      Step(e1, [SongChanged(e.cursor.song, 0), SpawnFill, StateChanged(e.state, Playing)])
  }

  /** `proc_stop_playback`: nothing when stopped; otherwise join the fill
      worker, stop the output, publish the change and clear the buffer. The
      cursor is left where it was. */
  function Stop(e: Engine): (r: Step)
    ensures e.state == Stopped ==> r == Step(e, [])
    ensures e.state != Stopped ==>
              && r.engine == e.(state := Stopped, buffer := PcmBuffer.Clear(e.buffer))
              && r.effects == [JoinFill, OutputStop, StateChanged(e.state, Stopped)]
  {
    if e.state == Stopped then Step(e, [])
    else
      Step(e.(state := Stopped, buffer := PcmBuffer.Clear(e.buffer)),
           [JoinFill, OutputStop, StateChanged(e.state, Stopped)])
  }

  /** `proc_get_playback_pos` without its floating-point extrapolation, which
      is the parameter `estimate`: -1 when stopped, the frame recorded at
      pause time when paused, the seek target while one is pending. */
  function PlaybackPos(e: Engine, estimate: nat): (r: int)
    ensures e.state == Stopped <==> r == -1
    ensures e.state == Paused ==> r == e.pausedFramePos
    ensures e.state == Playing && e.seekedTo.Some? ==> r == e.seekedTo.value
    ensures e.state == Playing && e.seekedTo.None? ==> r == estimate
  {
    if e.state == Stopped then -1
    else if e.state == Paused then e.pausedFramePos
    else if e.seekedTo.Some? then e.seekedTo.value
    else estimate
  }

  /** `proc_pause_playback`: only acts when playing; records the position
      reported at that moment. */
  function Pause(e: Engine, estimate: nat): (r: Step)
    ensures e.state != Playing ==> r == Step(e, [])
    ensures e.state == Playing ==>
              && r.engine == e.(state := Paused, pausedFramePos := PlaybackPos(e, estimate))
              && r.effects == [OutputPause, StateChanged(Playing, Paused)]
  {
    if e.state == Paused then Step(e, [])
    else if e.state == Stopped then Step(e, [])
    else
      var pos := PlaybackPos(e, estimate);
      Step(e.(pausedFramePos := pos as nat, state := Paused), [OutputPause, StateChanged(e.state, Paused)])
  }

  /** Moving the cursor to the start of song `target`: publish the change,
      record frame 0 as the authoritative position and clear the buffer. */
  function MoveToSong(e: Engine, target: int): (r: Step)
  {
    Step(e.(cursor := Cursor(target, 0), seekedTo := Some(0), buffer := PcmBuffer.Clear(e.buffer)),
         [SongChanged(e.cursor.song, target)])
  }

  /** `proc_change_song_abs`: ignores an index outside the playlist. */
  function ChangeSongAbs(e: Engine, index: int): (r: Step)
    requires index < 0 || e.playlist.Some?
    ensures index < 0 || index >= |e.playlist.value| ==> r == Step(e, [])
    ensures 0 <= index < |e.playlist.value| ==>
              && r.engine == e.(cursor := Cursor(index, 0), seekedTo := Some(0), buffer := PcmBuffer.Clear(e.buffer))
              && r.engine.buffer.data == [] && r.engine.buffer.needFill
              && r.effects == [SongChanged(e.cursor.song, index)]
  {
    if index < 0 then Step(e, [])
    else if index >= |e.playlist.value| then Step(e, [])
    else MoveToSong(e, index)
  }

  /** `proc_change_song_rel`: ignores a zero offset and a target outside the
      playlist. */
  function ChangeSongRel(e: Engine, delta: int): (r: Step)
    requires delta == 0 || e.playlist.Some?
    ensures delta == 0 || e.cursor.song + delta < 0 || e.cursor.song + delta >= |e.playlist.value| ==> r == Step(e, [])
    ensures delta != 0 && 0 <= e.cursor.song + delta < |e.playlist.value| ==>
              && r.engine == e.(cursor := Cursor(e.cursor.song + delta, 0), seekedTo := Some(0), buffer := PcmBuffer.Clear(e.buffer))
              && r.engine.buffer.data == [] && r.engine.buffer.needFill
              && r.effects == [SongChanged(e.cursor.song, e.cursor.song + delta)]
  {
    if delta == 0 then Step(e, [])
    else if e.cursor.song + delta < 0 then Step(e, [])
    else if e.cursor.song + delta >= |e.playlist.value| then Step(e, [])
    else MoveToSong(e, e.cursor.song + delta)
  }

  /** The commands of `PlaybackThread`, without the two seek commands. */
  datatype Command = Play | StopCmd | PauseCmd | ResumeCmd | SongAbs(index: int) | SongRel(delta: int)

  /** Commands that dereference the playing playlist before any check. */
  predicate Defined(playlist: Option<seq<nat>>, c: Command) {
    match c
    case SongAbs(i) => i < 0 || playlist.Some?
    case SongRel(d) => d == 0 || playlist.Some?
    case _ => true
  }

  /** `PlaybackThread::proc` for one command. */
  function Process(e: Engine, c: Command, estimate: nat): (r: Step)
    requires Defined(e.playlist, c)
    ensures r.engine.playlist == e.playlist
  {
    match c
    case Play => Start(e)
    case StopCmd => Stop(e)
    case PauseCmd => Pause(e, estimate)
    case ResumeCmd => Resume(e)
    case SongAbs(i) => ChangeSongAbs(e, i)
    case SongRel(d) => ChangeSongRel(e, d)
  }

  /** `PlaybackThread::proc` for a batch: the commands in queue order, the
      effects concatenated. `estimate` stands for every position estimate. */
  function Run(e: Engine, cmds: seq<Command>, estimate: nat): (r: Step)
    requires forall i :: 0 <= i < |cmds| ==> Defined(e.playlist, cmds[i])
    ensures r.engine.playlist == e.playlist
    decreases |cmds|
  {
    if |cmds| == 0 then Step(e, [])
    else
      var s := Process(e, cmds[0], estimate);
      var t := Run(s.engine, cmds[1..], estimate);
      Step(t.engine, s.effects + t.effects)
  }

  /** The state diagram: which states a command may lead to from a state. */
  predicate Allowed(before: PlaybackState, c: Command, after: PlaybackState) {
    match c
    case Play => after == Playing || after == before
    case StopCmd => after == Stopped
    case PauseCmd => after == (if before == Playing then Paused else before)
    case ResumeCmd => after == (if before == Paused then Playing else before)
    case _ => after == before
  }

  /** Every command moves along the state diagram; in particular only PLAY
      leaves STOPPED, STOP always ends in STOPPED (also straight from PAUSED),
      and RESUME from STOPPED is a no-op. */
  lemma ProcessFollowsDiagram(e: Engine, c: Command, estimate: nat)
    requires Defined(e.playlist, c)
    ensures Allowed(e.state, c, Process(e, c, estimate).engine.state)
    ensures e.state == Stopped && c != Play ==> Process(e, c, estimate).engine.state == Stopped
  {
  }

  /** A batch may be split anywhere: running two halves one after the other
      gives the same engine and the same effects as running it at once. */
  lemma {:induction false} RunAppend(e: Engine, a: seq<Command>, b: seq<Command>, estimate: nat)
    requires forall i :: 0 <= i < |a| ==> Defined(e.playlist, a[i])
    requires forall i :: 0 <= i < |b| ==> Defined(e.playlist, b[i])
    ensures Run(e, a + b, estimate).engine == Run(Run(e, a, estimate).engine, b, estimate).engine
    ensures Run(e, a + b, estimate).effects == Run(e, a, estimate).effects + Run(Run(e, a, estimate).engine, b, estimate).effects
    decreases |a|
  {
    assert forall i :: 0 <= i < |a + b| ==> Defined(e.playlist, (a + b)[i]) by {
      assert forall i :: 0 <= i < |a + b| ==> (a + b)[i] == if i < |a| then a[i] else b[i - |a|];
    }
    if |a| == 0 {
      assert a + b == b;
    } else {
      var s := Process(e, a[0], estimate);
      assert (a + b)[0] == a[0];
      assert (a + b)[1..] == a[1..] + b;
      RunAppend(s.engine, a[1..], b, estimate);
      var t := Run(s.engine, a[1..], estimate);
      var u := Run(t.engine, b, estimate);
      assert s.effects + (t.effects + u.effects) == (s.effects + t.effects) + u.effects;
    }
  }

  /** An empty playlist: PLAY leaves the player stopped. */
  lemma PlayWithEmptyPlaylist(e: Engine, estimate: nat)
    requires e.state == Stopped && e.playlist == Some([])
    ensures Process(e, Play, estimate) == Step(e, [])
  {
  }

  /** STOP twice is STOP once. */
  lemma StopIdempotent(e: Engine)
    ensures Stop(Stop(e).engine) == Step(Stop(e).engine, [])
  {
  }

  /** PAUSE then RESUME from PLAYING gets back to PLAYING with the same
      cursor and buffer, recording the pause position. */
  lemma PauseResume(e: Engine, estimate: nat)
    requires e.state == Playing
    ensures var r := Resume(Pause(e, estimate).engine);
            && r.engine == e.(pausedFramePos := PlaybackPos(e, estimate))
            && r.effects == [OutputResume, StateChanged(Paused, Playing)]
  {
  }

  /** The state invariant: outside STOPPED a playlist is set and the cursor
      names a song at or after the first. */
  predicate Inv(e: Engine) {
    && (e.state != Stopped ==> e.playlist.Some? && e.cursor.song >= 0)
    && PcmBuffer.AllKnown(e.buffer.data)
  }

  lemma {:induction false} ProcessKeepsInv(e: Engine, c: Command, estimate: nat)
    requires Inv(e) && Defined(e.playlist, c)
    ensures Inv(Process(e, c, estimate).engine)
  {
    match c
    case Play =>
    case StopCmd =>
    case PauseCmd =>
    case ResumeCmd =>
    case SongAbs(i) =>
    case SongRel(d) =>
  }

  /** `proc_get_playing_index`. */
  function PlayingIndex(e: Engine): (r: int)
    ensures e.state == Stopped ==> r == -1
    ensures e.state != Stopped ==> r == e.cursor.song
    ensures Inv(e) ==> (r == -1 <==> e.state == Stopped)
  {
    if e.state == Stopped then -1 else e.cursor.song
  }

  /** After a valid absolute song change the reported index is the target
      (unless the player is stopped) and the reported position is 0. */
  lemma ChangeSongAbsReported(e: Engine, index: int, estimate: nat)
    requires e.playlist.Some? && 0 <= index < |e.playlist.value| && e.state == Playing
    ensures PlayingIndex(ChangeSongAbs(e, index).engine) == index
    ensures PlaybackPos(ChangeSongAbs(e, index).engine, estimate) == 0
  {
  }

  /** `get_playing_song_length`: the total frames of the cursor's song, 0
      when the cursor is outside the playlist. */
  function PlayingSongLength(e: Engine): (r: nat)
    requires e.playlist.Some?
    ensures e.cursor.song < 0 || e.cursor.song >= |e.playlist.value| ==> r == 0
    ensures 0 <= e.cursor.song < |e.playlist.value| ==> r == e.playlist.value[e.cursor.song]
  {
    var songs := e.playlist.value;
    if e.cursor.song < 0 || e.cursor.song >= |songs| then 0 else songs[e.cursor.song]
  }

  /** `n_frames` is 64 bits wide: subtraction wraps around. */
  const U64_MODULUS: int := 0x1_0000_0000_0000_0000

  function SubU64(a: nat, b: nat): (r: nat)
    ensures b <= a < U64_MODULUS ==> r == a - b
    ensures a < b <= a + U64_MODULUS ==> r == U64_MODULUS - (b - a)
  {
    (a - b) % U64_MODULUS
  }

  /** The fill loop's condition: room for one more period and the playlist
      not yet exhausted. */
  predicate FillGuard(e: Engine)
    requires PcmBuffer.AllKnown(e.buffer.data)
  {
    PcmBuffer.FreeFrame(e.buffer) >= PCMPACKET_PERIOD && !e.endOfPlaylist
  }

  /** Frames the fill loop asks for at cursor frame `frame` of a song of
      `total` frames: `total - (frame + 1)` in 64-bit arithmetic, at most one
      period. */
  function ToRead(total: nat, frame: nat): (r: nat)
    ensures r <= PCMPACKET_PERIOD
    ensures frame + 1 <= total < U64_MODULUS ==> r == PcmBuffer.Min(PCMPACKET_PERIOD, total - (frame + 1))
    ensures total < frame + 1 <= total + U64_MODULUS - PCMPACKET_PERIOD ==> r == PCMPACKET_PERIOD
  {
    var left := SubU64(total, frame + 1);
    if left >= PCMPACKET_PERIOD then PCMPACKET_PERIOD else left
  }

  /** One iteration of the `fill_buffer` loop body. `unit` is what the stream
      input returned for the logged read, after the sound-processor chain. A
      cursor past the playlist's end marks the playlist exhausted. Otherwise
      the cursor moves to one past the unit's end; reaching the song's total
      in the last song marks the playlist exhausted and drops the unit, in an
      earlier song it moves on to the next song; the unit is appended. */
  function FillStep(e: Engine, unit: Unit): (r: Step)
    requires e.playlist.Some? && e.cursor.song >= 0
    ensures e.cursor.song >= |e.playlist.value| ==> r == Step(e.(endOfPlaylist := true), [])
    ensures e.cursor.song < |e.playlist.value| ==>
              var total := e.playlist.value[e.cursor.song];
              && |r.effects| >= 1
              && r.effects[0] == ReadFrames(e.cursor.song, e.cursor.frame, ToRead(total, e.cursor.frame))
              && (unit.end + 1 >= total && e.cursor.song + 1 == |e.playlist.value| ==>
                    r.engine == e.(cursor := Cursor(e.cursor.song, unit.end + 1), endOfPlaylist := true)
                    && |r.effects| == 1)
              && (unit.end + 1 >= total && e.cursor.song + 1 < |e.playlist.value| ==>
                    r.engine == e.(cursor := Cursor(e.cursor.song + 1, 0), buffer := PcmBuffer.AppendUnit(e.buffer, unit))
                    && r.effects[1..] == [SongChanged(e.cursor.song, e.cursor.song + 1)])
              && (unit.end + 1 < total ==>
                    r.engine == e.(cursor := Cursor(e.cursor.song, unit.end + 1), buffer := PcmBuffer.AppendUnit(e.buffer, unit))
                    && |r.effects| == 1)
  {
    var songs := e.playlist.value;
    var song := e.cursor.song;
    if song >= |songs| then Step(e.(endOfPlaylist := true), [])
    else
      var total := songs[song];
      var read := ReadFrames(song, e.cursor.frame, ToRead(total, e.cursor.frame));
      var frame := unit.end + 1;
      if frame >= total then
        if song + 1 == |songs| then
          Step(e.(cursor := Cursor(song, frame), endOfPlaylist := true), [read])
        else
          var e1 := e.(cursor := Cursor(song + 1, 0));
          Step(e1.(buffer := PcmBuffer.AppendUnit(e1.buffer, unit)), [read, SongChanged(song, song + 1)])
      else
        var e1 := e.(cursor := Cursor(song, frame));
        Step(e1.(buffer := PcmBuffer.AppendUnit(e1.buffer, unit)), [read])
  }

  /** A fill step keeps the invariant and, when it appends, raises the filled
      count by the unit's frames; it never moves the cursor backwards within
      a song and never to an earlier song. */
  lemma FillStepProgress(e: Engine, unit: Unit)
    requires Inv(e) && e.playlist.Some? && e.cursor.song >= 0 && Known(unit.format)
    ensures Inv(FillStep(e, unit).engine)
    ensures var r := FillStep(e, unit).engine;
            && r.cursor.song >= e.cursor.song
            && (r.buffer.data == e.buffer.data || r.buffer.data == e.buffer.data + [unit])
            && (r.buffer.data != e.buffer.data ==>
                  PcmBuffer.FramesOf(r.buffer.data) == PcmBuffer.FramesOf(e.buffer.data) + Frames(unit))
  {
    PcmBuffer.AppendUnitFrames(e.buffer, unit);
  }

  /** The start/resume latch at the top of the fill loop: once the buffer
      has enough (`hasEnough` stands for `has_enough_packets`), start the
      output if playback is starting, else resume it if it was frozen. */
  function Latch(e: Engine, hasEnough: bool): (r: Step)
    ensures !hasEnough || (!e.starting && !e.frozen) ==> r == Step(e, [])
    ensures hasEnough && e.starting ==> r == Step(e.(starting := false), [OutputStart])
    ensures hasEnough && !e.starting && e.frozen ==> r == Step(e.(frozen := false), [OutputResume])
  {
    if (e.starting || e.frozen) && hasEnough then
      if e.starting then Step(e.(starting := false), [OutputStart])
      else Step(e.(frozen := false), [OutputResume])
    else Step(e, [])
  }

  /** `buffer_underrun_handler`: queue a STOP when the whole playlist has
      been buffered; otherwise pause the output once and freeze until the
      latch sees the buffer refilled. */
  function UnderrunHandler(e: Engine): (r: Step)
    ensures e.endOfPlaylist ==> r == Step(e, [EnqueueStop])
    ensures !e.endOfPlaylist && !e.frozen ==> r == Step(e.(frozen := true), [OutputPause])
    ensures !e.endOfPlaylist && e.frozen ==> r == Step(e, [])
  {
    if e.endOfPlaylist then Step(e, [EnqueueStop])
    else if !e.frozen then Step(e.(frozen := true), [OutputPause])
    else Step(e, [])
  }

  /** A song change keeps `end_of_playlist`: once the last song has been read
      to its end, a change of song leaves the flag set, so the fill loop reads
      nothing for the new song and the next underrun queues STOP. */
  lemma SongChangeAtEndStops(e: Engine, index: int)
    requires e.endOfPlaylist && e.playlist.Some? && 0 <= index < |e.playlist.value|
    ensures var c := ChangeSongAbs(e, index).engine;
            && c.endOfPlaylist
            && UnderrunHandler(c).effects == [EnqueueStop]
            && UnderrunHandler(c).engine == c
  {
  }

  /** A second underrun while frozen does nothing more. */
  lemma UnderrunOncePerFreeze(e: Engine)
    requires !e.endOfPlaylist
    ensures UnderrunHandler(UnderrunHandler(e).engine) == Step(UnderrunHandler(e).engine, [])
  {
  }

  /** An underrun freezes playback until the buffer refills: the handler
      pauses the output, the latch does nothing while the buffer is short,
      and once it has enough it resumes the output and restores the engine. */
  lemma UnderrunThenRefill(e: Engine)
    requires !e.endOfPlaylist && !e.frozen && !e.starting
    ensures var u := UnderrunHandler(e);
            && Latch(u.engine, false) == Step(u.engine, [])
            && Latch(u.engine, true).engine == e
            && u.effects + Latch(u.engine, true).effects == [OutputPause, OutputResume]
  {
  }

  /** Stopping does not clear a freeze: after a STOP during an underrun, the
      next PLAY starts the output and, on the following latch, resumes it
      again. */
  lemma RestartKeepsFreeze(e: Engine)
    requires e.state == Playing && e.frozen && e.playlist.Some? && |e.playlist.value| > 0
    ensures var s := Start(Stop(e).engine).engine;
            && s.state == Playing && s.starting && s.frozen
            && Latch(s, true).effects == [OutputStart]
            && Latch(Latch(s, true).engine, true).effects == [OutputResume]
            && !Latch(Latch(s, true).engine, true).engine.frozen
  {
  }

  /** The frame ranges and rates `PlayingPacket::refresh` records. */
  function FormatsOf(p: Packet): (r: seq<PacketFormat>)
    ensures |r| == |p|
    ensures forall i :: 0 <= i < |p| ==> r[i] == PacketFormat(p[i].start, p[i].end, p[i].format.samplingRate)
  {
    if |p| == 0 then [] else [PacketFormat(p[0].start, p[0].end, p[0].format.samplingRate)] + FormatsOf(p[1..])
  }

  /** The result of `get_buffer_pcm_packet`: the engine, the effects of the
      underrun handler if it ran, and the packet handed to the output. */
  datatype Delivery = Delivery(engine: Engine, effects: seq<Effect>, packet: Packet)

  /** `get_buffer_pcm_packet`: cut the buffer (running the underrun handler
      first when the request exceeds what is filled); a non-empty packet
      replaces the recorded packet formats and drops any pending seek target. */
  function GetBufferPcmPacket(e: Engine, n: nat): (r: Delivery)
    requires PcmBuffer.AllKnown(e.buffer.data)
    ensures var c := PcmBuffer.Cut(e.buffer, n);
            && r.packet == c.packet
            && r.engine.buffer == c.buffer
            && r.effects == (if c.underrun then UnderrunHandler(e).effects else [])
            && (|r.packet| > 0 ==> r.engine.seekedTo.None? && r.engine.packetFormats == FormatsOf(r.packet))
            && (|r.packet| == 0 ==> r.engine.seekedTo == e.seekedTo && r.engine.packetFormats == e.packetFormats)
            && r.engine.frozen == (e.frozen || (c.underrun && !e.endOfPlaylist))
            && r.engine.cursor == e.cursor && r.engine.state == e.state && r.engine.playlist == e.playlist
            && r.engine.starting == e.starting && r.engine.endOfPlaylist == e.endOfPlaylist
            && r.engine.pausedFramePos == e.pausedFramePos
  {
    var c := PcmBuffer.Cut(e.buffer, n);
    var h := if c.underrun then UnderrunHandler(e) else Step(e, []);
    var e1 := h.engine.(buffer := c.buffer);
    var e2 := if |c.packet| > 0 then e1.(seekedTo := None, packetFormats := FormatsOf(c.packet)) else e1;
    Delivery(e2, h.effects, c.packet)
  }

  /** A delivery that runs short while more of the playlist is still to be
      buffered freezes the engine and pauses the output; the latch resumes it
      once the buffer has enough. */
  lemma DeliveryUnderrunRecovers(e: Engine, n: nat)
    requires PcmBuffer.AllKnown(e.buffer.data)
    requires !e.endOfPlaylist && !e.frozen && !e.starting && PcmBuffer.Cut(e.buffer, n).underrun
    ensures var d := GetBufferPcmPacket(e, n);
            && d.engine.frozen && d.effects == [OutputPause]
            && !Latch(d.engine, true).engine.frozen
            && Latch(d.engine, true).effects == [OutputResume]
  {
  }

  /** The position correction of `proc_get_playback_pos`: the extrapolated
      frame minus the output's delay, clamped at 0. */
  function DelayCorrected(current: nat, delay: nat): (r: nat)
    ensures r <= current
    ensures current >= delay ==> r + delay == current
    ensures current < delay ==> r == 0
  {
    if current < delay then 0 else current - delay
  }

  /** An output that keeps the default delay reports the extrapolated
      position unchanged; a larger delay never reports a later position. */
  lemma DefaultDelayKeepsPosition(current: nat, d1: nat, d2: nat)
    requires d1 <= d2
    ensures DelayCorrected(current, Plugin.OutputDelay(None)) == current
    ensures DelayCorrected(current, d2) <= DelayCorrected(current, d1)
  {
  }

  /** `playing_playlist_insert`: an insertion at or before the cursor's song
      shifts the cursor one song on; one after it changes nothing. */
  function InsertCorrection(c: Cursor, pos: nat): (r: Cursor)
    ensures pos > c.song ==> r == c
    ensures pos <= c.song ==> r == Cursor(c.song + 1, c.frame)
  {
    if pos > c.song then c else c.(song := c.song + 1)
  }

  /** The cursor part of `playing_playlist_erase`: erasing after the cursor's
      song changes nothing, before it shifts the cursor one song back, and
      the cursor's own song keeps the index and restarts at frame 0. */
  function EraseCorrection(c: Cursor, pos: nat): (r: Cursor)
    ensures pos > c.song ==> r == c
    ensures pos < c.song ==> r == Cursor(c.song - 1, c.frame)
    ensures pos == c.song ==> r == Cursor(c.song, 0)
  {
    if pos > c.song then c
    else if pos < c.song then c.(song := c.song - 1)
    else c.(frame := 0)
  }

  /** `playing_playlist_erase` as written: correct the cursor, then stop
      playback when the playlist, which has `size` members at that moment,
      is empty. */
  function PlayingPlaylistErase(c: Cursor, pos: nat, size: nat): (r: (Cursor, seq<Effect>))
    ensures r.0 == EraseCorrection(c, pos)
    ensures r.1 == [] <==> size != 0
  {
    (EraseCorrection(c, pos), if size == 0 then [EnqueueStop] else [])
  }
}
