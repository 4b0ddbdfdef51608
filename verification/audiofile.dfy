/** An audio file record (src/libboxten/audiofile.cpp): its path, the total
    frame count an input plugin stores on it, and the plugin's private data
    together with the deleter that frees it. Pointers are modelled as
    numbers, `nullptr` and an empty `std::function` as `None`. */
module AudioFile {
  import opened Wrappers

  /** A call of a private-data deleter on a datum. */
  datatype DeleterCall = DeleterCall(deleter: nat, data: nat)

  datatype AudioFile = AudioFile(
    path: string,
    totalFrames: nat,
    privateData: Option<nat>,
    deleter: Option<nat>)

  /** A fresh record: no frame count yet and no private data. */
  function New(path: string): (r: AudioFile)
    ensures r.path == path && r.totalFrames == 0
    ensures r.privateData.None? && r.deleter.None?
  {
    AudioFile(path, 0, None, None)
  }

  /** `free_input_module_private_data`: with both a datum and a deleter, call
      the deleter on the datum and forget both; otherwise do nothing. */
  function Free(f: AudioFile): (r: (AudioFile, seq<DeleterCall>))
    ensures f.privateData.None? || f.deleter.None? ==> r == (f, [])
    ensures f.privateData.Some? && f.deleter.Some? ==>
              && r.0 == f.(privateData := None, deleter := None)
              && r.1 == [DeleterCall(f.deleter.value, f.privateData.value)]
  {
    if f.privateData.None? || f.deleter.None? then (f, [])
    else (f.(privateData := None, deleter := None), [DeleterCall(f.deleter.value, f.privateData.value)])
  }

  /** Freeing twice calls no deleter the second time. */
  lemma FreeIdempotent(f: AudioFile)
    ensures Free(Free(f).0) == (Free(f).0, [])
  {
  }

  /** `set_private_data`: free the current datum when there is one, then
      store the new datum and deleter. */
  function SetPrivateData(f: AudioFile, data: Option<nat>, deleter: Option<nat>): (r: (AudioFile, seq<DeleterCall>))
    ensures r.0 == f.(privateData := data, deleter := deleter)
    ensures f.privateData.None? ==> r.1 == []
    ensures f.privateData.Some? ==> r.1 == Free(f).1
  {
    var freed := if f.privateData.Some? then Free(f) else (f, []);
    (freed.0.(privateData := data, deleter := deleter), freed.1)
  }

  /** `get_private_data`. */
  function GetPrivateData(f: AudioFile): (r: Option<nat>)
    ensures r.None? ==> Destroy(f) == []
    ensures r.Some? && f.deleter.Some? ==> Destroy(f) == [DeleterCall(f.deleter.value, r.value)]
  {
    f.privateData
  }

  /** `set_total_frames`. */
  function SetTotalFrames(f: AudioFile, frames: nat): (r: AudioFile)
    ensures r.path == f.path && r.privateData == f.privateData && r.deleter == f.deleter
  {
    f.(totalFrames := frames)
  }

  /** `get_total_frames`. */
  function GetTotalFrames(f: AudioFile): (r: nat)
    ensures SetTotalFrames(f, r) == f
  {
    f.totalFrames
  }

  /** A stored datum and frame count read back unchanged. */
  lemma GetAfterSet(f: AudioFile, data: Option<nat>, deleter: Option<nat>, frames: nat)
    ensures GetPrivateData(SetPrivateData(f, data, deleter).0) == data
    ensures GetTotalFrames(SetTotalFrames(f, frames)) == frames
    ensures GetTotalFrames(New(f.path)) == 0
  {
  }

  /** Every datum handed over with a deleter is freed exactly once: replacing
      it frees it, and replacing it again frees the replacement only. */
  lemma ReplaceFreesOnce(f: AudioFile, d1: nat, k1: nat, d2: nat, k2: nat)
    ensures var s1 := SetPrivateData(f, Some(d1), Some(k1));
            var s2 := SetPrivateData(s1.0, Some(d2), Some(k2));
            && s2.1 == [DeleterCall(k1, d1)]
            && Destroy(s2.0) == [DeleterCall(k2, d2)]
  {
  }

  /** The destructor: free the private data (closing the stream is I/O). */
  function Destroy(f: AudioFile): (r: seq<DeleterCall>)
    ensures |r| <= 1
    ensures |r| == 1 <==> f.privateData.Some? && f.deleter.Some?
    ensures |r| == 1 ==> r[0] == DeleterCall(f.deleter.value, f.privateData.value)
  {
    Free(f).1
  }
}
