/** Playlists and the shared audio-file cache (src/libboxten/playlist.cpp).
    The cache keeps one reference-counted entry per path; a playlist is a
    sequence of audio-file handles. When the playlist is the playing one,
    insertions and erasures also correct the playback cursor. */
module Playlist {
  import opened Wrappers
  import Playback

  /** The identity of an `AudioFile` object. */
  type Handle = nat

  /** `AudioFilePointer`: an audio file, its path and its reference count. */
  datatype Entry = Entry(file: Handle, path: string, refCount: nat)

  /** `AudioFileManager`: the entries in vector order. `live` holds the
      audio files allocated and not yet deleted, `next` the next fresh one. */
  datatype Cache = Cache(entries: seq<Entry>, live: set<Handle>, next: Handle)

  const EmptyCache: Cache := Cache([], {}, 0)

  /** What a lookup in the cache compares. */
  datatype Key = ByPath(path: string) | ByFile(file: Handle)

  predicate Matches(e: Entry, k: Key) {
    match k
    case ByPath(p) => e.path == p
    case ByFile(h) => e.file == h
  }

  /** The first entry matching `k`, as the cache's linear scans find it. */
  function Find(s: seq<Entry>, k: Key): (r: Option<nat>)
    ensures r.Some? ==> r.value < |s| && Matches(s[r.value], k)
    ensures r.Some? ==> forall j :: 0 <= j < r.value ==> !Matches(s[j], k)
    ensures r.None? <==> forall j :: 0 <= j < |s| ==> !Matches(s[j], k)
  {
    if |s| == 0 then None
    else if Matches(s[0], k) then Some(0)
    else
      var t := Find(s[1..], k);
      if t.None? then None else Some(t.value + 1)
  }

  /** The audio files the entries point at. */
  function Files(s: seq<Entry>): set<Handle> {
    set i | 0 <= i < |s| :: s[i].file
  }

  /** Structural invariant: every entry is referenced, points at a live
      audio file allocated before `next`, and no audio file has two entries. */
  predicate Valid(c: Cache) {
    && (forall i :: 0 <= i < |c.entries| ==> c.entries[i].refCount >= 1)
    && (forall i :: 0 <= i < |c.entries| ==> c.entries[i].file < c.next)
    && (forall i :: 0 <= i < |c.entries| ==> c.entries[i].file in c.live)
    && (forall i, j :: 0 <= i < j < |c.entries| ==> c.entries[i].file != c.entries[j].file)
    && (forall h :: h in c.live ==> h < c.next)
  }

  /** No leak: every live audio file still has its entry. */
  predicate Owned(c: Cache) {
    c.live == Files(c.entries)
  }

  /** `get_audio_ref`: take a reference to the entry for `path`, creating it
      (a fresh audio file, count 1, at the end) when there is none. */
  function GetAudioRef(c: Cache, path: string): (r: (Cache, Handle))
    ensures Find(c.entries, ByPath(path)).Some? ==>
              var i := Find(c.entries, ByPath(path)).value;
              && r.1 == c.entries[i].file
              && r.0 == c.(entries := c.entries[i := c.entries[i].(refCount := c.entries[i].refCount + 1)])
    ensures Find(c.entries, ByPath(path)).None? ==>
              && r.1 == c.next && (Valid(c) ==> r.1 !in c.live)
              && r.0 == Cache(c.entries + [Entry(c.next, path, 1)], c.live + {c.next}, c.next + 1)
  {
    var i := Find(c.entries, ByPath(path));
    if i.Some? then
      var e := c.entries[i.value];
      (c.(entries := c.entries[i.value := e.(refCount := e.refCount + 1)]), e.file)
    else
      (Cache(c.entries + [Entry(c.next, path, 1)], c.live + {c.next}, c.next + 1), c.next)
  }

  /** `ref_count` is a `u32`: decrementing 0 wraps to the largest value. */
  function DecU32(n: nat): (r: nat)
    ensures n >= 1 ==> r + 1 == n
    ensures n == 0 ==> r == 0xFFFF_FFFF
  {
    if n == 0 then 0xFFFF_FFFF else n - 1
  }

  /** Remove entry `i`, keeping the others in order. */
  function RemoveAt(s: seq<Entry>, i: nat): (r: seq<Entry>)
    requires i < |s|
    ensures |r| + 1 == |s|
    ensures forall j :: 0 <= j < i ==> r[j] == s[j]
    ensures forall j :: i <= j < |r| ==> r[j] == s[j + 1]
  {
    s[..i] + s[i + 1..]
  }

  /** `release_audio_ref` as written: drop one reference; at zero the entry
      is erased from the vector. Erasing shifts the later entries down by
      copy assignment and destroys the vector's last slot, and the entry
      destructor deletes its audio file only when its count is zero; the
      slot destroyed holds the erased entry only when that entry was the
      last, so only then is the audio file deleted. */
  function ReleaseAsWritten(c: Cache, h: Handle): (r: Cache)
    ensures Find(c.entries, ByFile(h)).None? ==> r == c
    ensures Find(c.entries, ByFile(h)).Some? && Valid(c) ==>
              var i := Find(c.entries, ByFile(h)).value;
              && (c.entries[i].refCount == 1 ==>
                    && r.entries == RemoveAt(c.entries, i)
                    && (r.live == c.live - {h} <==> i + 1 == |c.entries|)
                    && (r.live == c.live <==> i + 1 < |c.entries|))
              && (c.entries[i].refCount > 1 ==> r == Release(c, h))
  {
    var i := Find(c.entries, ByFile(h));
    if i.None? then c
    else
      var e := c.entries[i.value];
      var n := DecU32(e.refCount);
      if n == 0 then
        var deleted := if i.value == |c.entries| - 1 then {h} else {};
        c.(entries := RemoveAt(c.entries, i.value), live := c.live - deleted)
      else c.(entries := c.entries[i.value := e.(refCount := n)])
  }

  /** `release_audio_ref` as intended: the audio file is deleted exactly when
      its last reference goes, wherever its entry sits. */
  function Release(c: Cache, h: Handle): (r: Cache)
    ensures Find(c.entries, ByFile(h)).None? ==> r == c
    ensures Find(c.entries, ByFile(h)).Some? && Valid(c) ==>
              var i := Find(c.entries, ByFile(h)).value;
              && (c.entries[i].refCount == 1 ==> r.entries == RemoveAt(c.entries, i) && r.live == c.live - {h})
              && (c.entries[i].refCount > 1 ==>
                    r.live == c.live && |r.entries| == |c.entries| && r.entries[i].refCount + 1 == c.entries[i].refCount)
  {
    var i := Find(c.entries, ByFile(h));
    if i.None? then c
    else
      var e := c.entries[i.value];
      var n := DecU32(e.refCount);
      if n == 0 then c.(entries := RemoveAt(c.entries, i.value), live := c.live - {h})
      else c.(entries := c.entries[i.value := e.(refCount := n)])
  }

  lemma FilesUpdate(s: seq<Entry>, i: nat, e: Entry)
    requires i < |s| && e.file == s[i].file
    ensures Files(s[i := e]) == Files(s)
  {
    assert forall k :: 0 <= k < |s| ==> s[i := e][k].file == s[k].file;
  }

  lemma FilesAppend(s: seq<Entry>, e: Entry)
    ensures Files(s + [e]) == Files(s) + {e.file}
  {
    assert forall k :: 0 <= k < |s| ==> (s + [e])[k] == s[k];
    assert (s + [e])[|s|] == e;
  }

  lemma {:induction false} FilesRemove(s: seq<Entry>, i: nat)
    requires i < |s|
    requires forall a, b :: 0 <= a < b < |s| ==> s[a].file != s[b].file
    ensures Files(RemoveAt(s, i)) == Files(s) - {s[i].file}
  {
    var r := RemoveAt(s, i);
    forall h | h in Files(s) - {s[i].file} ensures h in Files(r) {
      var k :| 0 <= k < |s| && s[k].file == h;
      if k < i { assert r[k] == s[k]; } else { assert r[k - 1] == s[k]; }
    }
    forall h | h in Files(r) ensures h in Files(s) - {s[i].file} {
      var k :| 0 <= k < |r| && r[k].file == h;
      if k < i { assert r[k] == s[k]; } else { assert r[k] == s[k + 1]; }
    }
  }

  /** Taking a reference keeps the cache valid and leak-free. */
  lemma {:induction false} GetAudioRefKeepsValid(c: Cache, path: string)
    requires Valid(c) && Owned(c)
    ensures Valid(GetAudioRef(c, path).0) && Owned(GetAudioRef(c, path).0)
    ensures GetAudioRef(c, path).1 in GetAudioRef(c, path).0.live
  {
    var i := Find(c.entries, ByPath(path));
    if i.Some? {
      IncrementKeepsValid(c, i.value);
    } else {
      AppendFreshKeepsValid(c, path);
    }
  }

  /** Raising the count of the entry at `i`. */
  lemma IncrementKeepsValid(c: Cache, i: nat)
    requires Valid(c) && Owned(c) && i < |c.entries|
    ensures var r := c.(entries := c.entries[i := c.entries[i].(refCount := c.entries[i].refCount + 1)]);
            Valid(r) && Owned(r) && c.entries[i].file in r.live
  {
    FilesUpdate(c.entries, i, c.entries[i].(refCount := c.entries[i].refCount + 1));
  }

  /** Appending an entry for a fresh audio file with count 1. */
  lemma AppendFreshKeepsValid(c: Cache, path: string)
    requires Valid(c) && Owned(c)
    ensures var r := Cache(c.entries + [Entry(c.next, path, 1)], c.live + {c.next}, c.next + 1);
            Valid(r) && Owned(r) && c.next in r.live
  {
    var es := c.entries + [Entry(c.next, path, 1)];
    FilesAppend(c.entries, Entry(c.next, path, 1));
    assert forall k :: 0 <= k < |c.entries| ==> es[k] == c.entries[k];
    assert forall k :: 0 <= k < |c.entries| ==> c.entries[k].file < c.next;
  }

  /** Dropping the entry at `i` together with its audio file. */
  lemma RemoveEntryKeepsValid(c: Cache, i: nat)
    requires Valid(c) && Owned(c) && i < |c.entries|
    ensures var r := c.(entries := RemoveAt(c.entries, i), live := c.live - {c.entries[i].file});
            Valid(r) && Owned(r)
  {
    FilesRemove(c.entries, i);
    var r := RemoveAt(c.entries, i);
    assert forall a :: 0 <= a < |r| ==> r[a] == c.entries[if a < i then a else a + 1];
  }

  /** Lowering the count of the entry at `i` to a positive value. */
  lemma DecrementKeepsValid(c: Cache, i: nat, n: nat)
    requires Valid(c) && Owned(c) && i < |c.entries| && n >= 1
    ensures var r := c.(entries := c.entries[i := c.entries[i].(refCount := n)]);
            Valid(r) && Owned(r)
  {
    FilesUpdate(c.entries, i, c.entries[i].(refCount := n));
  }

  /** Releasing a reference keeps the cache valid and leak-free. */
  lemma {:induction false} ReleaseKeepsValid(c: Cache, h: Handle)
    requires Valid(c) && Owned(c)
    ensures Valid(Release(c, h)) && Owned(Release(c, h))
  {
    var i := Find(c.entries, ByFile(h));
    if i.Some? {
      var e := c.entries[i.value];
      assert e.file == h;
      if e.refCount == 1 {
        assert Release(c, h) == c.(entries := RemoveAt(c.entries, i.value), live := c.live - {h});
        RemoveEntryKeepsValid(c, i.value);
      } else {
        assert Release(c, h) == c.(entries := c.entries[i.value := e.(refCount := e.refCount - 1)]);
        DecrementKeepsValid(c, i.value, e.refCount - 1);
      }
    }
  }

  /** Taking and then dropping a reference to a path restores the cache, up
      to the consumed fresh handle. */
  lemma GetReleaseRoundTrip(c: Cache, path: string)
    requires Valid(c)
    ensures var g := GetAudioRef(c, path);
            var r := Release(g.0, g.1);
            r.entries == c.entries && r.live == c.live
  {
    var i := Find(c.entries, ByPath(path));
    var g := GetAudioRef(c, path);
    if i.Some? {
      var e := c.entries[i.value];
      assert g == (c.(entries := c.entries[i.value := e.(refCount := e.refCount + 1)]), e.file);
      RoundTripCached(c, i.value);
    } else {
      assert g == (Cache(c.entries + [Entry(c.next, path, 1)], c.live + {c.next}, c.next + 1), c.next);
      RoundTripFresh(c, path);
    }
  }

  /** Releasing right after raising a cached entry's count restores it. */
  lemma RoundTripCached(c: Cache, i: nat)
    requires Valid(c) && i < |c.entries|
    ensures var e := c.entries[i];
            Release(c.(entries := c.entries[i := e.(refCount := e.refCount + 1)]), e.file) == c
  {
    var e := c.entries[i];
    var es := c.entries[i := e.(refCount := e.refCount + 1)];
    assert forall j :: 0 <= j < i ==> !Matches(es[j], ByFile(e.file));
    assert Matches(es[i], ByFile(e.file));
    assert Find(es, ByFile(e.file)) == Some(i);
    assert es[i := es[i].(refCount := e.refCount)] == c.entries;
  }

  /** Releasing a freshly appended entry removes it again. */
  lemma RoundTripFresh(c: Cache, path: string)
    requires Valid(c)
    ensures var r := Release(Cache(c.entries + [Entry(c.next, path, 1)], c.live + {c.next}, c.next + 1), c.next);
            r.entries == c.entries && r.live == c.live
  {
    var es := c.entries + [Entry(c.next, path, 1)];
    assert forall j :: 0 <= j < |c.entries| ==> !Matches(es[j], ByFile(c.next));
    assert Matches(es[|c.entries|], ByFile(c.next));
    assert Find(es, ByFile(c.next)) == Some(|c.entries|);
    assert RemoveAt(es, |c.entries|) == c.entries;
    assert c.next !in c.live;
  }

  /** `n` successive `get_audio_ref` calls for one path. */
  function AcquireMany(c: Cache, path: string, n: nat): Cache
    decreases n
  {
    if n == 0 then c else GetAudioRef(AcquireMany(c, path, n - 1), path).0
  }

  /** `n` successive `release_audio_ref` calls for one audio file. */
  function ReleaseMany(c: Cache, h: Handle, n: nat): Cache
    decreases n
  {
    if n == 0 then c else ReleaseMany(Release(c, h), h, n - 1)
  }

  /** For a path not yet cached, `n` acquisitions leave one entry at the end
      holding `n` references to a single fresh audio file. */
  lemma {:induction false} AcquireManyShape(c: Cache, path: string, n: nat)
    requires Find(c.entries, ByPath(path)).None? && n >= 1
    ensures AcquireMany(c, path, n) == Cache(c.entries + [Entry(c.next, path, n)], c.live + {c.next}, c.next + 1)
    decreases n
  {
    if n > 1 {
      AcquireManyShape(c, path, n - 1);
      var a := AcquireMany(c, path, n - 1);
      var i := Find(a.entries, ByPath(path));
      assert Matches(a.entries[|c.entries|], ByPath(path));
      assert i.Some? && i.value == |c.entries| by {
        assert forall j :: 0 <= j < |c.entries| ==> a.entries[j] == c.entries[j];
      }
      assert a.entries[|c.entries| := Entry(c.next, path, n)] == c.entries + [Entry(c.next, path, n)];
    }
  }

  /** Releasing `k` references held by a last entry that nothing else points
      at removes it and its audio file. */
  lemma {:induction false} ReleaseManyShape(es: seq<Entry>, live: set<Handle>, next: Handle, h: Handle, path: string, k: nat)
    requires forall j :: 0 <= j < |es| ==> es[j].file != h
    requires k >= 1
    ensures var r := ReleaseMany(Cache(es + [Entry(h, path, k)], live, next), h, k);
            r.entries == es && r.live == live - {h}
    decreases k
  {
    var c := Cache(es + [Entry(h, path, k)], live, next);
    var i := Find(c.entries, ByFile(h));
    assert Matches(c.entries[|es|], ByFile(h));
    assert i.Some? && i.value == |es| by {
      assert forall j :: 0 <= j < |es| ==> c.entries[j] == es[j];
    }
    if k == 1 {
      assert RemoveAt(c.entries, |es|) == es;
    } else {
      assert c.entries[|es| := Entry(h, path, k - 1)] == es + [Entry(h, path, k - 1)];
      ReleaseManyShape(es, live, next, h, path, k - 1);
    }
  }

  /** `n` acquisitions of a path not yet cached followed by `n` releases
      leave no entry for that path and no audio file behind. */
  lemma AcquireReleaseBalance(c: Cache, path: string, n: nat)
    requires Valid(c) && Find(c.entries, ByPath(path)).None? && n >= 1
    ensures var r := ReleaseMany(AcquireMany(c, path, n), c.next, n);
            && r.entries == c.entries && r.live == c.live
            && Find(r.entries, ByPath(path)).None?
  {
    AcquireManyShape(c, path, n);
    ReleaseManyShape(c.entries, c.live + {c.next}, c.next + 1, c.next, path, n);
  }

  /** The leak: with two single-reference entries, releasing the first one
      erases its entry but never deletes its audio file. */
  lemma ReleaseAsWrittenLeaks()
    ensures var c := Cache([Entry(0, "a", 1), Entry(1, "b", 1)], {0, 1}, 2);
            && Valid(c) && Owned(c)
            && ReleaseAsWritten(c, 0).entries == [Entry(1, "b", 1)]
            && 0 in ReleaseAsWritten(c, 0).live
            && !Owned(ReleaseAsWritten(c, 0))
  {
    var c := Cache([Entry(0, "a", 1), Entry(1, "b", 1)], {0, 1}, 2);
    assert Find(c.entries, ByFile(0)) == Some(0);
    var r := ReleaseAsWritten(c, 0);
    assert r.entries == [Entry(1, "b", 1)];
    assert Files(c.entries) == {0, 1} by {
      assert c.entries[0].file == 0 && c.entries[1].file == 1;
    }
    assert Files(r.entries) == {1} by {
      assert r.entries[0].file == 1;
    }
  }

  /** A playlist together with the cache, and the playback cursor when it is
      the playing playlist. */
  datatype Store = Store(cache: Cache, members: seq<Handle>, cursor: Option<Playback.Cursor>)

  /** The cursor names a member of the playlist. */
  predicate OnMember(s: Store) {
    s.cursor.Some? && 0 <= s.cursor.value.song < |s.members|
  }

  /** The member the cursor names. */
  function Playing(s: Store): Handle
    requires OnMember(s)
  {
    s.members[s.cursor.value.song]
  }

  function InsertCursor(c: Option<Playback.Cursor>, pos: nat): (r: Option<Playback.Cursor>)
    ensures r.Some? <==> c.Some?
    ensures c.Some? ==> r.value == Playback.InsertCorrection(c.value, pos)
  {
    if c.None? then None else Some(Playback.InsertCorrection(c.value, pos))
  }

  /** `proc_insert` as written: take a reference, correct the cursor for an
      insertion at `pos`, but append the new member at the end. */
  function ProcInsertAsWritten(s: Store, path: string, pos: nat): (r: Store)
    requires pos <= |s.members|
    ensures r.members == s.members + [GetAudioRef(s.cache, path).1]
    ensures r.cursor == InsertCursor(s.cursor, pos)
    ensures r.cache == GetAudioRef(s.cache, path).0
  {
    var g := GetAudioRef(s.cache, path);
    Store(g.0, s.members + [g.1], InsertCursor(s.cursor, pos))
  }

  /** `proc_insert` as intended: the new member goes in at `pos`. */
  function ProcInsert(s: Store, path: string, pos: nat): (r: Store)
    requires pos <= |s.members|
    ensures |r.members| == |s.members| + 1
    ensures r.members[pos] == GetAudioRef(s.cache, path).1
    ensures forall j :: 0 <= j < pos ==> r.members[j] == s.members[j]
    ensures forall j :: pos < j < |r.members| ==> r.members[j] == s.members[j - 1]
    ensures r.cache == GetAudioRef(s.cache, path).0
  {
    var g := GetAudioRef(s.cache, path);
    Store(g.0, s.members[..pos] + [g.1] + s.members[pos..], InsertCursor(s.cursor, pos))
  }

  /** `add`: insert at the end. Here the as-written and intended inserts
      agree. */
  function Add(s: Store, path: string): (r: Store)
    ensures r == ProcInsertAsWritten(s, path, |s.members|)
    ensures r.members == s.members + [GetAudioRef(s.cache, path).1]
  {
    ProcInsert(s, path, |s.members|)
  }

  /** `insert`: hands its position to `proc_insert`, so the new member is
      appended at the end while the cursor is corrected for `pos`. */
  function Insert(s: Store, path: string, pos: nat): (r: Store)
    requires pos <= |s.members|
    ensures r.members == s.members + [GetAudioRef(s.cache, path).1]
    ensures r.cursor == InsertCursor(s.cursor, pos)
    ensures r.cache == GetAudioRef(s.cache, path).0
  {
    ProcInsertAsWritten(s, path, pos)
  }

  /** `insert` places the new member where it was asked to only at the end:
      there it agrees with the intended insertion, and before any member
      other than the newcomer's own audio file the member lists differ. */
  lemma InsertOnlyAtEnd(s: Store, path: string, pos: nat)
    requires pos <= |s.members|
    ensures pos == |s.members| ==> Insert(s, path, pos) == ProcInsert(s, path, pos)
    ensures pos < |s.members| && s.members[pos] != GetAudioRef(s.cache, path).1 ==>
              Insert(s, path, pos).members != ProcInsert(s, path, pos).members
  {
    if pos < |s.members| {
      assert Insert(s, path, pos).members[pos] == s.members[pos];
    } else {
      assert s.members[..pos] + [GetAudioRef(s.cache, path).1] + s.members[pos..] == s.members + [GetAudioRef(s.cache, path).1];
    }
  }

  /** With the intended insertion, inserting anywhere keeps the cursor on the
      member it named. */
  lemma InsertKeepsPlaying(s: Store, path: string, pos: nat)
    requires pos <= |s.members| && OnMember(s)
    ensures OnMember(ProcInsert(s, path, pos))
    ensures Playing(ProcInsert(s, path, pos)) == Playing(s)
    ensures ProcInsert(s, path, pos).cursor.value.frame == s.cursor.value.frame
  {
  }

  /** The as-written insert moves the cursor off its member: playing the
      second of two members, inserting at the front leaves the cursor on the
      newcomer. */
  lemma InsertAsWrittenMovesCursor()
    ensures var s := Store(Cache([Entry(0, "a", 1), Entry(1, "b", 1)], {0, 1}, 2), [0, 1], Some(Playback.Cursor(1, 0)));
            var r := ProcInsertAsWritten(s, "c", 0);
            && OnMember(s) && OnMember(r)
            && Playing(s) == 1 && Playing(r) == 2
  {
    var s := Store(Cache([Entry(0, "a", 1), Entry(1, "b", 1)], {0, 1}, 2), [0, 1], Some(Playback.Cursor(1, 0)));
    assert Find(s.cache.entries, ByPath("c")).None? by {
      assert s.cache.entries[0].path == "a" && s.cache.entries[1].path == "b";
      assert "c" != "a" && "c" != "b";
    }
  }

  /** The result of `erase`: the store and the playback effects. */
  datatype Erased = Erased(store: Store, effects: seq<Playback.Effect>)

  /** `erase` as written: the playing-playlist check for emptiness runs
      before the member is removed, and the reference is dropped with the
      leaking release. */
  function EraseAsWritten(s: Store, pos: nat): (r: Erased)
    requires pos < |s.members|
    ensures r.store.members == s.members[..pos] + s.members[pos + 1..]
    ensures r.store.cache == ReleaseAsWritten(s.cache, s.members[pos])
    ensures r.store.cursor.Some? <==> s.cursor.Some?
    ensures s.cursor.Some? ==> r.store.cursor.value == Playback.EraseCorrection(s.cursor.value, pos)
  {
    var h := s.members[pos];
    var corrected := if s.cursor.None? then (None, [])
                     else var t := Playback.PlayingPlaylistErase(s.cursor.value, pos, |s.members|); (Some(t.0), t.1);
    Erased(Store(ReleaseAsWritten(s.cache, h), s.members[..pos] + s.members[pos + 1..], corrected.0), corrected.1)
  }

  /** `erase` as intended: the emptiness check sees the playlist after the
      removal, and the audio file goes when its last reference does. */
  function Erase(s: Store, pos: nat): (r: Erased)
    requires pos < |s.members|
    ensures r.store.members == s.members[..pos] + s.members[pos + 1..]
    ensures r.store.cache == Release(s.cache, s.members[pos])
    ensures r.store.cursor.Some? <==> s.cursor.Some?
    ensures s.cursor.Some? ==> r.store.cursor.value == Playback.EraseCorrection(s.cursor.value, pos)
  {
    var h := s.members[pos];
    var corrected := if s.cursor.None? then (None, [])
                     else var t := Playback.PlayingPlaylistErase(s.cursor.value, pos, |s.members| - 1); (Some(t.0), t.1);
    Erased(Store(Release(s.cache, h), s.members[..pos] + s.members[pos + 1..], corrected.0), corrected.1)
  }

  /** As written, erasing never stops playback, not even when the last
      member of the playing playlist goes. */
  lemma EraseAsWrittenNeverStops(s: Store, pos: nat)
    requires pos < |s.members|
    ensures EraseAsWritten(s, pos).effects == []
  {
  }

  /** As intended, erasing stops playback exactly when it empties the
      playing playlist. */
  lemma EraseStopsWhenEmptied(s: Store, pos: nat)
    requires pos < |s.members|
    ensures Erase(s, pos).effects != [] <==> s.cursor.Some? && |s.members| == 1
    ensures Erase(s, pos).effects != [] ==> Erase(s, pos).effects == [Playback.EnqueueStop]
  {
  }

  /** Erasing a member other than the playing one keeps the cursor on its
      member; erasing the playing one restarts the cursor at frame 0 of the
      member that moved into its place. */
  lemma EraseKeepsPlaying(s: Store, pos: nat)
    requires pos < |s.members| && OnMember(s)
    ensures pos != s.cursor.value.song ==> OnMember(Erase(s, pos).store) && Playing(Erase(s, pos).store) == Playing(s)
    ensures pos == s.cursor.value.song ==> Erase(s, pos).store.cursor.value == Playback.Cursor(pos, 0)
  {
  }

  /** `size`. */
  function Size(s: Store): (r: nat)
    ensures r == 0 <==> s.members == []
  {
    |s.members|
  }

  /** `operator[]`. */
  function At(s: Store, n: nat): (r: Handle)
    requires n < |s.members|
    ensures r in s.members
  {
    s.members[n]
  }

  /** After `insert` the playlist is one longer, the earlier members keep
      their indices and the new audio file is the last one. */
  lemma InsertSizeAt(s: Store, path: string, pos: nat)
    requires pos <= |s.members|
    ensures Size(Insert(s, path, pos)) == Size(s) + 1
    ensures At(Insert(s, path, pos), Size(s)) == GetAudioRef(s.cache, path).1
    ensures forall j :: 0 <= j < Size(s) ==> At(Insert(s, path, pos), j) == At(s, j)
  {
  }

  /** After `erase` the playlist is one shorter; members before the erased
      one keep their indices and later ones move one down. */
  lemma EraseSizeAt(s: Store, pos: nat)
    requires pos < |s.members|
    ensures Size(Erase(s, pos).store) == Size(s) - 1 == Size(EraseAsWritten(s, pos).store)
    ensures forall j :: 0 <= j < pos ==> At(Erase(s, pos).store, j) == At(s, j)
    ensures forall j :: pos <= j < Size(s) - 1 ==> At(Erase(s, pos).store, j) == At(s, j + 1)
  {
  }

  /** After `add` the playlist is one longer and its last member is an audio
      file for the added path; `erase` makes it one shorter again. */
  lemma AddAtSize(s: Store, path: string)
    requires Valid(s.cache) && Owned(s.cache)
    ensures Size(Add(s, path)) == Size(s) + 1
    ensures var r := Add(s, path);
            var i := Find(r.cache.entries, ByFile(At(r, Size(s))));
            i.Some? && r.cache.entries[i.value].path == path
    ensures Size(Erase(Add(s, path), Size(s)).store) == Size(s)
  {
    var r := Add(s, path);
    GetAudioRefKeepsValid(s.cache, path);
    var h := At(r, Size(s));
    var k := Find(s.cache.entries, ByPath(path));
    if k.Some? {
      assert r.cache.entries[k.value].file == h && r.cache.entries[k.value].path == path;
    } else {
      assert r.cache.entries[|s.cache.entries|] == Entry(h, path, 1);
    }
    var i := Find(r.cache.entries, ByFile(h));
    assert i.Some?;
    var j :| 0 <= j < |r.cache.entries| && r.cache.entries[j].file == h && r.cache.entries[j].path == path;
    assert i.value == j;
  }
}
