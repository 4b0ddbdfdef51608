/** The colour a debug trace line gets for its thread (src/libboxten/debug.cpp):
    each thread id is remembered in a list on first sight and coloured by
    its position in that list, cycling through seven colours. */
module Debug {
  import opened Wrappers

  /** `colors_size`. */
  const COLORS_SIZE: nat := 7

  /** The position of `id` in the list of seen thread ids. */
  function IndexOf(seen: seq<nat>, id: nat): (r: Option<nat>)
    ensures r.Some? ==> r.value < |seen| && seen[r.value] == id
    ensures r.Some? ==> forall j :: 0 <= j < r.value ==> seen[j] != id
    ensures r.None? <==> id !in seen
  {
    if |seen| == 0 then None
    else if seen[0] == id then Some(0)
    else
      var t := IndexOf(seen[1..], id);
      if t.None? then None else Some(t.value + 1)
  }

  /** `size_t` subtraction of 1, then conversion to a 32-bit `int`
      (two's complement, as C++20 defines it). */
  function DecToInt(n: nat): (r: int)
    ensures 1 <= n <= 0x8000_0000 ==> r == n - 1
    ensures n == 0 ==> r == -1
  {
    var wrapped := (n - 1) % 0x1_0000_0000_0000_0000;
    var low := wrapped % 0x1_0000_0000;
    if low >= 0x8000_0000 then low - 0x1_0000_0000 else low
  }

  /** No id is listed twice. */
  predicate Distinct(seen: seq<nat>) {
    forall i, j :: 0 <= i < j < |seen| ==> seen[i] != seen[j]
  }

  /** `get_color` as written: a known id at position i gets i mod 7; an
      unknown id is appended and gets (new length mod 7) - 1, computed in
      unsigned arithmetic, which is -1 when the new length is a multiple
      of 7. */
  function GetColorAsWritten(seen: seq<nat>, id: nat): (r: (seq<nat>, int))
    ensures IndexOf(seen, id).Some? ==> r == (seen, IndexOf(seen, id).value % COLORS_SIZE)
    ensures IndexOf(seen, id).None? ==> r.0 == seen + [id]
    ensures -1 <= r.1 < COLORS_SIZE as int
  {
    var i := IndexOf(seen, id);
    if i.Some? then (seen, i.value % COLORS_SIZE)
    else
      var grown := seen + [id];
      (grown, DecToInt(|grown| % COLORS_SIZE))
  }

  /** `get_color` as intended: every id gets its position mod 7, on first
      sight as on every later lookup. */
  function GetColor(seen: seq<nat>, id: nat): (r: (seq<nat>, int))
    ensures IndexOf(seen, id).Some? ==> r == (seen, IndexOf(seen, id).value % COLORS_SIZE)
    ensures IndexOf(seen, id).None? ==> r.0 == seen + [id]
    ensures 0 <= r.1 < COLORS_SIZE as int
  {
    var i := IndexOf(seen, id);
    if i.Some? then (seen, i.value % COLORS_SIZE)
    else (seen + [id], |seen| % COLORS_SIZE)
  }

  /** Both versions keep the list free of duplicates. */
  lemma GetColorKeepsDistinct(seen: seq<nat>, id: nat)
    requires Distinct(seen)
    ensures Distinct(GetColor(seen, id).0) && Distinct(GetColorAsWritten(seen, id).0)
  {
  }

  /** Appending an id unseen before puts it at the end. */
  lemma IndexOfAppended(seen: seq<nat>, id: nat)
    requires id !in seen
    ensures IndexOf(seen + [id], id) == Some(|seen|)
  {
    var r := IndexOf(seen + [id], id);
    assert (seen + [id])[|seen|] == id;
    assert forall j :: 0 <= j < |seen| ==> (seen + [id])[j] == seen[j];
  }

  /** As intended, the first colour of a thread is the colour every later
      lookup gives it, and it is a valid index into the seven colours. */
  lemma GetColorStable(seen: seq<nat>, id: nat)
    ensures var first := GetColor(seen, id);
            GetColor(first.0, id) == (first.0, first.1)
  {
    if id !in seen {
      IndexOfAppended(seen, id);
    }
  }

  /** As written, the first colour of the thread seen at position k agrees
      with later lookups exactly when k mod 7 is not 6; otherwise it is -1,
      which indexes before the colour table. */
  lemma GetColorAsWrittenFirstSight(seen: seq<nat>, id: nat)
    requires id !in seen
    ensures var first := GetColorAsWritten(seen, id);
            && (|seen| % COLORS_SIZE != 6 ==> first.1 == GetColorAsWritten(first.0, id).1)
            && (|seen| % COLORS_SIZE == 6 ==> first.1 == -1 && GetColorAsWritten(first.0, id).1 == 6)
  {
    IndexOfAppended(seen, id);
  }

  /** The seventh thread to trace gets -1. */
  lemma SeventhThreadOutOfRange()
    ensures GetColorAsWritten([1, 2, 3, 4, 5, 6], 7).1 == -1
  {
    assert 7 !in [1, 2, 3, 4, 5, 6];
  }
}
