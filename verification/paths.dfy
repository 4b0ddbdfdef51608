/** The part of `std::filesystem::path::operator/=` (and `append`) the
    program relies on, for POSIX paths held as strings: an absolute
    right-hand side replaces the path, otherwise a separator is added when
    the left-hand side ends in a file name. */
module Paths {
  predicate Absolute(p: string) {
    |p| > 0 && p[0] == '/'
  }

  /** The left-hand side ends in a file name (is non-empty and does not end
      with a separator). */
  predicate HasFileName(p: string) {
    |p| > 0 && p[|p| - 1] != '/'
  }

  function Join(a: string, b: string): (r: string)
    ensures Absolute(b) ==> r == b
    ensures !Absolute(b) ==> |r| >= |a| + |b| && r[..|a|] == a && r[|r| - |b|..] == b
    ensures !Absolute(b) ==> (r == a + b || r == a + ['/'] + b)
    ensures !Absolute(b) && HasFileName(a) ==> |r| > |a| && r[|a|] == '/'
  {
    if Absolute(b) then b
    else if HasFileName(a) then a + ['/'] + b
    else a + b
  }

  /** A relative part joined onto a path ending in a file name. */
  lemma JoinOntoFile(a: string, b: string)
    requires !Absolute(b) && HasFileName(a)
    ensures Join(a, b) == a + "/" + b
  {
  }

  /** Joining a relative part onto a non-empty path puts a separator right
      before that part. */
  lemma JoinSeparates(a: string, b: string)
    requires !Absolute(b) && |a| > 0
    ensures var r := Join(a, b);
            |r| >= |a| + |b| && |r| >= |b| + 1 && r[|r| - |b| - 1..] == ['/'] + b
  {
    var r := Join(a, b);
    if HasFileName(a) {
      assert r == a + ['/'] + b;
      assert r[|r| - |b| - 1..] == ['/'] + b;
    } else {
      assert r == a + b;
      assert r[|r| - |b| - 1..] == [a[|a| - 1]] + b;
    }
  }

  /** Joining a relative part never shortens the path or loses its prefix,
      so joins compose: the result of two joins starts with the first
      operand. */
  lemma JoinKeepsPrefix(a: string, b: string, c: string)
    requires !Absolute(b) && !Absolute(c)
    ensures Join(Join(a, b), c)[..|a|] == a
  {
    var ab := Join(a, b);
    assert Join(ab, c)[..|ab|] == ab;
    assert ab[..|a|] == a;
  }
}
