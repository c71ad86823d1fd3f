/** What several modules share: the optional value used wherever the source returns `None`, and
    a few notions about strings and lists. */
module Basics {
  datatype Option<+T> = None | Some(value: T)

  predicate IsDigit(c: char) { '0' <= c <= '9' }

  /** `c.lower()`, on ASCII. */
  function LowerChar(c: char): char {
    if 'A' <= c <= 'Z' then c - 'A' + 'a' else c
  }

  function Elements(s: seq<string>): set<string> {
    set x | x in s
  }

  predicate AllDistinct<T(==)>(s: seq<T>) {
    forall i, j :: 0 <= i < j < |s| ==> s[i] != s[j]
  }

  /** A slice counted from the end, as the matcher counts. */
  lemma SliceMiddle(f: string, u: string, mid: string, w: string)
    requires f == u + mid + w
    ensures f[|f| - |mid| - |w|..|f| - |w|] == mid
  {
  }

  lemma SomeOrNone<T>(s: seq<T>)
    ensures s == [] || exists x :: x in s
  {
    if s != [] {
      assert s[0] in s;
    }
  }
}
