/** Code-point order on strings, as Python compares them, and `list.sort` by a string key. */
module TextOrder {

  predicate Less(a: string, b: string) {
    b != [] && (a == [] || a[0] < b[0] || (a[0] == b[0] && Less(a[1..], b[1..])))
  }

  lemma {:induction false} LessIrreflexive(a: string)
    ensures !Less(a, a)
    decreases |a|
  {
    if a != [] {
      LessIrreflexive(a[1..]);
    }
  }

  lemma {:induction false} LessTransitive(a: string, b: string, c: string)
    requires Less(a, b) && Less(b, c)
    ensures Less(a, c)
    decreases |a|
  {
    if a != [] && a[0] == b[0] == c[0] {
      LessTransitive(a[1..], b[1..], c[1..]);
    }
  }

  lemma {:induction false} LessTotal(a: string, b: string)
    ensures Less(a, b) || a == b || Less(b, a)
    decreases |a|
  {
    if a != [] && b != [] && a[0] == b[0] {
      LessTotal(a[1..], b[1..]);
      assert a == [a[0]] + a[1..] && b == [b[0]] + b[1..];
    }
  }

  /** The order a sort follows; `down` is Python's `reverse=True`. */
  predicate Before(down: bool, a: string, b: string) {
    if down then Less(b, a) else Less(a, b)
  }

  lemma BeforeIsStrictTotal(down: bool, a: string, b: string)
    ensures Before(down, a, b) || a == b || Before(down, b, a)
    ensures Before(down, a, b) ==> a != b && !Before(down, b, a)
  {
    LessTotal(a, b);
    LessIrreflexive(a);
    if Less(a, b) && Less(b, a) {
      LessTransitive(a, b, a);
    }
  }

  lemma BeforeTransitive(down: bool, a: string, b: string, c: string)
    requires Before(down, a, b) && Before(down, b, c)
    ensures Before(down, a, c)
  {
    if down {
      LessTransitive(c, b, a);
    } else {
      LessTransitive(a, b, c);
    }
  }

  /** The key of a list of plain strings. */
  function Id(): string -> string {
    (t: string) => t
  }

  /** Keys strictly in order, hence without repetition. */
  predicate Strict<E>(down: bool, key: E -> string, s: seq<E>) {
    forall i, j :: 0 <= i < j < |s| ==> Before(down, key(s[i]), key(s[j]))
  }

  predicate DistinctKeys<E>(key: E -> string, s: seq<E>) {
    forall i, j :: 0 <= i < j < |s| ==> key(s[i]) != key(s[j])
  }

  lemma StrictIsDistinct<E>(down: bool, key: E -> string, s: seq<E>)
    requires Strict(down, key, s)
    ensures DistinctKeys(key, s)
  {
    forall i, j | 0 <= i < j < |s| ensures key(s[i]) != key(s[j]) {
      BeforeIsStrictTotal(down, key(s[i]), key(s[j]));
    }
  }

  /** Places `e` after everything that does not come later, so equal keys keep their order. */
  function Insert<E>(down: bool, key: E -> string, s: seq<E>, e: E): (r: seq<E>)
    ensures multiset(r) == multiset(s) + multiset{e}
  {
    if s == [] then [e]
    else
      assert s == [s[0]] + s[1..];
      if Before(down, key(e), key(s[0])) then [e] + s
      else [s[0]] + Insert(down, key, s[1..], e)
  }

  /** A stable sort by key. */
  function Sort<E>(down: bool, key: E -> string, s: seq<E>): (r: seq<E>)
    ensures multiset(r) == multiset(s)
  {
    if s == [] then []
    else
      assert s == s[..|s| - 1] + [s[|s| - 1]];
      Insert(down, key, Sort(down, key, s[..|s| - 1]), s[|s| - 1])
  }

  lemma SameMultisetSameElements<E>(s: seq<E>, t: seq<E>, x: E)
    requires multiset(s) == multiset(t)
    ensures x in s <==> x in t
  {
    assert x in s <==> x in multiset(s);
    assert x in t <==> x in multiset(t);
  }

  lemma StrictCons<E>(down: bool, key: E -> string, e: E, s: seq<E>)
    requires Strict(down, key, s) && forall x :: x in s ==> Before(down, key(e), key(x))
    ensures Strict(down, key, [e] + s)
  {
    var all := [e] + s;
    forall i, j | 0 <= i < j < |all| ensures Before(down, key(all[i]), key(all[j])) {
      assert all[j] == s[j - 1] && (i > 0 ==> all[i] == s[i - 1]);
    }
  }

  lemma HeadIsBefore<E>(down: bool, key: E -> string, s: seq<E>)
    requires s != [] && Strict(down, key, s)
    ensures Strict(down, key, s[1..]) && forall x :: x in s[1..] ==> Before(down, key(s[0]), key(x))
  {
  }

  lemma {:induction false} InsertKeepsStrict<E>(down: bool, key: E -> string, s: seq<E>, e: E)
    requires Strict(down, key, s) && forall x :: x in s ==> key(x) != key(e)
    ensures Strict(down, key, Insert(down, key, s, e))
    decreases |s|
  {
    if s != [] {
      BeforeIsStrictTotal(down, key(e), key(s[0]));
      HeadIsBefore(down, key, s);
      if Before(down, key(e), key(s[0])) {
        forall x | x in s ensures Before(down, key(e), key(x)) {
          if x != s[0] {
            assert x in s[1..];
            BeforeTransitive(down, key(e), key(s[0]), key(x));
          }
        }
        StrictCons(down, key, e, s);
      } else {
        var rest := Insert(down, key, s[1..], e);
        InsertKeepsStrict(down, key, s[1..], e);
        forall x | x in rest ensures Before(down, key(s[0]), key(x)) {
          SameMultisetSameElements(rest, s[1..] + [e], x);
        }
        StrictCons(down, key, s[0], rest);
      }
    }
  }

  lemma {:induction false} SortIsStrict<E>(down: bool, key: E -> string, s: seq<E>)
    requires DistinctKeys(key, s)
    ensures Strict(down, key, Sort(down, key, s))
    decreases |s|
  {
    if s != [] {
      var m := |s| - 1;
      SortIsStrict(down, key, s[..m]);
      forall x | x in Sort(down, key, s[..m]) ensures key(x) != key(s[m]) {
        SameMultisetSameElements(Sort(down, key, s[..m]), s[..m], x);
      }
      InsertKeepsStrict(down, key, Sort(down, key, s[..m]), s[m]);
    }
  }

  lemma SortKeepsElements<E>(down: bool, key: E -> string, s: seq<E>, x: E)
    ensures x in Sort(down, key, s) <==> x in s
  {
    SameMultisetSameElements(Sort(down, key, s), s, x);
  }

  /** A strictly ordered list is determined by the elements it holds. */
  lemma {:induction false} StrictUnique<E>(down: bool, key: E -> string, s: seq<E>, t: seq<E>)
    requires Strict(down, key, s) && Strict(down, key, t)
    requires forall x :: x in s <==> x in t
    ensures s == t
    decreases |s|
  {
    assert t != [] ==> t[0] in t;
    if s != [] {
      assert s[0] in t;
      var i :| 0 <= i < |t| && t[i] == s[0];
      if i > 0 {
        assert t[0] in s;
        var j :| 0 <= j < |s| && s[j] == t[0];
        BeforeIsStrictTotal(down, key(s[0]), key(t[0]));
        assert false;
      }
      forall x ensures x in s[1..] <==> x in t[1..] {
        StrictTail(down, key, s, x);
        StrictTail(down, key, t, x);
      }
      StrictUnique(down, key, s[1..], t[1..]);
      assert s == [s[0]] + s[1..] && t == [t[0]] + t[1..];
    }
  }

  lemma StrictTail<E>(down: bool, key: E -> string, s: seq<E>, x: E)
    requires Strict(down, key, s) && s != []
    ensures x in s[1..] <==> x in s && x != s[0]
  {
    if x in s[1..] {
      var j :| 0 < j < |s| && s[j] == x;
      BeforeIsStrictTotal(down, key(s[0]), key(x));
    }
    if x in s && x != s[0] {
      var j :| 0 <= j < |s| && s[j] == x;
      assert s[1..][j - 1] == x;
    }
  }
}
