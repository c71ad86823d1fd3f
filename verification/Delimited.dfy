/** `sep.join(parts)` and splitting on a one-character separator. */
module Delimited {

  function Join(sep: char, parts: seq<string>): string {
    if parts == [] then ""
    else if |parts| == 1 then parts[0]
    else parts[0] + [sep] + Join(sep, parts[1..])
  }

  function Split(sep: char, s: string): (parts: seq<string>)
    ensures parts != []
  {
    if s == "" then [""]
    else if s[0] == sep then [""] + Split(sep, s[1..])
    else
      var rest := Split(sep, s[1..]);
      [[s[0]] + rest[0]] + rest[1..]
  }

  lemma {:induction false} SplitWithin(sep: char, s: string)
    ensures forall p :: p in Split(sep, s) ==> sep !in p
    decreases |s|
  {
    if s != "" {
      var rest := Split(sep, s[1..]);
      SplitWithin(sep, s[1..]);
      assert rest[0] in rest && forall p :: p in rest[1..] ==> p in rest;
    }
  }

  lemma {:induction false} SplitPart(sep: char, part: string, tail: string)
    requires sep !in part
    ensures Split(sep, part + tail) == [part + Split(sep, tail)[0]] + Split(sep, tail)[1..]
    decreases |part|
  {
    var rest := Split(sep, tail);
    if part == "" {
      assert part + tail == tail;
      assert rest == [rest[0]] + rest[1..];
      assert "" + rest[0] == rest[0];
    } else {
      assert (part + tail)[1..] == part[1..] + tail;
      SplitPart(sep, part[1..], tail);
      assert [part[0]] + (part[1..] + rest[0]) == part + rest[0];
    }
  }

  /** Splitting recovers what was joined when no part holds the separator. */
  lemma {:induction false} SplitJoin(sep: char, parts: seq<string>)
    requires parts != [] && forall p :: p in parts ==> sep !in p
    ensures Split(sep, Join(sep, parts)) == parts
    decreases |parts|
  {
    assert parts[0] in parts;
    if |parts| == 1 {
      SplitPart(sep, parts[0], "");
      assert parts[0] + "" == parts[0];
    } else {
      var tail := [sep] + Join(sep, parts[1..]);
      assert Join(sep, parts) == parts[0] + tail;
      assert tail[1..] == Join(sep, parts[1..]);
      assert forall p :: p in parts[1..] ==> p in parts;
      SplitJoin(sep, parts[1..]);
      SplitPart(sep, parts[0], tail);
      assert parts[0] + "" == parts[0];
    }
  }

  /** A final separator only adds an empty part. */
  lemma {:induction false} JoinClosed(sep: char, parts: seq<string>)
    requires parts != []
    ensures Join(sep, parts) + [sep] == Join(sep, parts + [""])
    decreases |parts|
  {
    if |parts| == 1 {
      assert (parts + [""])[1..] == [""];
      assert parts[0] + [sep] + "" == parts[0] + [sep];
    } else {
      JoinClosed(sep, parts[1..]);
      assert (parts + [""])[1..] == parts[1..] + [""];
    }
  }

  lemma {:induction false} JoinAvoids(sep: char, parts: seq<string>, c: char)
    requires c != sep && forall p :: p in parts ==> c !in p
    ensures c !in Join(sep, parts)
    decreases |parts|
  {
    if |parts| > 0 {
      assert parts[0] in parts;
    }
    if |parts| > 1 {
      assert forall p :: p in parts[1..] ==> p in parts;
      JoinAvoids(sep, parts[1..], c);
    }
  }
}
