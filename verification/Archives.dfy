/** How the archive patterns end: a dot, one of a list of extensions, and `$`
    (backend/index/node_build.py, line 55; backend/index/python_build.py, line 18). */
module Archives {
  import opened Basics
  import opened Regex

  /** One alternative of `(?P<ext>...)$`. */
  function Extension(t: string): Pattern {
    Lit(t, Close("ext", Finish("")))
  }

  function Extensions(es: seq<string>): Pattern
    requires es != []
  {
    if |es| == 1 then Extension(es[0]) else Either(Extension(es[0]), Extensions(es[1..]))
  }

  /** `\.(?P<ext>...|...)$` */
  function ExtensionPart(es: seq<string>): Pattern
    requires es != []
  {
    One(Exactly('.'), Open("ext", Extensions(es)))
  }

  lemma ExtensionExact(t: string, s: string)
    ensures Try(Extension(t), s).Some? ==> s == t || s == t + "\n"
    ensures s == t ==> Try(Extension(t), s) == Some(map["ext" := Span(0, 0)])
  {
    if t <= s {
      assert s == t + s[|t|..];
      LitStep(t, Close("ext", Finish("")), s[|t|..]);
    } else {
      LitMismatch(t, Close("ext", Finish("")), s);
    }
  }

  lemma {:induction false} ExtensionsExact(es: seq<string>, s: string)
    requires es != [] && forall e :: e in es ==> '\n' !in e
    ensures Try(Extensions(es), s).Some? ==> exists e :: e in es && (s == e || s == e + "\n")
    ensures s in es ==> Try(Extensions(es), s) == Some(map["ext" := Span(0, 0)])
    decreases |es|
  {
    ExtensionExact(es[0], s);
    NewlineIsNoExtension(es, s);
    assert es[0] in es;
    if |es| > 1 {
      ExtensionsExact(es[1..], s);
      assert es == [es[0]] + es[1..];
      if Try(Extensions(es), s).Some? && Try(Extension(es[0]), s).None? {
        var e :| e in es[1..] && (s == e || s == e + "\n");
        assert e in es;
      }
    } else {
      assert es == [es[0]];
    }
  }

  lemma NewlineIsNoExtension(es: seq<string>, s: string)
    requires es != [] && forall e :: e in es ==> '\n' !in e
    ensures s == es[0] + "\n" ==> s !in es
  {
    if s == es[0] + "\n" {
      assert s[|s| - 1] == '\n';
    }
  }

  /** What the proofs use of the list: dotted words, none hidden at the end of another. */
  ghost predicate GoodExtensions(es: seq<string>) {
    && es != []
    && (forall e :: e in es ==> e != "" && AllIn(e, AlnumDot))
    && (forall e, d :: e in es && d in es ==> !ProperTail("." + d, "." + e))
  }

  predicate ProperTail(t: string, s: string) {
    |t| < |s| && s[|s| - |t|..] == t
  }

  lemma NoNewlines(es: seq<string>)
    requires GoodExtensions(es)
    ensures forall e :: e in es ==> '\n' !in e
  {
    forall e | e in es ensures '\n' !in e {
      assert '\n' in e ==> In('\n', AlnumDot);
    }
  }

  /** On what remains of a name, the extension part only matches a listed extension ... */
  lemma ExtensionPartOnly(es: seq<string>, s: string) returns (e: string)
    requires GoodExtensions(es) && Try(ExtensionPart(es), s).Some?
    ensures e in es && (s == "." + e || s == "." + e + "\n")
  {
    NoNewlines(es);
    ExtensionsExact(es, s[1..]);
    e :| e in es && (s[1..] == e || s[1..] == e + "\n");
    assert s == "." + s[1..];
    assert "." + (e + "\n") == "." + e + "\n";
  }

  /** ... and matches each of them. */
  lemma ExtensionPartMatches(es: seq<string>, e: string)
    requires GoodExtensions(es) && e in es
    ensures Try(ExtensionPart(es), "." + e) == Some(map["ext" := Span(|e|, 0)])
  {
    NoNewlines(es);
    ExtensionsExact(es, e);
    assert ("." + e)[1..] == e;
    var m: Groups := map["ext" := Span(0, 0)];
    assert m["ext" := Span(|e|, 0)] == map["ext" := Span(|e|, 0)];
  }

  lemma InsideExtension(es: seq<string>, e: string, n: nat, d: string)
    requires GoodExtensions(es) && e in es && d in es && 0 < n <= |e| + 1
    ensures ("." + e)[n..] != "." + d && ("." + e)[n..] != "." + d + "\n"
  {
    var t := ("." + e)[n..];
    assert !ProperTail("." + d, "." + e) && |t| == 1 + |e| - n;
    if t == "." + d + "\n" {
      assert t[|t| - 1] == ("." + e)[|e|] == e[|e| - 1];
      assert e[|e| - 1] in e;
      NoNewlines(es);
    }
  }
}
