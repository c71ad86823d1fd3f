/** Distribution filenames (backend/index/packages.py, lines 14-45): name normalisation,
    the wheel and sdist patterns, the extension filter. */
module PackageNames {
  import opened Basics
  import opened Regex

  // ------------------------------------------------------------------------ normalisation

  predicate IsSeparator(c: char) { c in "-_." }

  /** `re.sub(r"[-_.]+", "-", name.lower())` */
  function Normalize(name: string): string {
    if name == "" then ""
    else if IsSeparator(name[0]) then
      if |name| > 1 && IsSeparator(name[1]) then Normalize(name[1..]) else "-" + Normalize(name[1..])
    else [LowerChar(name[0])] + Normalize(name[1..])
  }

  /** The lower-cased words between separator runs, the Normalized Names reading of PEP 503.
      A leading or trailing run leaves an empty word at that end. */
  function Words(name: string): (ws: seq<string>)
    ensures ws != []
  {
    if name == "" then [""]
    else
      var ws := Words(name[1..]);
      if !IsSeparator(name[0]) then [[LowerChar(name[0])] + ws[0]] + ws[1..]
      else if |name| > 1 && IsSeparator(name[1]) then ws
      else [""] + ws
  }

  function JoinDashes(ws: seq<string>): string
    requires ws != []
  {
    if |ws| == 1 then ws[0] else ws[0] + "-" + JoinDashes(ws[1..])
  }

  ghost predicate PlainWords(ws: seq<string>) {
    forall w, c :: w in ws && c in w ==> !IsSeparator(c) && LowerChar(c) == c
  }

  lemma {:induction false} WordsArePlain(name: string)
    ensures PlainWords(Words(name))
    decreases |name|
  {
    if name != "" {
      WordsArePlain(name[1..]);
      var ws := Words(name[1..]);
      assert ws == [ws[0]] + ws[1..];
      assert !IsSeparator(name[0]) ==> LowerChar(LowerChar(name[0])) == LowerChar(name[0]) && !IsSeparator(LowerChar(name[0]));
    }
  }

  lemma {:induction false} NormalizeJoinsWords(name: string)
    ensures Normalize(name) == JoinDashes(Words(name))
    decreases |name|
  {
    if name != "" {
      NormalizeJoinsWords(name[1..]);
      var ws := Words(name[1..]);
      if !IsSeparator(name[0]) {
        var first := [LowerChar(name[0])] + ws[0];
        var all := [first] + ws[1..];
        if |ws| > 1 {
          assert all[1..] == ws[1..];
          assert first + "-" + JoinDashes(ws[1..]) == [LowerChar(name[0])] + (ws[0] + "-" + JoinDashes(ws[1..]));
        }
      } else if |name| == 1 || !IsSeparator(name[1]) {
        assert ([""] + ws)[1..] == ws;
        assert "" + "-" + JoinDashes(ws) == "-" + JoinDashes(ws);
      }
    }
  }

  lemma {:induction false} NormalizeKeepsWords(name: string)
    ensures Words(Normalize(name)) == Words(name)
    ensures Normalize(name) == "" <==> name == ""
    ensures name != "" ==> (IsSeparator(Normalize(name)[0]) <==> IsSeparator(name[0]))
    decreases |name|
  {
    if name != "" {
      NormalizeKeepsWords(name[1..]);
      assert !IsSeparator(name[0]) ==> !IsSeparator(LowerChar(name[0]));
      assert Normalize(name)[1..] == Normalize(name[1..]) || (IsSeparator(name[0]) && |name| > 1 && IsSeparator(name[1]));
    }
  }

  /** Two spellings normalise alike exactly when PEP 503 calls them the same name, and
      normalising twice changes nothing. */
  lemma NormalizeDecidesSameName(a: string, b: string)
    ensures Normalize(a) == Normalize(b) <==> Words(a) == Words(b)
    ensures Normalize(Normalize(a)) == Normalize(a)
  {
    NormalizeKeepsWords(a);
    NormalizeKeepsWords(b);
    NormalizeJoinsWords(a);
    NormalizeJoinsWords(b);
    NormalizeJoinsWords(Normalize(a));
  }

  /** Lower case, and no separator but single dashes. */
  predicate CanonicalName(n: string) {
    && (forall i :: 0 <= i < |n| ==> LowerChar(n[i]) == n[i] && (IsSeparator(n[i]) ==> n[i] == '-'))
    && forall i :: 0 <= i < |n| - 1 ==> n[i] != '-' || n[i + 1] != '-'
  }

  /** The normal form is canonical, and of a canonical name it is the name itself. */
  lemma {:induction false} NormalizeIsCanonical(name: string)
    ensures CanonicalName(Normalize(name))
    ensures CanonicalName(name) ==> Normalize(name) == name
    decreases |name|
  {
    if name != "" {
      NormalizeIsCanonical(name[1..]);
      NormalizeKeepsWords(name[1..]);
      assert name == [name[0]] + name[1..];
      if CanonicalName(name) {
        CanonicalTail(name);
      }
      CanonicalFront(if IsSeparator(name[0]) then '-' else LowerChar(name[0]), Normalize(name[1..]));
    }
  }

  lemma CanonicalTail(name: string)
    requires name != "" && CanonicalName(name)
    ensures CanonicalName(name[1..])
    ensures IsSeparator(name[0]) ==> name[0] == '-' && (|name| > 1 ==> !IsSeparator(name[1]))
  {
  }

  lemma CanonicalFront(c: char, n: string)
    requires CanonicalName(n) && LowerChar(c) == c && (IsSeparator(c) ==> c == '-')
    ensures (c == '-' ==> n == "" || n[0] != '-') ==> CanonicalName([c] + n)
  {
  }

  /** Spellings PEP 503 does not tell apart: a letter in either case, one separator for another,
      and one separator for two. */
  predicate Respells(x: string, y: string) {
    || (|x| == |y| == 1 && 'A' <= x[0] <= 'Z' && y[0] as int == x[0] as int + ('a' as int - 'A' as int))
    || (|x| == |y| == 1 && IsSeparator(x[0]) && IsSeparator(y[0]))
    || (|x| == 2 && |y| == 1 && IsSeparator(x[0]) && IsSeparator(x[1]) && IsSeparator(y[0]))
  }

  lemma {:induction false} RespellingKeepsName(u: string, x: string, y: string, v: string)
    requires Respells(x, y)
    ensures Normalize(u + (x + v)) == Normalize(u + (y + v))
    decreases |u|
  {
    if u == "" {
      RespelledFront(x, y, v);
      assert u + (x + v) == x + v && u + (y + v) == y + v;
    } else {
      RespellingKeepsName(u[1..], x, y, v);
      RespelledStart(u[1..], x, y, v);
      NormalizeBehind(u[0], u[1..] + (x + v), u[1..] + (y + v));
      SplitFirst(u, x + v);
      SplitFirst(u, y + v);
    }
  }

  lemma SplitFirst(u: string, t: string)
    requires u != ""
    ensures u + t == [u[0]] + (u[1..] + t)
  {
  }

  lemma RespelledStart(u: string, x: string, y: string, v: string)
    requires Respells(x, y)
    ensures IsSeparator((u + (x + v))[0]) <==> IsSeparator((u + (y + v))[0])
  {
  }

  lemma NormalizeBehind(c: char, s: string, t: string)
    requires s != "" && t != "" && (IsSeparator(s[0]) <==> IsSeparator(t[0])) && Normalize(s) == Normalize(t)
    ensures Normalize([c] + s) == Normalize([c] + t)
  {
    assert ([c] + s)[1..] == s && ([c] + t)[1..] == t;
  }

  lemma RespelledFront(x: string, y: string, v: string)
    requires Respells(x, y)
    ensures Normalize(x + v) == Normalize(y + v)
  {
    assert (y + v)[1..] == v;
    if |x| == 1 {
      assert (x + v)[1..] == v;
    } else {
      var rest := x[1..] + v;
      assert (x + v)[1..] == rest && rest[1..] == v;
    }
  }

  // ------------------------------------------------------------------------- the patterns

  /** What follows the optional build tag: `-(.+?)-(.+?)-(.+)\.whl$` */
  function WheelTags(): Pattern {
    One(Exactly('-'), Plus(Dot, false, One(Exactly('-'), Plus(Dot, false, One(Exactly('-'), Plus(Dot, true, Finish(".whl")))))))
  }

  /** After the version: `(?:-[^-]+)?` and the tags. */
  function WheelTail(): Pattern {
    Either(One(Exactly('-'), Plus(NotDash, true, WheelTags())), WheelTags())
  }

  function WheelVersionOn(): Pattern {
    Open("2", Plus(WheelVersion, false, Close("2", WheelTail())))
  }

  /** `^(.+?)-([\w!<>.+]+?)(?:-[^-]+)?-(.+?)-(.+?)-(.+)\.whl$` */
  function WheelPattern(): Pattern {
    Open("1", Plus(Dot, false, Close("1", One(Exactly('-'), WheelVersionOn()))))
  }

  /** `\.(tar\.gz|tar\.bz2|tar\.xz|zip)$`, the dot written into each alternative. */
  function SdistExtensions(): Pattern {
    Either(Finish(".tar.gz"), Either(Finish(".tar.bz2"), Either(Finish(".tar.xz"), Finish(".zip"))))
  }

  /** `^(.+?)-([\d!<>.]+?)\.(tar\.gz|tar\.bz2|tar\.xz|zip)$` */
  function SdistPattern(): Pattern {
    Open("1", Plus(Dot, false, Close("1", One(Exactly('-'),
      Open("2", Plus(SdistVersion, false, Close("2", SdistExtensions())))))))
  }

  const PACKAGE_EXTENSIONS := [".whl", ".tar.gz", ".tar.bz2", ".tar.xz", ".zip", ".egg"]

  predicate HasPackageExtension(f: string) {
    exists e :: e in PACKAGE_EXTENSIONS && HasSuffix(f, e)
  }

  /** The match both `_parse_name` and `_extract_version` read: wheel first, then sdist. */
  function NameMatch(f: string): Option<map<string, string>> {
    var wheel := Match(WheelPattern(), f);
    if wheel.Some? then wheel else Match(SdistPattern(), f)
  }

  /** `_parse_name` */
  function ParseName(f: string): Option<string> {
    match NameMatch(f)
    case None => None
    case Some(m) => Some(Normalize(GroupOr(m, "1", "")))
  }

  /** `_extract_version` on a name one of the patterns matches. */
  function ExtractVersion(f: string): Option<string> {
    match NameMatch(f)
    case None => None
    case Some(m) => Some(GroupOr(m, "2", ""))
  }

  // ------------------------------------------------------------- a parsable name's extension

  /** The scan and the event handler filter on extension and parse separately. A parsable name
      passes the filter exactly when it does not end in a newline, which `$` lets through. */
  lemma ParsableHasExtensionUnlessNewline(f: string)
    requires ParseName(f).Some?
    ensures HasPackageExtension(f) <==> !HasSuffix(f, "\n")
  {
    var t := ParsableTail(f);
    assert t in PACKAGE_EXTENSIONS;
    if HasSuffix(f, t) {
      LastChar(f, t);
    } else {
      LastChar(f, t + "\n");
    }
    if e :| e in PACKAGE_EXTENSIONS && HasSuffix(f, e) {
      LastChar(f, e);
    }
    if HasSuffix(f, "\n") {
      LastChar(f, "\n");
    }
  }

  /** Every parsable name has a twin that parses as well and escapes the filter. */
  lemma NewlineEscapesTheFilter(f: string)
    requires ParseName(f).Some? && !EndsInNewline(f)
    ensures ParseName(f + "\n").Some? && !HasPackageExtension(f + "\n")
  {
    var p := if Try(WheelPattern(), f).Some? then WheelPattern() else SdistPattern();
    TryFindsExactlyTheMatches(p, f);
    NewlineAccepted(p, f);
    TryFindsExactlyTheMatches(p, f + "\n");
    ParsableHasExtensionUnlessNewline(f + "\n");
  }

  lemma LastChar(f: string, t: string)
    requires HasSuffix(f, t) && t != ""
    ensures f != "" && f[|f| - 1] == t[|t| - 1]
    ensures t[|t| - 1] == '\n' ==> HasSuffix(f, "\n")
  {
    assert f[|f| - |t|..][|t| - 1] == t[|t| - 1];
    assert f[|f| - 1..] == [f[|f| - 1]];
  }

  ghost const TAILS := {".whl", ".tar.gz", ".tar.bz2", ".tar.xz", ".zip"}

  lemma PatternTails()
    ensures EndsIn(WheelPattern(), TAILS)
    ensures EndsIn(SdistPattern(), TAILS)
  {
    TagsEnd();
    WheelEndsIn();
    SdistEndsIn();
  }

  lemma WheelEndsIn()
    requires EndsIn(WheelTags(), TAILS)
    ensures EndsIn(WheelPattern(), TAILS)
  {
    assert EndsIn(WheelTail(), TAILS);
    assert EndsIn(WheelVersionOn(), TAILS);
  }

  lemma SdistEndsIn()
    ensures EndsIn(SdistPattern(), TAILS)
  {
    assert EndsIn(SdistExtensions(), TAILS);
    assert EndsIn(SdistVersionOn(), TAILS);
  }

  lemma TagsEnd()
    ensures EndsIn(WheelTags(), TAILS)
  {
  }

  lemma ParsableTail(f: string) returns (t: string)
    requires ParseName(f).Some?
    ensures t in TAILS && (HasSuffix(f, t) || HasSuffix(f, t + "\n"))
  {
    PatternTails();
    if Try(WheelPattern(), f).Some? {
      TryFindsExactlyTheMatches(WheelPattern(), f);
      t := AcceptedSuffix(WheelPattern(), TAILS, f);
    } else {
      TryFindsExactlyTheMatches(SdistPattern(), f);
      t := AcceptedSuffix(SdistPattern(), TAILS, f);
    }
  }

  // ------------------------------------------------------------------ wheel names, round trip

  /** The components of a wheel filename (File name convention, PEP 427). */
  datatype Wheel = Wheel(distribution: string, version: string, build: Option<string>, python: string, abi: string, platform: string)

  function TagsText(w: Wheel): string {
    "-" + (w.python + ("-" + (w.abi + ("-" + (w.platform + ".whl")))))
  }

  function TailText(w: Wheel): string {
    match w.build
    case None => TagsText(w)
    case Some(b) => "-" + (b + TagsText(w))
  }

  function WheelFilename(w: Wheel): string {
    w.distribution + ("-" + (w.version + TailText(w)))
  }

  predicate Component(c: string) {
    c != "" && '-' !in c && '\n' !in c
  }

  /** Letters, digits and the punctuation the wheel pattern allows in a version. */
  predicate WheelVersionText(v: string) {
    v != "" && forall c :: c in v ==> 'a' <= c <= 'z' || 'A' <= c <= 'Z' || '0' <= c <= '9' || c in "_!<>.+"
  }

  /** Digits and the punctuation the sdist pattern allows in a version. */
  predicate SdistVersionText(v: string) {
    v != "" && forall c :: c in v ==> '0' <= c <= '9' || c in "!<>."
  }

  lemma VersionClasses(v: string)
    ensures WheelVersionText(v) <==> v != "" && AllIn(v, WheelVersion)
    ensures SdistVersionText(v) <==> v != "" && AllIn(v, SdistVersion)
  {
    forall c
      ensures In(c, WheelVersion) <==> 'a' <= c <= 'z' || 'A' <= c <= 'Z' || '0' <= c <= '9' || c in "_!<>.+"
      ensures In(c, SdistVersion) <==> '0' <= c <= '9' || c in "!<>."
    {
    }
  }

  predicate WellFormedWheel(w: Wheel) {
    && Component(w.distribution) && WheelVersionText(w.version)
    && Component(w.python) && Component(w.abi) && Component(w.platform)
    && (w.build.Some? ==> w.build.value != "" && '-' !in w.build.value)
  }

  lemma DashAccepts(rest: Pattern, t: string)
    requires Accepts(rest, t)
    ensures Accepts(One(Exactly('-'), rest), "-" + t)
  {
    assert ("-" + t)[1..] == t;
  }

  /** All the pattern asks of the parts: dashes may stand in any but the version and the build. */
  predicate WheelShaped(w: Wheel) {
    && w.distribution != "" && AllIn(w.distribution, Dot) && WheelVersionText(w.version)
    && w.python != "" && AllIn(w.python, Dot) && w.abi != "" && AllIn(w.abi, Dot)
    && w.platform != "" && AllIn(w.platform, Dot)
    && (w.build.Some? ==> w.build.value != "" && AllIn(w.build.value, NotDash))
  }

  lemma TagsMatch(w: Wheel)
    requires WheelShaped(w)
    ensures Accepts(WheelTags(), TagsText(w))
  {
    var platform := Plus(Dot, true, Finish(".whl"));
    PlusAccepts(Dot, true, Finish(".whl"), w.platform, ".whl");
    DashAccepts(platform, w.platform + ".whl");
    var abi := Plus(Dot, false, One(Exactly('-'), platform));
    PlusAccepts(Dot, false, One(Exactly('-'), platform), w.abi, "-" + (w.platform + ".whl"));
    DashAccepts(abi, w.abi + ("-" + (w.platform + ".whl")));
    PlusAccepts(Dot, false, One(Exactly('-'), abi), w.python, "-" + (w.abi + ("-" + (w.platform + ".whl"))));
    DashAccepts(Plus(Dot, false, One(Exactly('-'), abi)), w.python + ("-" + (w.abi + ("-" + (w.platform + ".whl")))));
  }

  lemma TailAccepted(w: Wheel)
    requires WheelShaped(w)
    ensures Accepts(WheelTail(), TailText(w))
  {
    TagsMatch(w);
    if w.build.Some? {
      PlusAccepts(NotDash, true, WheelTags(), w.build.value, TagsText(w));
      DashAccepts(Plus(NotDash, true, WheelTags()), w.build.value + TagsText(w));
    }
  }

  lemma TailMatches(w: Wheel)
    requires WellFormedWheel(w)
    ensures Try(WheelTail(), TailText(w)) == Some(map[])
  {
    TailAccepted(w);
    TryFindsExactlyTheMatches(WheelTail(), TailText(w));
    WithoutGroups(WheelTail(), TailText(w));
  }

  function VersionSpan(w: Wheel): Span {
    Span(|w.version + TailText(w)|, |TailText(w)|)
  }

  lemma VersionPart(w: Wheel)
    requires WellFormedWheel(w)
    ensures Try(WheelVersionOn(), w.version + TailText(w)) == Some(map["2" := VersionSpan(w)])
  {
    var tail := TailText(w);
    var afterVersion := Close("2", WheelTail());
    TailMatches(w);
    VersionClasses(w.version);
    var m: Groups := map["2" := Span(|tail|, |tail|)];
    assert Try(afterVersion, tail) == Some(m);
    PlusToSeparator(WheelVersion, false, afterVersion, '-', w.version, tail);
    assert m["2" := VersionSpan(w)] == map["2" := VersionSpan(w)];
  }

  lemma NamePart(w: Wheel)
    requires WellFormedWheel(w)
    ensures Try(WheelPattern(), WheelFilename(w))
         == Some(map["1" := Span(|WheelFilename(w)|, |WheelFilename(w)| - |w.distribution|), "2" := VersionSpan(w)])
  {
    var f := WheelFilename(w);
    var fromDash := "-" + (w.version + TailText(w));
    var afterName := Close("1", One(Exactly('-'), WheelVersionOn()));
    VersionPart(w);
    assert fromDash[1..] == w.version + TailText(w);
    var m: Groups := map["2" := VersionSpan(w), "1" := Span(|fromDash|, |fromDash|)];
    assert Try(afterName, fromDash) == Some(m);
    PlusToSeparator(Dot, false, afterName, '-', w.distribution, fromDash);
    assert m["1" := Span(|f|, |fromDash|)] == map["1" := Span(|f|, |fromDash|), "2" := VersionSpan(w)];
  }

  lemma WheelTexts(w: Wheel)
    requires WellFormedWheel(w)
    ensures Match(WheelPattern(), WheelFilename(w)).Some?
    ensures var m := Match(WheelPattern(), WheelFilename(w)).value;
      "1" in m && m["1"] == w.distribution && "2" in m && m["2"] == w.version
  {
    NamePart(w);
    WheelSlices(w);
  }

  lemma WheelSlices(w: Wheel)
    ensures WheelFilename(w)[0..|w.distribution|] == w.distribution
    ensures var f, v := WheelFilename(w), VersionSpan(w);
      v.end <= v.start <= |f| && f[|f| - v.start..|f| - v.end] == w.version
  {
    var f := WheelFilename(w);
    assert f == (w.distribution + "-") + w.version + TailText(w);
    SliceMiddle(f, w.distribution + "-", w.version, TailText(w));
  }

  /** Parsing a printed wheel name gives back its normalised distribution and its version,
      with or without a build tag. */
  lemma WheelRoundTrip(w: Wheel)
    requires WellFormedWheel(w)
    ensures ParseName(WheelFilename(w)) == Some(Normalize(w.distribution))
    ensures ExtractVersion(WheelFilename(w)) == Some(w.version)
    ensures HasPackageExtension(WheelFilename(w))
  {
    WheelTexts(w);
    WheelSuffix(w);
  }

  lemma SuffixAppend(a: string, t: string, suffix: string)
    requires HasSuffix(t, suffix)
    ensures HasSuffix(a + t, suffix)
  {
  }

  lemma WheelSuffix(w: Wheel)
    ensures HasSuffix(WheelFilename(w), ".whl")
  {
    var fromPlatform := "-" + (w.platform + ".whl");
    var fromAbi := "-" + (w.abi + fromPlatform);
    SuffixAppend(w.platform, ".whl", ".whl");
    SuffixAppend("-", w.platform + ".whl", ".whl");
    SuffixAppend(w.abi, fromPlatform, ".whl");
    SuffixAppend("-", w.abi + fromPlatform, ".whl");
    SuffixAppend(w.python, fromAbi, ".whl");
    SuffixAppend("-", w.python + fromAbi, ".whl");
    if w.build.Some? {
      SuffixAppend(w.build.value, TagsText(w), ".whl");
      SuffixAppend("-", w.build.value + TagsText(w), ".whl");
    }
    SuffixAppend(w.version, TailText(w), ".whl");
    SuffixAppend("-", w.version + TailText(w), ".whl");
    SuffixAppend(w.distribution, "-" + (w.version + TailText(w)), ".whl");
  }

  // ------------------------------------------------------------------ sdist names, round trip

  /** The components of a source archive's name; the distribution may hold dashes. */
  datatype Sdist = Sdist(distribution: string, version: string, extension: string)

  const SDIST_EXTENSIONS := [".tar.gz", ".tar.bz2", ".tar.xz", ".zip"]

  function VersionOn(d: Sdist): string {
    d.version + d.extension
  }

  function SdistFilename(d: Sdist): string {
    d.distribution + ("-" + VersionOn(d))
  }

  predicate WellFormedSdist(d: Sdist) {
    && d.distribution != "" && '\n' !in d.distribution
    && SdistVersionText(d.version) && d.extension in SDIST_EXTENSIONS
  }

  function AfterSdistVersion(): Pattern {
    Close("2", SdistExtensions())
  }

  function SdistVersionOn(): Pattern {
    Open("2", Plus(SdistVersion, false, AfterSdistVersion()))
  }

  function AfterSdistName(): Pattern {
    Close("1", One(Exactly('-'), SdistVersionOn()))
  }

  lemma FinishReads(t: string, s: string)
    requires |t| > 1 && IsLower(t[1])
    ensures Try(Finish(t), s).Some? ==> |s| > 1 && IsLower(s[1])
    ensures s == t ==> Try(Finish(t), s) == Some(map[])
  {
  }

  lemma EitherReads(a: Pattern, b: Pattern, s: string)
    ensures Try(Either(a, b), s) == OrElse(Try(a, s), Try(b, s))
  {
  }

  lemma ExtensionsRead(s: string)
    ensures Try(SdistExtensions(), s).Some? ==> |s| > 1 && IsLower(s[1])
    ensures s in SDIST_EXTENSIONS ==> Try(SdistExtensions(), s) == Some(map[])
  {
    FinishReads(".tar.gz", s);
    FinishReads(".tar.bz2", s);
    FinishReads(".tar.xz", s);
    FinishReads(".zip", s);
    var last := Either(Finish(".tar.xz"), Finish(".zip"));
    var others := Either(Finish(".tar.bz2"), last);
    EitherReads(Finish(".tar.xz"), Finish(".zip"), s);
    EitherReads(Finish(".tar.bz2"), last, s);
    EitherReads(Finish(".tar.gz"), others, s);
    WithoutGroups(SdistExtensions(), s);
  }

  lemma NoExtensionYet(v: string, e: string)
    requires v != "" && AllIn(v, SdistVersion) && e in SDIST_EXTENSIONS
    ensures Try(AfterSdistVersion(), v + e).None?
  {
    ExtensionsRead(v + e);
    assert (v + e)[1] == if |v| > 1 then v[1] else e[0];
    assert |v| > 1 ==> v[1] in v;
  }

  lemma SdistVersionPart(d: Sdist)
    requires WellFormedSdist(d)
    ensures Try(SdistVersionOn(), VersionOn(d)) == Some(map["2" := Span(|VersionOn(d)|, |d.extension|)])
  {
    var e := d.extension;
    ExtensionsRead(e);
    VersionClasses(d.version);
    var m: Groups := map["2" := Span(|e|, |e|)];
    assert Try(AfterSdistVersion(), e) == Some(m);
    forall n | 1 <= n < |d.version| ensures Try(AfterSdistVersion(), d.version[n..] + e).None? {
      NoExtensionYet(d.version[n..], e);
    }
    LazyPlus(SdistVersion, AfterSdistVersion(), d.version, e);
    assert m["2" := Span(|VersionOn(d)|, |e|)] == map["2" := Span(|VersionOn(d)|, |e|)];
  }

  function NoDash(): char -> bool {
    (c: char) => c != '-'
  }

  lemma SdistWithin()
    ensures Within(SdistVersionOn(), NoDash())
  {
    assert Within(SdistExtensions(), NoDash());
  }

  lemma DashInside(s: string)
    requires Accepts(SdistVersionOn(), s)
    ensures '-' !in s
  {
    SdistWithin();
    MatchCharacters(SdistVersionOn(), s, NoDash());
  }

  /** An earlier dash of the distribution cannot be the one before the version. */
  lemma NoVersionYet(a: string, d: Sdist)
    requires a != ""
    ensures Try(AfterSdistName(), a + ("-" + VersionOn(d))).None?
  {
    var s := a + ("-" + VersionOn(d));
    if Try(AfterSdistName(), s).Some? {
      assert Try(One(Exactly('-'), SdistVersionOn()), s).Some?;
      TryFindsExactlyTheMatches(SdistVersionOn(), s[1..]);
      assert s[1..][|a| - 1] == '-';
      DashInside(s[1..]);
    }
  }

  lemma SdistNamePart(d: Sdist)
    requires WellFormedSdist(d)
    ensures Try(SdistPattern(), SdistFilename(d))
         == Some(map["1" := Span(|SdistFilename(d)|, |SdistFilename(d)| - |d.distribution|), "2" := Span(|VersionOn(d)|, |d.extension|)])
  {
    var f, fromDash := SdistFilename(d), "-" + VersionOn(d);
    SdistVersionPart(d);
    assert fromDash[1..] == VersionOn(d);
    var m: Groups := map["2" := Span(|VersionOn(d)|, |d.extension|), "1" := Span(|fromDash|, |fromDash|)];
    assert Try(AfterSdistName(), fromDash) == Some(m);
    forall n | 1 <= n < |d.distribution| ensures Try(AfterSdistName(), d.distribution[n..] + fromDash).None? {
      NoVersionYet(d.distribution[n..], d);
    }
    LazyPlus(Dot, AfterSdistName(), d.distribution, fromDash);
    OpenAround("1", Plus(Dot, false, AfterSdistName()), f, m);
    assert m["1" := Span(|f|, |fromDash|)] == map["1" := Span(|f|, |fromDash|), "2" := Span(|VersionOn(d)|, |d.extension|)];
  }

  lemma SdistTexts(d: Sdist)
    requires WellFormedSdist(d)
    ensures Match(SdistPattern(), SdistFilename(d)).Some?
    ensures var m := Match(SdistPattern(), SdistFilename(d)).value;
      "1" in m && m["1"] == d.distribution && "2" in m && m["2"] == d.version
  {
    SdistNamePart(d);
    var f := SdistFilename(d);
    assert f[0..|d.distribution|] == d.distribution;
    assert f == (d.distribution + "-") + d.version + d.extension;
    SliceMiddle(f, d.distribution + "-", d.version, d.extension);
  }

  lemma SdistSuffix(d: Sdist)
    ensures HasSuffix(SdistFilename(d), d.extension)
  {
    var e := d.extension;
    SuffixAppend(d.version, e, e);
    SuffixAppend("-", VersionOn(d), e);
    SuffixAppend(d.distribution, "-" + VersionOn(d), e);
  }

  lemma WheelEnds(f: string)
    requires Match(WheelPattern(), f).Some?
    ensures f != "" && f[|f| - 1] in "l\n"
  {
    WheelTails();
    TryFindsExactlyTheMatches(WheelPattern(), f);
    var t := AcceptedSuffix(WheelPattern(), WHEEL_TAIL, f);
    LastChar(f, if HasSuffix(f, t) then t else t + "\n");
  }

  ghost const WHEEL_TAIL := {".whl"}

  lemma WheelTails()
    ensures EndsIn(WheelPattern(), WHEEL_TAIL)
  {
    assert EndsIn(WheelTags(), WHEEL_TAIL);
    assert EndsIn(WheelTail(), WHEEL_TAIL);
  }

  lemma SdistIsNoWheel(d: Sdist)
    requires WellFormedSdist(d)
    ensures Match(WheelPattern(), SdistFilename(d)).None?
  {
    SdistSuffix(d);
    LastChar(SdistFilename(d), d.extension);
    if Match(WheelPattern(), SdistFilename(d)).Some? {
      WheelEnds(SdistFilename(d));
    }
  }

  /** Parsing a printed sdist name gives back its normalised distribution, dashes and all, and its
      version. */
  lemma SdistRoundTrip(d: Sdist)
    requires WellFormedSdist(d)
    ensures ParseName(SdistFilename(d)) == Some(Normalize(d.distribution))
    ensures ExtractVersion(SdistFilename(d)) == Some(d.version)
    ensures HasPackageExtension(SdistFilename(d))
  {
    SdistTexts(d);
    SdistIsNoWheel(d);
    SdistSuffix(d);
    assert d.extension in PACKAGE_EXTENSIONS;
  }

  // -------------------------------------------------------------- exactly which names parse

  lemma WheelAccepted(w: Wheel)
    requires WheelShaped(w)
    ensures Accepts(WheelPattern(), WheelFilename(w))
  {
    TailAccepted(w);
    VersionClasses(w.version);
    PlusAccepts(WheelVersion, false, Close("2", WheelTail()), w.version, TailText(w));
    DashAccepts(WheelVersionOn(), w.version + TailText(w));
    PlusAccepts(Dot, false, Close("1", One(Exactly('-'), WheelVersionOn())), w.distribution, "-" + (w.version + TailText(w)));
  }

  lemma SdistAccepted(d: Sdist)
    requires WellFormedSdist(d)
    ensures Accepts(SdistPattern(), SdistFilename(d))
  {
    SdistNamePart(d);
    TryFindsExactlyTheMatches(SdistPattern(), SdistFilename(d));
  }

  function LineEnd(newline: bool): string {
    if newline then "\n" else ""
  }

  lemma AcceptedTags(s: string) returns (w: Wheel, newline: bool)
    requires Accepts(WheelTags(), s)
    ensures w.python != "" && AllIn(w.python, Dot) && w.abi != "" && AllIn(w.abi, Dot)
    ensures w.platform != "" && AllIn(w.platform, Dot) && s == TagsText(w) + LineEnd(newline)
  {
    var platform := Plus(Dot, true, Finish(".whl"));
    var abi := Plus(Dot, false, One(Exactly('-'), platform));
    var a, t := PlusParts(Dot, false, One(Exactly('-'), abi), s[1..]);
    var b, u := PlusParts(Dot, false, One(Exactly('-'), platform), t[1..]);
    var c, v := PlusParts(Dot, true, Finish(".whl"), u[1..]);
    newline := v != ".whl";
    w := Wheel("", "", None, a, b, c);
    assert v == ".whl" + LineEnd(newline);
    assert s == "-" + s[1..] && t == "-" + t[1..] && u == "-" + u[1..];
  }

  lemma AcceptedTail(s: string) returns (w: Wheel, newline: bool)
    requires Accepts(WheelTail(), s)
    ensures w.python != "" && AllIn(w.python, Dot) && w.abi != "" && AllIn(w.abi, Dot)
    ensures w.platform != "" && AllIn(w.platform, Dot) && s == TailText(w) + LineEnd(newline)
    ensures w.build.Some? ==> w.build.value != "" && AllIn(w.build.value, NotDash)
  {
    if Accepts(WheelTags(), s) {
      w, newline := AcceptedTags(s);
      w := w.(build := None);
    } else {
      var build, t := PlusParts(NotDash, true, WheelTags(), s[1..]);
      w, newline := AcceptedTags(t);
      w := w.(build := Some(build));
      assert s == "-" + s[1..];
    }
  }

  lemma DashOff(group: string, rest: Pattern, t: string)
    requires Accepts(Close(group, One(Exactly('-'), rest)), t)
    ensures t != "" && t == "-" + t[1..] && Accepts(rest, t[1..])
  {
    assert Accepts(One(Exactly('-'), rest), t);
  }

  lemma AcceptedWheelVersion(s: string) returns (version: string, u: string)
    requires Accepts(WheelVersionOn(), s)
    ensures s == version + u && WheelVersionText(version) && Accepts(WheelTail(), u)
  {
    var tail := Close("2", WheelTail());
    assert Accepts(Plus(WheelVersion, false, tail), s);
    version, u := PlusParts(WheelVersion, false, tail, s);
    VersionClasses(version);
  }

  lemma AcceptedWheel(f: string) returns (w: Wheel)
    requires Accepts(WheelPattern(), f)
    ensures WheelShaped(w) && FinishesWith(f, WheelFilename(w))
  {
    var name, t := PlusParts(Dot, false, Close("1", One(Exactly('-'), WheelVersionOn())), f);
    DashOff("1", WheelVersionOn(), t);
    var version, u := AcceptedWheelVersion(t[1..]);
    var tail, newline := AcceptedTail(u);
    w := tail.(distribution := name, version := version);
    assert TailText(tail) == TailText(w);
    WheelFromParts(w, LineEnd(newline), f, t, u);
  }

  lemma WheelFromParts(w: Wheel, end: string, f: string, t: string, u: string)
    requires f == w.distribution + t && t == "-" + (w.version + u) && u == TailText(w) + end
    ensures f == WheelFilename(w) + end
  {
  }

  lemma AcceptedExtension(s: string) returns (e: string)
    requires Accepts(SdistExtensions(), s)
    ensures e in SDIST_EXTENSIONS && FinishesWith(s, e)
  {
    var last := Either(Finish(".tar.xz"), Finish(".zip"));
    var others := Either(Finish(".tar.bz2"), last);
    assert Accepts(Finish(".tar.gz"), s) || Accepts(others, s);
    assert Accepts(others, s) ==> Accepts(Finish(".tar.bz2"), s) || Accepts(last, s);
    assert Accepts(last, s) ==> Accepts(Finish(".tar.xz"), s) || Accepts(Finish(".zip"), s);
    e := if FinishesWith(s, ".tar.gz") then ".tar.gz" else if FinishesWith(s, ".tar.bz2") then ".tar.bz2"
         else if FinishesWith(s, ".tar.xz") then ".tar.xz" else ".zip";
  }

  lemma AcceptedSdistVersion(s: string) returns (version: string, e: string, end: string)
    requires Accepts(SdistVersionOn(), s)
    ensures s == version + (e + end) && SdistVersionText(version)
    ensures e in SDIST_EXTENSIONS && (end == "" || end == "\n")
  {
    assert Accepts(Plus(SdistVersion, false, AfterSdistVersion()), s);
    var u;
    version, u := PlusParts(SdistVersion, false, AfterSdistVersion(), s);
    VersionClasses(version);
    e := AcceptedExtension(u);
    end := LineEnd(u != e);
    assert u == e + end;
  }

  lemma AcceptedSdist(f: string) returns (d: Sdist)
    requires Accepts(SdistPattern(), f)
    ensures WellFormedSdist(d) && FinishesWith(f, SdistFilename(d))
  {
    var name, t := PlusParts(Dot, false, AfterSdistName(), f);
    DashOff("1", SdistVersionOn(), t);
    var version, e, end := AcceptedSdistVersion(t[1..]);
    d := Sdist(name, version, e);
    assert f == SdistFilename(d) + end;
  }

  /** The names that parse are those of the two forms, and the newline that `$` lets through: any
      distribution and tags, but an sdist's version is digits and `!<>.` only. */
  lemma ParsableNames(f: string)
    ensures ParseName(f).Some? <==>
      || (exists w :: WheelShaped(w) && FinishesWith(f, WheelFilename(w)))
      || (exists d :: WellFormedSdist(d) && FinishesWith(f, SdistFilename(d)))
  {
    TryFindsExactlyTheMatches(WheelPattern(), f);
    TryFindsExactlyTheMatches(SdistPattern(), f);
    if Accepts(WheelPattern(), f) {
      var w := AcceptedWheel(f);
    } else if Accepts(SdistPattern(), f) {
      var d := AcceptedSdist(f);
    }
    if w :| WheelShaped(w) && FinishesWith(f, WheelFilename(w)) {
      ShapedWheel(w, f);
    }
    if d :| WellFormedSdist(d) && FinishesWith(f, SdistFilename(d)) {
      ShapedSdist(d, f);
    }
  }

  lemma ShapedWheel(w: Wheel, f: string)
    requires WheelShaped(w) && FinishesWith(f, WheelFilename(w))
    ensures Accepts(WheelPattern(), f)
  {
    WheelAccepted(w);
    WheelSuffix(w);
    AcceptedWithNewline(WheelPattern(), WheelFilename(w), ".whl", f);
  }

  lemma ShapedSdist(d: Sdist, f: string)
    requires WellFormedSdist(d) && FinishesWith(f, SdistFilename(d))
    ensures Accepts(SdistPattern(), f)
  {
    SdistAccepted(d);
    SdistSuffix(d);
    AcceptedWithNewline(SdistPattern(), SdistFilename(d), d.extension, f);
  }

  lemma AcceptedWithNewline(p: Pattern, s: string, e: string, f: string)
    requires Accepts(p, s) && HasSuffix(s, e) && e != "" && e[|e| - 1] != '\n' && FinishesWith(f, s)
    ensures Accepts(p, f)
  {
    LastChar(s, e);
    if f != s {
      NewlineAccepted(p, s);
    }
  }

  // ------------------------------------------------------------------- under which package

  /** `f` is the printed name of a wheel or an sdist whose distribution normalises to `k`. */
  ghost predicate PackageOf(f: string, k: string) {
    || (exists w :: WellFormedWheel(w) && f == WheelFilename(w) && k == Normalize(w.distribution))
    || (exists d :: WellFormedSdist(d) && f == SdistFilename(d) && k == Normalize(d.distribution))
  }

  lemma PackageOfParses(f: string, k: string)
    requires PackageOf(f, k)
    ensures ParseName(f) == Some(k) && k != "" && HasPackageExtension(f)
  {
    if w :| WellFormedWheel(w) && f == WheelFilename(w) && k == Normalize(w.distribution) {
      WheelRoundTrip(w);
      NormalizeKeepsWords(w.distribution);
    } else {
      var d :| WellFormedSdist(d) && f == SdistFilename(d) && k == Normalize(d.distribution);
      SdistRoundTrip(d);
      NormalizeKeepsWords(d.distribution);
    }
  }

  lemma GroupIsNotEmpty(g: string, cls: Class, rest: Pattern, s: string)
    requires Try(Open(g, Plus(cls, false, rest)), s).Some? && g in Try(Plus(cls, false, rest), s).value
    ensures var m := Try(Open(g, Plus(cls, false, rest)), s).value;
      g in m && m[g].start == |s| && m[g].end < |s|
  {
  }

  lemma NameGroup(p: Pattern, rest: Pattern, f: string)
    requires p == Open("1", Plus(Dot, false, Close("1", rest))) && Match(p, f).Some?
    ensures "1" in Match(p, f).value && Match(p, f).value["1"] != ""
  {
    var after := Close("1", rest);
    ClosesAnywhere(rest);
    ConsumedBeforeClose(Plus(Dot, false, after), f, "1", Anything());
    GroupIsNotEmpty("1", Dot, after, f);
  }

  function Anything(): char -> bool {
    (c: char) => true
  }

  lemma ClosesAnywhere(rest: Pattern)
    ensures ClosesWithin(Plus(Dot, false, Close("1", rest)), "1", Anything())
  {
    assert ClosesWithin(Close("1", rest), "1", Anything());
  }

  lemma ParsedNameIsNotEmpty(f: string)
    requires ParseName(f).Some?
    ensures ParseName(f).value != ""
  {
    if Match(WheelPattern(), f).Some? {
      NameGroup(WheelPattern(), One(Exactly('-'), WheelVersionOn()), f);
      NormalizeKeepsWords(Match(WheelPattern(), f).value["1"]);
    } else {
      NameGroup(SdistPattern(), One(Exactly('-'), SdistVersionOn()), f);
      NormalizeKeepsWords(Match(SdistPattern(), f).value["1"]);
    }
  }
}
