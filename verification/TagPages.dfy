/** Docker tag pagination (backend/routes/docker.py, lines 278-350): one page, and a client
    that follows `rel="next"` while the tag list changes between its requests. */
module TagPages {
  import opened Basics
  import opened Numerals
  import opened TextOrder

  // ---------------------------------------------------------------------------- the limit

  /** The white space `int()` ignores around a number (its ASCII part). */
  predicate IsSpace(c: char) { c in " \t\n\r" || 11 <= c as int <= 12 || 28 <= c as int <= 31 }

  function Strip(s: string): string {
    if s != "" && IsSpace(s[0]) then Strip(s[1..])
    else if s != "" && IsSpace(s[|s| - 1]) then Strip(s[..|s| - 1])
    else s
  }

  /** Digits, single underscores allowed between them. */
  function Magnitude(s: string): Option<nat> {
    if s == "" || !IsDigit(s[|s| - 1]) then None
    else
      var d := s[|s| - 1] as int - '0' as int;
      var front := s[..|s| - 1];
      if front == "" then Some(d)
      else
        match Magnitude(if front[|front| - 1] == '_' then front[..|front| - 1] else front)
        case None => None
        case Some(m) => Some(m * 10 + d)
  }

  /** `int(s)`, or None where it raises ValueError. */
  function PythonInt(s: string): Option<int> {
    var t := Strip(s);
    if t != "" && t[0] in "+-" then
      match Magnitude(t[1..])
      case None => None
      case Some(m) => var i: int := m; Some(if t[0] == '-' then -i else i)
    else
      match Magnitude(t)
      case None => None
      case Some(m) => Some(m)
  }

  /** `_tag_limit`: unparseable and negative both mean "no limit". */
  function TagLimit(value: Option<string>): Option<nat> {
    match value
    case None => None
    case Some(v) =>
      match PythonInt(v)
      case None => None
      case Some(n) => if n >= 0 then Some(n) else None
  }

  // ------------------------------------------------------------- what a limit parameter means

  /** Digits with single underscores between them. */
  predicate Grouped(s: string) {
    && s != "" && IsDigit(s[0]) && IsDigit(s[|s| - 1])
    && (forall i :: 0 <= i < |s| ==> IsDigit(s[i]) || s[i] == '_')
    && forall i :: 0 <= i < |s| - 1 ==> IsDigit(s[i]) || IsDigit(s[i + 1])
  }

  function Digits(s: string): string {
    if s == "" then "" else if s[|s| - 1] == '_' then Digits(s[..|s| - 1]) else Digits(s[..|s| - 1]) + [s[|s| - 1]]
  }

  lemma GroupedFront(s: string, t: string)
    requires |s| > 1 && IsDigit(s[|s| - 1])
    requires t == if s[|s| - 2] == '_' then s[..|s| - 2] else s[..|s| - 1]
    ensures Grouped(s) <==> Grouped(t)
    ensures Digits(s) == Digits(t) + [s[|s| - 1]]
  {
    var front := s[..|s| - 1];
    assert s[|s| - 2] == '_' ==> front[..|front| - 1] == t;
    assert forall i :: 0 <= i < |t| ==> s[i] == t[i];
  }

  lemma {:induction false} MagnitudeReads(s: string)
    ensures Magnitude(s) == if Grouped(s) then Some(ToInt(Digits(s))) else None
    decreases |s|
  {
    if |s| == 1 {
      assert s[..0] == "" && Digits("") == "" && "" + s == s;
    } else if s != "" && IsDigit(s[|s| - 1]) {
      var front := s[..|s| - 1];
      var t := if front[|front| - 1] == '_' then front[..|front| - 1] else front;
      assert t == if s[|s| - 2] == '_' then s[..|s| - 2] else front;
      GroupedFront(s, t);
      MagnitudeReads(t);
      var d := Digits(s);
      assert d[..|d| - 1] == Digits(t);
    }
  }
  predicate Blank(s: string) {
    forall c :: c in s ==> IsSpace(c)
  }

  lemma {:induction false} StripParts(s: string) returns (a: string, b: string)
    ensures Blank(a) && Blank(b) && s == a + (Strip(s) + b)
    decreases |s|
  {
    if s != "" && IsSpace(s[0]) {
      a, b := StripParts(s[1..]);
      a := [s[0]] + a;
      assert s == [s[0]] + s[1..];
    } else if s != "" && IsSpace(s[|s| - 1]) {
      a, b := StripParts(s[..|s| - 1]);
      b := b + [s[|s| - 1]];
      assert s == s[..|s| - 1] + [s[|s| - 1]];
    } else {
      a, b := "", "";
    }
  }

  lemma {:induction false} StripLeft(a: string, u: string)
    requires Blank(a)
    ensures Strip(a + u) == Strip(u)
    decreases |a|
  {
    var s := a + u;
    if a == "" {
      assert s == u;
    } else {
      assert s[1..] == a[1..] + u && s[0] == a[0] && a[0] in a;
      StripLeft(a[1..], u);
    }
  }

  lemma {:induction false} StripRight(t: string, b: string)
    requires Blank(b) && t != "" && !IsSpace(t[0])
    ensures Strip(t + b) == Strip(t)
    decreases |b|
  {
    var s := t + b;
    if b == "" {
      assert s == t;
    } else {
      var c := b[..|b| - 1];
      assert s[..|s| - 1] == t + c && s[|s| - 1] == b[|b| - 1] && b[|b| - 1] in b && s[0] == t[0];
      StripRight(t, c);
    }
  }

  /** White space, an optional sign, grouped digits, white space. */
  ghost predicate Denotes(v: string, n: int) {
    exists a, sign, body, b :: DenotesAs(v, n, a, sign, body, b)
  }

  predicate DenotesAs(v: string, n: int, a: string, sign: string, body: string, b: string) {
    && Blank(a) && Blank(b) && sign in ["", "+", "-"] && Grouped(body) && v == a + ((sign + body) + b)
    && n == Signed(sign, ToInt(Digits(body)))
  }

  function Signed(sign: string, m: int): int {
    if sign == "-" then -m else m
  }

  lemma PythonIntReads(v: string, n: int, a: string, sign: string, body: string, b: string)
    requires DenotesAs(v, n, a, sign, body, b)
    ensures PythonInt(v) == Some(n)
  {
    var t := sign + body;
    SignedText(sign, body);
    StripLeft(a, t + b);
    StripRight(t, b);
    MagnitudeReads(body);
  }

  lemma SignedText(sign: string, body: string)
    requires sign in ["", "+", "-"] && Grouped(body)
    ensures var t := sign + body;
      && t != "" && !IsSpace(t[0]) && Strip(t) == t
      && if sign == "" then t == body && t[0] !in "+-" else [t[0]] == sign && t[0] in "+-" && t[1..] == body
  {
    var t := sign + body;
    assert t[|t| - 1] == body[|body| - 1] && t[0] == if sign == "" then body[0] else sign[0];
  }

  lemma PythonIntForms(v: string)
    requires PythonInt(v).Some?
    ensures Denotes(v, PythonInt(v).value)
  {
    var a, b := StripParts(v);
    var t := Strip(v);
    if t != "" && t[0] in "+-" {
      MagnitudeReads(t[1..]);
      assert t == [t[0]] + t[1..];
      assert DenotesAs(v, PythonInt(v).value, a, [t[0]], t[1..], b);
    } else {
      MagnitudeReads(t);
      assert "" + t == t;
      assert DenotesAs(v, PythonInt(v).value, a, "", t, b);
    }
  }

  /** `?n=` is a limit exactly when its text denotes a number that is not negative: any other
      text, and a negative number, is no limit. */
  lemma LimitMeaning(v: string, n: nat)
    ensures TagLimit(Some(v)) == Some(n) <==> Denotes(v, n)
  {
    if PythonInt(v).Some? {
      PythonIntForms(v);
    }
    if a, sign, body, b :| DenotesAs(v, n, a, sign, body, b) {
      PythonIntReads(v, n, a, sign, body, b);
    }
  }

  lemma {:induction false} DigitsOnly(s: string)
    requires AllDigits(s)
    ensures Digits(s) == s
    decreases |s|
  {
    if s != "" {
      assert s[|s| - 1] in s;
      DigitsOnly(s[..|s| - 1]);
    }
  }

  /** The `n` a next link carries is read back as the same limit. */
  lemma LimitRoundTrip(n: nat)
    ensures TagLimit(Some(Decimal(n))) == Some(n)
  {
    NumeralDenotes(Decimal(n));
    DecimalReads(n);
    LimitMeaning(Decimal(n), n);
  }

  lemma NumeralIsGrouped(s: string)
    requires IsNumeral(s)
    ensures Grouped(s)
  {
    assert forall i :: 0 <= i < |s| ==> s[i] in s;
  }

  lemma NumeralDenotes(s: string)
    requires IsNumeral(s)
    ensures Denotes(s, ToInt(s))
  {
    NumeralIsGrouped(s);
    DigitsOnly(s);
    assert "" + (("" + s) + "") == s;
    assert DenotesAs(s, ToInt(s), "", "", s, "");
  }

  // ------------------------------------------------------------------------------ one page

  predicate Ascending(tags: seq<string>) {
    Strict(false, Id(), tags)
  }

  /** `?n=<limit>&last=<last>`; the limit travels as `Decimal(limit)`. */
  datatype Link = Link(limit: nat, last: string)

  datatype Response = Response(tags: seq<string>, next: Option<Link>)

  /** `[tag for tag in tags if tag > last]` */
  function After(tags: seq<string>, last: string): (r: seq<string>)
    ensures forall t :: t in r <==> t in tags && Less(last, t)
  {
    if tags == [] then [] else (if Less(last, tags[0]) then [tags[0]] else []) + After(tags[1..], last)
  }

  function Rest(tags: seq<string>, last: string): seq<string> {
    if last == "" then tags else After(tags, last)
  }

  /** The response for one request over the tag list of that moment. */
  function Page(tags: seq<string>, last: string, limit: Option<nat>): Response {
    var rest := Rest(tags, last);
    if limit.Some? && |rest| > limit.value then
      var page := rest[..limit.value];
      Response(page, if page != [] then Some(Link(limit.value, page[|page| - 1])) else None)
    else Response(rest, None)
  }

  lemma AfterNext(tags: seq<string>, i: nat, last: string, found: seq<string>)
    requires i < |tags|
    ensures found + After(tags[i..], last) == (if Less(last, tags[i]) then found + [tags[i]] else found) + After(tags[i + 1..], last)
  {
    var rest := After(tags[i + 1..], last);
    assert tags[i..][1..] == tags[i + 1..];
    assert found + ([tags[i]] + rest) == (found + [tags[i]]) + rest;
    assert [] + rest == rest;
  }

  method Beyond(all: seq<string>, last: string) returns (tags: seq<string>)
    ensures tags == After(all, last)
  {
    tags := [];
    for i := 0 to |all|
      invariant After(all, last) == tags + After(all[i..], last)
    {
      AfterNext(all, i, last, tags);
      if Less(last, all[i]) {
        tags := tags + [all[i]];
      }
    }
  }

  /** `docker_tags`, past the registry lookup. */
  method DockerTags(all: seq<string>, lastParam: Option<string>, nParam: Option<string>) returns (r: Response)
    ensures r == Page(all, if lastParam.Some? then lastParam.value else "", TagLimit(nParam))
  {
    var last := if lastParam.Some? then lastParam.value else "";
    var tags := all;
    if last != "" {
      tags := Beyond(all, last);
    }
    var limit := TagLimit(nParam);
    var truncated := false;
    if limit.Some? && |tags| > limit.value {
      tags := tags[..limit.value];
      truncated := true;
    }
    var next := None;
    if truncated && tags != [] {
      next := Some(Link(limit.value, tags[|tags| - 1]));
    }
    r := Response(tags, next);
  }

  lemma {:induction false} AfterAscending(tags: seq<string>, last: string)
    requires Ascending(tags)
    ensures Ascending(After(tags, last))
    decreases |tags|
  {
    if tags != [] {
      var rest := After(tags[1..], last);
      AfterAscending(tags[1..], last);
      forall j | 0 <= j < |rest| ensures Less(tags[0], rest[j]) {
        assert rest[j] in tags[1..];
        var i :| 0 <= i < |tags[1..]| && tags[1..][i] == rest[j];
        assert Before(false, Id()(tags[0]), Id()(tags[i + 1]));
      }
    }
  }

  /** The rest of an ascending list beyond a cursor is ascending, beyond it, and complete. */
  lemma RestIsBeyond(tags: seq<string>, last: string)
    requires Ascending(tags)
    ensures Ascending(Rest(tags, last))
    ensures last != "" ==> forall t :: t in Rest(tags, last) ==> Less(last, t)
    ensures forall t :: t in tags && (last == "" || Less(last, t)) ==> t in Rest(tags, last)
  {
    AfterAscending(tags, last);
  }

  /** Only a page that is the empty tag alone hands out a cursor that leads back to the start. */
  predicate Stalls(tags: seq<string>, last: string, n: nat) {
    last == "" && n == 1 && |tags| > 1 && tags[0] == ""
  }

  /** A next link moves the cursor strictly forward exactly when the page does not stall. */
  lemma LinkAdvances(tags: seq<string>, last: string, n: nat)
    requires Ascending(tags) && n >= 1 && Page(tags, last, Some(n)).next.Some?
    ensures Less(last, Page(tags, last, Some(n)).next.value.last) <==> !Stalls(tags, last, n)
  {
    RestIsBeyond(tags, last);
    var rest := Rest(tags, last);
    assert rest[n - 1] in rest;
    if last == "" && n > 1 {
      assert Before(false, Id()(rest[0]), Id()(rest[n - 1]));
    }
  }

  // ----------------------------------------------------------------------- a client's walk

  datatype Walk = Walk(pages: seq<seq<string>>, completed: bool)

  /** Request after request, each over the tag list of its own moment, until a response
      carries no link or the lists run out. */
  function Follow(lists: seq<seq<string>>, last: string, n: nat): Walk {
    if lists == [] then Walk([], false)
    else
      var r := Page(lists[0], last, Some(n));
      match r.next
      case None => Walk([r.tags], true)
      case Some(link) =>
        var w := Follow(lists[1..], link.last, link.limit);
        Walk([r.tags] + w.pages, w.completed)
  }

  function Concat(pages: seq<seq<string>>): seq<string> {
    if pages == [] then [] else pages[0] + Concat(pages[1..])
  }

  predicate AllAscending(lists: seq<seq<string>>) {
    forall i :: 0 <= i < |lists| ==> Ascending(lists[i])
  }

  lemma AscendingJoin(a: seq<string>, b: seq<string>)
    requires Ascending(a) && Ascending(b) && (a != [] ==> forall t :: t in b ==> Less(a[|a| - 1], t))
    ensures Ascending(a + b)
  {
    forall i, j | 0 <= i < j < |a + b| ensures Before(false, Id()((a + b)[i]), Id()((a + b)[j])) {
      if i < |a| <= j {
        assert b[j - |a|] in b;
        if i < |a| - 1 {
          assert Before(false, Id()(a[i]), Id()(a[|a| - 1]));
          LessTransitive(a[i], a[|a| - 1], b[j - |a|]);
        }
      }
    }
  }

  /** A page is ascending and beyond the cursor, and what is left is beyond its link. */
  lemma PageFacts(tags: seq<string>, last: string, n: nat)
    requires Ascending(tags) && n >= 1
    ensures var r := Page(tags, last, Some(n));
      && Ascending(r.tags)
      && (last != "" ==> forall t :: t in r.tags ==> Less(last, t))
      && (forall t :: t in tags && (last == "" || Less(last, t)) ==>
            t in r.tags || (r.next.Some? && Less(r.next.value.last, t)))
      && (r.next.Some? ==> r.tags != [] && r.next.value.last == r.tags[|r.tags| - 1])
  {
    RestIsBeyond(tags, last);
    var rest, r := Rest(tags, last), Page(tags, last, Some(n));
    if r.next.Some? {
      forall t | t in rest && t !in r.tags ensures Less(r.next.value.last, t) {
        var j :| 0 <= j < |rest| && rest[j] == t;
        if j >= n {
          assert Before(false, Id()(rest[n - 1]), Id()(rest[j]));
        }
      }
    }
  }

  /** Two requests in a row that answer the empty tag: the only way to see a tag twice. */
  predicate SeesEmptyTwice(lists: seq<seq<string>>, last: string, n: nat) {
    |lists| > 1 && Stalls(lists[0], last, n) && lists[1] != [] && lists[1][0] == ""
  }

  lemma FollowCases(lists: seq<seq<string>>, last: string, n: nat)
    requires lists != []
    ensures var r := Page(lists[0], last, Some(n));
      Concat(Follow(lists, last, n).pages) ==
      if r.next.None? then r.tags else r.tags + Concat(Follow(lists[1..], r.next.value.last, n).pages)
  {
    if Page(lists[0], last, Some(n)).next.None? {
      FollowOne(lists, last, n);
    } else {
      FollowNext(lists, last, n);
    }
  }

  lemma {:induction false} WalkFromCursor(lists: seq<seq<string>>, last: string, n: nat)
    requires n >= 1 && AllAscending(lists) && last != ""
    ensures Ascending(Concat(Follow(lists, last, n).pages))
    ensures forall t :: t in Concat(Follow(lists, last, n).pages) ==> Less(last, t)
    decreases |lists|
  {
    if lists != [] {
      PageFacts(lists[0], last, n);
      FollowCases(lists, last, n);
      var r := Page(lists[0], last, Some(n));
      if r.next.Some? {
        var link := r.next.value.last;
        LinkAdvances(lists[0], last, n);
        WalkFromCursor(lists[1..], link, n);
        AscendingJoin(r.tags, Concat(Follow(lists[1..], link, n).pages));
        forall t | Less(link, t) ensures Less(last, t) {
          LessTransitive(last, link, t);
        }
      }
    }
  }

  /** A walk whose first page does not stall is ascending; it holds no empty tag that its
      first list does not hold. */
  lemma WalkFromStart(lists: seq<seq<string>>, n: nat)
    requires n >= 1 && AllAscending(lists) && lists != [] && !Stalls(lists[0], "", n)
    ensures Ascending(Concat(Follow(lists, "", n).pages))
    ensures "" in Concat(Follow(lists, "", n).pages) ==> "" in lists[0]
  {
    PageFacts(lists[0], "", n);
    FollowCases(lists, "", n);
    var r := Page(lists[0], "", Some(n));
    if r.next.Some? {
      var link := r.next.value.last;
      LinkAdvances(lists[0], "", n);
      WalkFromCursor(lists[1..], link, n);
      AscendingJoin(r.tags, Concat(Follow(lists[1..], link, n).pages));
    }
  }

  lemma StalledPage(lists: seq<seq<string>>, n: nat)
    requires lists != [] && Stalls(lists[0], "", n)
    ensures Concat(Follow(lists, "", n).pages) == [""] + Concat(Follow(lists[1..], "", n).pages)
  {
    FollowCases(lists, "", n);
    assert lists[0][..1] == [""];
  }

  lemma FirstTagIsSeen(lists: seq<seq<string>>, n: nat)
    requires n >= 1 && lists != [] && lists[0] != []
    ensures lists[0][0] in Concat(Follow(lists, "", n).pages)
  {
    FollowCases(lists, "", n);
    assert Page(lists[0], "", Some(n)).tags[0] == lists[0][0];
  }

  lemma NotTwice(t: string, rest: seq<string>)
    ensures Ascending([t] + rest) ==> t !in rest
  {
    forall i | Ascending([t] + rest) && 0 <= i < |rest| ensures rest[i] != t {
      assert Before(false, Id()(([t] + rest)[0]), Id()(([t] + rest)[i + 1]));
      LessIrreflexive(t);
    }
  }

  /** The tags a walk collects strictly increase, so none is seen twice, whatever changes
      between requests: from a cursor always, and from the start except when the first two
      requests, one tag at a time, both answer the empty tag. */
  lemma WalkIsAscending(lists: seq<seq<string>>, last: string, n: nat)
    requires n >= 1 && AllAscending(lists)
    ensures Ascending(Concat(Follow(lists, last, n).pages)) <==> !SeesEmptyTwice(lists, last, n)
    ensures last != "" ==> forall t :: t in Concat(Follow(lists, last, n).pages) ==> Less(last, t)
  {
    if last != "" {
      WalkFromCursor(lists, last, n);
    } else if lists != [] && !Stalls(lists[0], "", n) {
      WalkFromStart(lists, n);
    } else if lists != [] {
      StalledPage(lists, n);
      var rest := Concat(Follow(lists[1..], "", n).pages);
      NotTwice("", rest);
      if SeesEmptyTwice(lists, "", n) {
        FirstTagIsSeen(lists[1..], n);
      } else if |lists| > 1 {
        if "" in lists[1] {
          EmptyTagIsFirst(lists[1]);
        }
        WalkFromStart(lists[1..], n);
        AscendingJoin([""], rest);
      }
    }
  }

  /** A tag present in every list a completed walk asked for is collected. */
  lemma {:induction false} WalkMissesNothing(lists: seq<seq<string>>, last: string, n: nat, t: string)
    requires n >= 1 && AllAscending(lists) && Follow(lists, last, n).completed
    requires forall i :: 0 <= i < |Follow(lists, last, n).pages| && i < |lists| ==> t in lists[i]
    requires last == "" || Less(last, t)
    ensures t in Concat(Follow(lists, last, n).pages)
    decreases |lists|
  {
    var r := Page(lists[0], last, Some(n));
    var w := Follow(lists, last, n);
    PageFacts(lists[0], last, n);
    assert w.pages[1..] == if r.next.None? then [] else Follow(lists[1..], r.next.value.last, n).pages;
    assert t in lists[0];
    if t !in r.tags {
      assert forall i :: 0 <= i < |w.pages| - 1 && i < |lists[1..]| ==> lists[1..][i] == lists[i + 1];
      WalkMissesNothing(lists[1..], r.next.value.last, n, t);
    }
  }

  // ------------------------------------------------------------------ a list that holds still

  function Repeated(tags: seq<string>, k: nat): seq<seq<string>> {
    seq(k, _ => tags)
  }

  /** `max(1, ceil(size / n))` */
  function Requests(size: nat, n: nat): nat
    requires n >= 1
  {
    if size <= n then 1 else 1 + Requests(size - n, n)
  }

  lemma {:induction false} RequestsIsCeiling(size: nat, n: nat)
    requires n >= 1
    ensures Requests(size, n) >= 1
    ensures size >= 1 ==> (Requests(size, n) - 1) * n < size <= Requests(size, n) * n
    decreases size
  {
    if size > n {
      RequestsIsCeiling(size - n, n);
    }
  }

  lemma LaterIsGreater(tags: seq<string>)
    requires Ascending(tags) && tags != []
    ensures Ascending(tags[1..]) && forall i :: 0 < i < |tags| ==> Less(tags[0], tags[i])
  {
    forall i | 0 < i < |tags| ensures Less(tags[0], tags[i]) {
      assert Before(false, Id()(tags[0]), Id()(tags[i]));
    }
  }

  lemma NotBoth(a: string, b: string)
    requires Less(a, b)
    ensures !Less(b, a)
  {
    LessIrreflexive(a);
    if Less(b, a) {
      LessTransitive(a, b, a);
    }
  }

  lemma NotAfter(tags: seq<string>, k: nat)
    requires Ascending(tags) && 1 < k <= |tags|
    ensures After(tags, tags[k - 1]) == After(tags[1..], tags[k - 1])
  {
    LaterIsGreater(tags);
    NotBoth(tags[0], tags[k - 1]);
    assert [] + After(tags[1..], tags[k - 1]) == After(tags[1..], tags[k - 1]);
  }

  lemma {:induction false} AfterSuffix(tags: seq<string>, k: nat)
    requires Ascending(tags) && 0 < k <= |tags|
    ensures After(tags, tags[k - 1]) == tags[k..]
    decreases |tags|
  {
    LaterIsGreater(tags);
    LessIrreflexive(tags[0]);
    if k == 1 {
      AfterAll(tags[1..], tags[0]);
    } else {
      NotAfter(tags, k);
      AfterSuffix(tags[1..], k - 1);
      assert tags[1..][k - 2] == tags[k - 1] && tags[1..][k - 1..] == tags[k..];
    }
  }

  lemma {:induction false} AfterAll(tags: seq<string>, last: string)
    requires forall t :: t in tags ==> Less(last, t)
    ensures After(tags, last) == tags
    decreases |tags|
  {
    if tags != [] {
      AfterAll(tags[1..], last);
    }
  }

  predicate CursorAt(tags: seq<string>, k: nat, last: string) {
    k < |tags| && if k == 0 then last == "" else last == tags[k - 1] && last != ""
  }

  lemma RestFrom(tags: seq<string>, k: nat, last: string)
    requires Ascending(tags) && CursorAt(tags, k, last)
    ensures Rest(tags, last) == tags[k..]
  {
    if k > 0 {
      AfterSuffix(tags, k);
    }
  }

  lemma NextCursor(tags: seq<string>, k: nat, n: nat)
    requires n >= 1 && Ascending(tags) && (n == 1 ==> "" !in tags) && k + n < |tags|
    ensures CursorAt(tags, k + n, tags[k + n - 1])
  {
    if k + n - 1 > 0 {
      assert Before(false, Id()(tags[0]), Id()(tags[k + n - 1]));
    }
  }

  /** The page asked for when the first `k` tags are already collected. */
  lemma FixedPage(tags: seq<string>, k: nat, n: nat, last: string)
    requires n >= 1 && k < |tags| && Rest(tags, last) == tags[k..]
    ensures |tags| - k <= n ==> Page(tags, last, Some(n)) == Response(tags[k..], None)
    ensures |tags| - k > n ==> Page(tags, last, Some(n)) == Response(tags[k..k + n], Some(Link(n, tags[k + n - 1])))
  {
    if |tags| - k > n {
      assert tags[k..][..n] == tags[k..k + n];
    }
  }

  lemma FollowOne(lists: seq<seq<string>>, last: string, n: nat)
    requires lists != [] && Page(lists[0], last, Some(n)).next.None?
    ensures Follow(lists, last, n) == Walk([Page(lists[0], last, Some(n)).tags], true)
    ensures Concat(Follow(lists, last, n).pages) == Page(lists[0], last, Some(n)).tags
  {
    var tags := Page(lists[0], last, Some(n)).tags;
    assert Concat([tags]) == tags + Concat([]);
  }

  lemma FollowNext(lists: seq<seq<string>>, last: string, n: nat)
    requires lists != [] && Page(lists[0], last, Some(n)).next.Some?
    ensures var r := Page(lists[0], last, Some(n));
      var w, rest := Follow(lists, last, n), Follow(lists[1..], r.next.value.last, n);
      && w.completed == rest.completed && |w.pages| == 1 + |rest.pages|
      && Concat(w.pages) == r.tags + Concat(rest.pages)
  {
    var r := Page(lists[0], last, Some(n));
    var w, rest := Follow(lists, last, n), Follow(lists[1..], r.next.value.last, n);
    assert w.pages[1..] == rest.pages;
  }

  predicate Collects(lists: seq<seq<string>>, last: string, n: nat, tags: seq<string>) {
    var w := Follow(lists, last, n);
    w.completed && |w.pages| == |lists| && Concat(w.pages) == tags
  }

  lemma CollectsMore(lists: seq<seq<string>>, last: string, n: nat, page: seq<string>, next: string, rest: seq<string>)
    requires lists != [] && Page(lists[0], last, Some(n)) == Response(page, Some(Link(n, next)))
    requires Collects(lists[1..], next, n, rest)
    ensures Collects(lists, last, n, page + rest)
  {
    FollowNext(lists, last, n);
  }

  lemma CollectsLast(lists: seq<seq<string>>, last: string, n: nat, page: seq<string>)
    requires |lists| == 1 && Page(lists[0], last, Some(n)) == Response(page, None)
    ensures Collects(lists, last, n, page)
  {
    FollowOne(lists, last, n);
  }

  lemma FixedStep(lists: seq<seq<string>>, tags: seq<string>, k: nat, n: nat, last: string)
    requires n >= 1 && k < |tags| && Rest(tags, last) == tags[k..] && lists != [] && lists[0] == tags
    requires |tags| - k <= n ==> |lists| == 1
    requires |tags| - k > n ==> Collects(lists[1..], tags[k + n - 1], n, tags[k + n..])
    ensures Collects(lists, last, n, tags[k..])
  {
    FixedPage(tags, k, n, last);
    if |tags| - k <= n {
      CollectsLast(lists, last, n, tags[k..]);
    } else {
      CollectsMore(lists, last, n, tags[k..k + n], tags[k + n - 1], tags[k + n..]);
      assert tags[k..k + n] + tags[k + n..] == tags[k..];
    }
  }

  lemma {:induction false} FixedWalkFrom(lists: seq<seq<string>>, tags: seq<string>, k: nat, n: nat, last: string)
    requires n >= 1 && Ascending(tags) && (n == 1 ==> "" !in tags) && CursorAt(tags, k, last)
    requires |lists| == Requests(|tags| - k, n) && forall i :: 0 <= i < |lists| ==> lists[i] == tags
    ensures Collects(lists, last, n, tags[k..])
    decreases |tags| - k
  {
    RestFrom(tags, k, last);
    RequestsLeft(lists, tags, k, n);
    if |tags| - k > n {
      NextCursor(tags, k, n);
      FixedWalkFrom(lists[1..], tags, k + n, n, tags[k + n - 1]);
    }
    FixedStep(lists, tags, k, n, last);
  }

  lemma RequestsLeft(lists: seq<seq<string>>, tags: seq<string>, k: nat, n: nat)
    requires n >= 1 && k < |tags| && |lists| == Requests(|tags| - k, n) && forall i :: 0 <= i < |lists| ==> lists[i] == tags
    ensures lists != [] && lists[0] == tags
    ensures |tags| - k <= n ==> |lists| == 1
    ensures |tags| - k > n ==>
              |lists[1..]| == Requests(|tags| - (k + n), n) && forall i :: 0 <= i < |lists[1..]| ==> lists[1..][i] == tags
  {
    assert |tags| - k - n == |tags| - (k + n);
  }

  lemma EmptyTagIsFirst(tags: seq<string>)
    requires Ascending(tags) && "" in tags
    ensures tags[0] == ""
  {
    forall i | 0 < i < |tags| ensures Less(tags[0], tags[i]) {
      assert Before(false, Id()(tags[0]), Id()(tags[i]));
    }
  }

  /** Over a list that does not change, the pages concatenate to it in max(1, ceil(N/n))
      requests, exactly when the walk does not stall. */
  lemma FixedWalk(tags: seq<string>, n: nat)
    requires n >= 1 && Ascending(tags)
    ensures Collects(Repeated(tags, Requests(|tags|, n)), "", n, tags) <==> !Stalls(tags, "", n)
  {
    var lists := Repeated(tags, Requests(|tags|, n));
    if Stalls(tags, "", n) {
      EmptyTagStalls(tags, Requests(|tags|, n));
    } else if tags == [] {
      CollectsLast(lists, "", n, []);
    } else if n == 1 && "" in tags {
      EmptyTagIsFirst(tags);
      FixedStep(lists, tags, 0, n, "");
    } else {
      FixedWalkFrom(lists, tags, 0, n, "");
    }
  }

  /** `n = 0` answers an empty page that leads nowhere, and no limit the whole rest. */
  lemma DegenerateLimits(tags: seq<string>, last: string)
    ensures Page(tags, last, Some(0)) == Response([], None)
    ensures Page(tags, last, None) == Response(Rest(tags, last), None)
  {
  }

  /** One at a time over a list that starts with the empty tag, the walk never gets past it. */
  lemma {:induction false} EmptyTagStalls(tags: seq<string>, k: nat)
    requires Stalls(tags, "", 1)
    ensures !Follow(Repeated(tags, k), "", 1).completed
    ensures forall i :: 0 <= i < |Follow(Repeated(tags, k), "", 1).pages| ==> Follow(Repeated(tags, k), "", 1).pages[i] == [""]
    decreases k
  {
    if k > 0 {
      assert Repeated(tags, k)[1..] == Repeated(tags, k - 1);
      EmptyTagStalls(tags, k - 1);
    }
  }
}
