/** Backtracking pattern matching in the priority order of Python's `re`.

    A pattern is written in continuation form: each node carries what must follow it, so
    an optional group is a choice between "the group, then the rest" and "the rest".
    `Try` explores choices in the order the engine does and reports where the groups of
    the first complete match lie. `$` also matches just before a final newline. */
module Regex {
  import opened Basics

  /** The character classes the repository's patterns use (their ASCII part). */
  datatype Class =
    | Exactly(c: char)
    | Dot                // .
    | NotDash            // [^-]
    | Digit              // \d
    | Lower              // [a-z]
    | LowerAlnum         // [a-z0-9]
    | LowerWord          // [a-z0-9_]
    | AlnumDot           // [0-9A-Za-z.]
    | AlnumDotDash       // [0-9A-Za-z.\-]
    | WheelVersion       // [\w!<>.+]
    | SdistVersion       // [\d!<>.]

  predicate IsLower(c: char) { 'a' <= c <= 'z' }

  predicate IsAlnum(c: char) { IsDigit(c) || IsLower(c) || 'A' <= c <= 'Z' }

  predicate In(c: char, cls: Class) {
    match cls
    case Exactly(d) => c == d
    case Dot => c != '\n'
    case NotDash => c != '-'
    case Digit => IsDigit(c)
    case Lower => IsLower(c)
    case LowerAlnum => IsLower(c) || IsDigit(c)
    case LowerWord => IsLower(c) || IsDigit(c) || c == '_'
    case AlnumDot => IsAlnum(c) || c == '.'
    case AlnumDotDash => IsAlnum(c) || c == '.' || c == '-'
    case WheelVersion => IsAlnum(c) || c in "_!<>.+"
    case SdistVersion => IsDigit(c) || c in "!<>."
  }

  predicate Between(c: char, low: char, high: char) { low <= c <= high }

  /** The classes by their members. */
  lemma ClassMembers(c: char)
    ensures In(c, Digit) <==> Between(c, '0', '9')
    ensures In(c, Lower) <==> Between(c, 'a', 'z')
    ensures In(c, LowerAlnum) <==> In(c, Lower) || In(c, Digit)
    ensures In(c, LowerWord) <==> In(c, LowerAlnum) || c == '_'
    ensures In(c, AlnumDot) <==> In(c, LowerAlnum) || Between(c, 'A', 'Z') || c == '.'
    ensures In(c, AlnumDotDash) <==> In(c, AlnumDot) || c == '-'
    ensures In(c, NotDash) <==> c != '-'
    ensures In(c, Dot) <==> c != '\n'
  {
  }

  predicate AllIn(s: string, cls: Class) {
    forall c :: c in s ==> In(c, cls)
  }

  predicate IsNumber(s: string) {
    s != "" && AllIn(s, Digit)
  }

  datatype Pattern =
    | Finish(t: string)                                    // the literal t, then $
    | One(cls: Class, rest: Pattern)                       // one character
    | Many(cls: Class, greedy: bool, rest: Pattern)        // zero or more
    | Either(first: Pattern, second: Pattern)
    | Repeat(sep: char, cls: Class, rest: Pattern)         // greedy (?:sep cls+)*
    | Open(group: string, rest: Pattern)
    | Close(group: string, rest: Pattern)

  function Lit(t: string, rest: Pattern): Pattern {
    if t == [] then rest else One(Exactly(t[0]), Lit(t[1..], rest))
  }

  /** A group, by how much text remained where it started and where it ended. */
  datatype Span = Span(start: nat, end: nat)

  type Groups = map<string, Span>

  predicate FinishesWith(s: string, t: string) {
    s == t || s == t + "\n"
  }

  function OrElse(a: Option<Groups>, b: Option<Groups>): Option<Groups> {
    if a.Some? then a else b
  }

  /** The groups of the first match in priority order, or None. */
  function Try(p: Pattern, s: string): (r: Option<Groups>)
    ensures r.Some? ==> forall g :: g in r.value ==> r.value[g].end <= r.value[g].start <= |s|
    decreases |s|, p
  {
    match p
    case Finish(t) => if FinishesWith(s, t) then Some(map[]) else None
    case One(cls, rest) => if s != [] && In(s[0], cls) then Try(rest, s[1..]) else None
    case Many(cls, greedy, rest) =>
      if s != [] && In(s[0], cls) then
        if greedy then OrElse(Try(p, s[1..]), Try(rest, s)) else OrElse(Try(rest, s), Try(p, s[1..]))
      else Try(rest, s)
    case Either(a, b) => OrElse(Try(a, s), Try(b, s))
    case Repeat(sep, cls, rest) =>
      if s != [] && s[0] == sep then OrElse(Try(One(cls, Many(cls, true, p)), s[1..]), Try(rest, s))
      else Try(rest, s)
    case Open(g, rest) =>
      (match Try(rest, s)
       case None => None
       case Some(m) => Some(m[g := Span(|s|, if g in m then m[g].end else |s|)]))
    case Close(g, rest) =>
      (match Try(rest, s)
       case None => None
       case Some(m) => Some(m[g := Span(|s|, |s|)]))
  }

  /** `pattern.match(s)`: the text of every group that took part in the match. */
  function Match(p: Pattern, s: string): Option<map<string, string>> {
    match Try(p, s)
    case None => None
    case Some(m) => Some(map g | g in m :: s[|s| - m[g].start..|s| - m[g].end])
  }

  /** The text of each group. */
  function Texts(f: string, m: Groups): map<string, string>
    requires forall g :: g in m ==> m[g].end <= m[g].start <= |f|
  {
    map g | g in m :: f[|f| - m[g].start..|f| - m[g].end]
  }

  lemma MatchTexts(pattern: Pattern, f: string, m: Groups)
    requires Try(pattern, f) == Some(m)
    ensures (forall g :: g in m ==> m[g].end <= m[g].start <= |f|) && Match(pattern, f) == Some(Texts(f, m))
  {
  }

  /** `m.group(g) or other`. */
  function GroupOr(m: map<string, string>, g: string, other: string): string {
    if g in m && m[g] != "" then m[g] else other
  }

  /** `cls+` */
  function Plus(cls: Class, greedy: bool, rest: Pattern): Pattern {
    One(cls, Many(cls, greedy, rest))
  }

  // ------------------------------------------------------- which strings match, order aside

  /** The strings a pattern describes, with no regard to priorities. */
  ghost predicate Accepts(p: Pattern, s: string)
    decreases |s|, p
  {
    match p
    case Finish(t) => FinishesWith(s, t)
    case One(cls, rest) => s != [] && In(s[0], cls) && Accepts(rest, s[1..])
    case Many(cls, _, rest) => exists n :: 0 <= n <= |s| && AllIn(s[..n], cls) && Accepts(rest, s[n..])
    case Either(a, b) => Accepts(a, s) || Accepts(b, s)
    case Repeat(sep, cls, rest) =>
      || Accepts(rest, s)
      || (exists n :: 2 <= n <= |s| && s[0] == sep && AllIn(s[1..n], cls) && Accepts(p, s[n..]))
    case Open(_, rest) => Accepts(rest, s)
    case Close(_, rest) => Accepts(rest, s)
  }

  lemma ManyAcceptsAt(cls: Class, greedy: bool, rest: Pattern, s: string, n: nat)
    requires n <= |s| && AllIn(s[..n], cls) && Accepts(rest, s[n..])
    ensures Accepts(Many(cls, greedy, rest), s)
  {
  }

  lemma FirstSlice(s: string, n: nat)
    requires n < |s|
    ensures s[..n + 1] == [s[0]] + s[1..][..n] && s[n + 1..] == s[1..][n..]
  {
  }

  lemma ManyAcceptsMore(cls: Class, greedy: bool, rest: Pattern, s: string)
    requires s != [] && In(s[0], cls) && Accepts(Many(cls, greedy, rest), s[1..])
    ensures Accepts(Many(cls, greedy, rest), s)
  {
    var n :| 0 <= n <= |s[1..]| && AllIn(s[1..][..n], cls) && Accepts(rest, s[1..][n..]);
    FirstSlice(s, n);
    ManyAcceptsAt(cls, greedy, rest, s, n + 1);
  }

  lemma ManyAcceptsLess(cls: Class, greedy: bool, rest: Pattern, s: string)
    requires Accepts(Many(cls, greedy, rest), s)
    ensures Accepts(rest, s) || (s != [] && In(s[0], cls) && Accepts(Many(cls, greedy, rest), s[1..]))
  {
    var n :| 0 <= n <= |s| && AllIn(s[..n], cls) && Accepts(rest, s[n..]);
    if n == 0 {
      assert s[0..] == s;
    } else {
      FirstSlice(s, n - 1);
      ManyAcceptsAt(cls, greedy, rest, s[1..], n - 1);
    }
  }

  lemma ManyAccepts(cls: Class, greedy: bool, rest: Pattern, s: string)
    ensures Accepts(Many(cls, greedy, rest), s)
       <==> Accepts(rest, s) || (s != [] && In(s[0], cls) && Accepts(Many(cls, greedy, rest), s[1..]))
  {
    var p := Many(cls, greedy, rest);
    assert s[..0] == [] && s[0..] == s;
    if Accepts(p, s) {
      ManyAcceptsLess(cls, greedy, rest, s);
    }
    if Accepts(rest, s) {
      ManyAcceptsAt(cls, greedy, rest, s, 0);
    } else if s != [] && In(s[0], cls) && Accepts(p, s[1..]) {
      ManyAcceptsMore(cls, greedy, rest, s);
    }
  }

  lemma SecondSlice(s: string, n: nat)
    requires n + 2 <= |s|
    ensures s[1..n + 2] == [s[1]] + s[1..][1..][..n] && s[n + 2..] == s[1..][1..][n..]
  {
    assert s[1..][1..] == s[2..];
  }

  lemma {:induction false} RepeatAccepts(sep: char, cls: Class, rest: Pattern, s: string)
    requires s != [] && s[0] == sep
    ensures Accepts(Repeat(sep, cls, rest), s)
       <==> Accepts(rest, s) || Accepts(One(cls, Many(cls, true, Repeat(sep, cls, rest))), s[1..])
  {
    if Accepts(One(cls, Many(cls, true, Repeat(sep, cls, rest))), s[1..]) {
      RepeatTakesOne(sep, cls, rest, s);
    }
    var p := Repeat(sep, cls, rest);
    if n :| 2 <= n <= |s| && s[0] == sep && AllIn(s[1..n], cls) && Accepts(p, s[n..]) {
      SecondSlice(s, n - 2);
    }
  }

  lemma RepeatTakesOne(sep: char, cls: Class, rest: Pattern, s: string)
    requires s != [] && s[0] == sep && Accepts(One(cls, Many(cls, true, Repeat(sep, cls, rest))), s[1..])
    ensures Accepts(Repeat(sep, cls, rest), s)
  {
    var p := Repeat(sep, cls, rest);
    var t := s[1..][1..];
    assert Accepts(Many(cls, true, p), t);
    var n :| 0 <= n <= |t| && AllIn(t[..n], cls) && Accepts(p, t[n..]);
    SecondSlice(s, n);
    assert AllIn(s[1..n + 2], cls) && Accepts(p, s[n + 2..]);
  }

  /** Backtracking finds a match exactly when there is one. */
  lemma {:induction false} TryFindsExactlyTheMatches(p: Pattern, s: string)
    ensures Try(p, s).Some? <==> Accepts(p, s)
    decreases |s|, p
  {
    match p
    case Finish(_) =>
    case One(cls, rest) =>
      if s != [] {
        TryFindsExactlyTheMatches(rest, s[1..]);
      }
    case Many(cls, greedy, rest) =>
      TryFindsExactlyTheMatches(rest, s);
      if s != [] {
        TryFindsExactlyTheMatches(p, s[1..]);
      }
      ManyAccepts(cls, greedy, rest, s);
    case Either(a, b) =>
      TryFindsExactlyTheMatches(a, s);
      TryFindsExactlyTheMatches(b, s);
    case Repeat(sep, cls, rest) =>
      TryFindsExactlyTheMatches(rest, s);
      if s != [] && s[0] == sep {
        TryFindsExactlyTheMatches(One(cls, Many(cls, true, p)), s[1..]);
        RepeatAccepts(sep, cls, rest, s);
      }
    case Open(_, rest) => TryFindsExactlyTheMatches(rest, s);
    case Close(_, rest) => TryFindsExactlyTheMatches(rest, s);
  }

  // ------------------------------------------------------------------ tools for single patterns

  predicate NoGroups(p: Pattern) {
    match p
    case Finish(_) => true
    case One(_, rest) => NoGroups(rest)
    case Many(_, _, rest) => NoGroups(rest)
    case Either(a, b) => NoGroups(a) && NoGroups(b)
    case Repeat(_, _, rest) => NoGroups(rest)
    case Open(_, _) => false
    case Close(_, _) => false
  }

  lemma {:induction false} WithoutGroups(p: Pattern, s: string)
    requires NoGroups(p)
    ensures Try(p, s).Some? ==> Try(p, s).value == map[]
    decreases |s|, p
  {
    match p
    case Finish(_) =>
    case One(cls, rest) =>
      if s != [] {
        WithoutGroups(rest, s[1..]);
      }
    case Many(cls, greedy, rest) =>
      WithoutGroups(rest, s);
      if s != [] {
        WithoutGroups(p, s[1..]);
      }
    case Either(a, b) =>
      WithoutGroups(a, s);
      WithoutGroups(b, s);
    case Repeat(sep, cls, rest) =>
      WithoutGroups(rest, s);
      if s != [] {
        WithoutGroups(One(cls, Many(cls, true, p)), s[1..]);
      }
  }

  /** Every match of `p` starts with `c`. */
  predicate Starts(p: Pattern, c: char) {
    match p
    case One(Exactly(d), _) => d == c
    case Either(a, b) => Starts(a, c) && Starts(b, c)
    case Open(_, rest) => Starts(rest, c)
    case Close(_, rest) => Starts(rest, c)
    case _ => false
  }

  lemma {:induction false} WrongStart(p: Pattern, c: char, s: string)
    requires Starts(p, c) && (s == [] || s[0] != c)
    ensures Try(p, s).None?
    decreases p
  {
    match p
    case One(_, _) =>
    case Either(a, b) =>
      WrongStart(a, c, s);
      WrongStart(b, c, s);
    case Open(_, rest) => WrongStart(rest, c, s);
    case Close(_, rest) => WrongStart(rest, c, s);
  }

  /** A run of class characters up to the first separator, when what follows must start with it. */
  lemma {:induction false} RunToSeparator(cls: Class, greedy: bool, rest: Pattern, c: char, a: string, t: string)
    requires Starts(rest, c) && AllIn(a, cls) && c !in a
    requires t != [] && t[0] == c && (In(c, cls) ==> !greedy && Try(rest, t).Some?)
    ensures Try(Many(cls, greedy, rest), a + t) == Try(rest, t)
    decreases |a|
  {
    if a == [] {
      assert a + t == t;
    } else {
      assert (a + t)[1..] == a[1..] + t;
      assert a[0] in a;
      RunToSeparator(cls, greedy, rest, c, a[1..], t);
      WrongStart(rest, c, a + t);
    }
  }

  lemma LitStep(t: string, rest: Pattern, s: string)
    ensures Try(Lit(t, rest), t + s) == Try(rest, s)
  {
    if t == [] {
      assert t + s == s;
    } else {
      assert (t + s)[1..] == t[1..] + s;
      LitStep(t[1..], rest, s);
    }
  }

  /** A literal that starts differently never matches. */
  lemma LitMismatch(t: string, rest: Pattern, s: string)
    requires !(t <= s)
    ensures Try(Lit(t, rest), s).None?
  {
    if s != [] && t[0] == s[0] {
      assert t == [t[0]] + t[1..] && s == [s[0]] + s[1..];
      LitMismatch(t[1..], rest, s[1..]);
    }
  }

  /** Every match of `p` ends with one of `tails`, then `$`. */
  predicate EndsIn(p: Pattern, tails: set<string>) {
    match p
    case Finish(t) => t in tails
    case One(_, rest) => EndsIn(rest, tails)
    case Many(_, _, rest) => EndsIn(rest, tails)
    case Either(a, b) => EndsIn(a, tails) && EndsIn(b, tails)
    case Repeat(_, _, rest) => EndsIn(rest, tails)
    case Open(_, rest) => EndsIn(rest, tails)
    case Close(_, rest) => EndsIn(rest, tails)
  }

  predicate HasSuffix(s: string, t: string) {
    |t| <= |s| && s[|s| - |t|..] == t
  }

  lemma SuffixOfTail(s: string, n: nat, t: string)
    requires n <= |s| && (HasSuffix(s[n..], t) || HasSuffix(s[n..], t + "\n"))
    ensures HasSuffix(s, t) || HasSuffix(s, t + "\n")
  {
    var u := if HasSuffix(s[n..], t) then t else t + "\n";
    assert s[n..][|s| - n - |u|..] == s[|s| - |u|..];
  }

  lemma {:induction false} AcceptedSuffix(p: Pattern, tails: set<string>, s: string) returns (t: string)
    requires EndsIn(p, tails) && Accepts(p, s)
    ensures t in tails && (HasSuffix(s, t) || HasSuffix(s, t + "\n"))
    decreases |s|, p
  {
    match p
    case Finish(u) => t := u;
    case One(_, rest) =>
      t := AcceptedSuffix(rest, tails, s[1..]);
      SuffixOfTail(s, 1, t);
    case Many(cls, _, rest) =>
      var n :| 0 <= n <= |s| && AllIn(s[..n], cls) && Accepts(rest, s[n..]);
      t := AcceptedSuffix(rest, tails, s[n..]);
      SuffixOfTail(s, n, t);
    case Either(a, b) => t := AcceptedSuffix(if Accepts(a, s) then a else b, tails, s);
    case Repeat(sep, cls, rest) =>
      if Accepts(rest, s) {
        t := AcceptedSuffix(rest, tails, s);
      } else {
        var n :| 2 <= n <= |s| && s[0] == sep && AllIn(s[1..n], cls) && Accepts(p, s[n..]);
        t := AcceptedSuffix(p, tails, s[n..]);
        SuffixOfTail(s, n, t);
      }
    case Open(_, rest) => t := AcceptedSuffix(rest, tails, s);
    case Close(_, rest) => t := AcceptedSuffix(rest, tails, s);
  }

  lemma PlusAccepts(cls: Class, greedy: bool, rest: Pattern, a: string, t: string)
    requires a != "" && AllIn(a, cls) && Accepts(rest, t)
    ensures Accepts(Plus(cls, greedy, rest), a + t)
  {
    var u := (a + t)[1..];
    assert u == a[1..] + t && u[..|a| - 1] == a[1..] && u[|a| - 1..] == t;
    assert a[0] in a;
    assert Accepts(Many(cls, greedy, rest), u);
  }

  lemma PlusParts(cls: Class, greedy: bool, rest: Pattern, s: string) returns (a: string, t: string)
    requires Accepts(Plus(cls, greedy, rest), s)
    ensures s == a + t && a != "" && AllIn(a, cls) && Accepts(rest, t)
  {
    var more;
    more, t := ManyParts(cls, greedy, rest, s[1..]);
    a := [s[0]] + more;
    assert s == [s[0]] + s[1..];
  }

  lemma ManyParts(cls: Class, greedy: bool, rest: Pattern, s: string) returns (a: string, t: string)
    requires Accepts(Many(cls, greedy, rest), s)
    ensures s == a + t && AllIn(a, cls) && Accepts(rest, t)
  {
    var n :| 0 <= n <= |s| && AllIn(s[..n], cls) && Accepts(rest, s[n..]);
    a, t := s[..n], s[n..];
  }

  /** `cls+` up to a separator outside the class, or lazily up to the first that lets the rest match. */
  lemma PlusToSeparator(cls: Class, greedy: bool, rest: Pattern, c: char, a: string, t: string)
    requires Starts(rest, c) && a != "" && AllIn(a, cls) && c !in a
    requires t != [] && t[0] == c && (In(c, cls) ==> !greedy && Try(rest, t).Some?)
    ensures Try(Plus(cls, greedy, rest), a + t) == Try(rest, t)
  {
    assert (a + t)[1..] == a[1..] + t;
    assert a[0] in a;
    RunToSeparator(cls, greedy, rest, c, a[1..], t);
  }

  /** A lazy run that gives way at the first place where the rest matches. */
  lemma {:induction false} LazyRun(cls: Class, rest: Pattern, a: string, t: string)
    requires AllIn(a, cls) && Try(rest, t).Some?
    requires forall n :: 0 <= n < |a| ==> Try(rest, a[n..] + t).None?
    ensures Try(Many(cls, false, rest), a + t) == Try(rest, t)
    decreases |a|
  {
    if a == [] {
      assert a + t == t;
      LazyHere(cls, rest, t);
    } else {
      assert a[0..] == a;
      assert (a + t)[1..] == a[1..] + t;
      assert a[0] in a;
      assert forall n :: 0 <= n < |a| - 1 ==> a[1..][n..] == a[n + 1..];
      LazyRun(cls, rest, a[1..], t);
    }
  }

  lemma LazyHere(cls: Class, rest: Pattern, t: string)
    requires Try(rest, t).Some?
    ensures Try(Many(cls, false, rest), t) == Try(rest, t)
  {
  }

  lemma LazyPlus(cls: Class, rest: Pattern, a: string, t: string)
    requires a != "" && AllIn(a, cls) && Try(rest, t).Some?
    requires forall n :: 1 <= n < |a| ==> Try(rest, a[n..] + t).None?
    ensures Try(Plus(cls, false, rest), a + t) == Try(rest, t)
  {
    assert (a + t)[1..] == a[1..] + t;
    assert a[0] in a;
    assert forall n :: 0 <= n < |a| - 1 ==> a[1..][n..] == a[n + 1..];
    LazyRun(cls, rest, a[1..], t);
  }

  /** A greedy run that stops at a character outside its class, when the rest matches there. */
  lemma {:induction false} GreedyRun(cls: Class, rest: Pattern, a: string, t: string)
    requires AllIn(a, cls) && (t == "" || !In(t[0], cls)) && Try(rest, t).Some?
    ensures Try(Many(cls, true, rest), a + t) == Try(rest, t)
    decreases |a|
  {
    if a == [] {
      assert a + t == t;
    } else {
      assert (a + t)[1..] == a[1..] + t;
      assert a[0] in a;
      GreedyRun(cls, rest, a[1..], t);
    }
  }

  lemma GreedyPlus(cls: Class, rest: Pattern, a: string, t: string)
    requires a != "" && AllIn(a, cls) && (t == "" || !In(t[0], cls)) && Try(rest, t).Some?
    ensures Try(Plus(cls, true, rest), a + t) == Try(rest, t)
  {
    assert (a + t)[1..] == a[1..] + t;
    assert a[0] in a;
    GreedyRun(cls, rest, a[1..], t);
  }

  /** A run gives way to the rest at the first place, counted from the right, where it matches. */
  lemma {:induction false} GreedyBacktrack(cls: Class, rest: Pattern, a: string, t: string)
    requires AllIn(a, cls) && AllIn(t, cls) && Try(rest, t).Some?
    requires forall n :: 0 < n <= |t| ==> Try(rest, t[n..]).None?
    ensures Try(Many(cls, true, rest), a + t) == Try(rest, t)
    decreases |a|
  {
    if a == [] {
      assert a + t == t;
      if t != "" {
        assert t[0] in t;
        assert forall n :: 0 <= n <= |t| - 1 ==> t[1..][n..] == t[n + 1..];
        GreedyNone(cls, rest, t[1..]);
      }
    } else {
      assert (a + t)[1..] == a[1..] + t;
      assert a[0] in a;
      GreedyBacktrack(cls, rest, a[1..], t);
    }
  }

  lemma PlusBacktrack(cls: Class, rest: Pattern, a: string, t: string)
    requires a != "" && AllIn(a, cls) && AllIn(t, cls) && Try(rest, t).Some?
    requires forall n :: 0 < n <= |t| ==> Try(rest, t[n..]).None?
    ensures Try(Plus(cls, true, rest), a + t) == Try(rest, t)
  {
    assert (a + t)[1..] == a[1..] + t;
    assert a[0] in a;
    GreedyBacktrack(cls, rest, a[1..], t);
  }

  /** No match anywhere along the run: none at all. */
  lemma {:induction false} GreedyNone(cls: Class, rest: Pattern, s: string)
    requires forall n :: 0 <= n <= |s| ==> Try(rest, s[n..]).None?
    ensures Try(Many(cls, true, rest), s).None?
    decreases |s|
  {
    assert s[0..] == s;
    if s != "" {
      assert forall n :: 0 <= n <= |s| - 1 ==> s[1..][n..] == s[n + 1..];
      GreedyNone(cls, rest, s[1..]);
    }
  }

  /** A run that ends at a character outside its class, with no match at any of its places. */
  lemma {:induction false} GreedyRunNone(cls: Class, rest: Pattern, a: string, t: string)
    requires AllIn(a, cls) && (t == "" || !In(t[0], cls))
    requires forall n :: 0 <= n <= |a| ==> Try(rest, a[n..] + t).None?
    ensures Try(Many(cls, true, rest), a + t).None?
    decreases |a|
  {
    assert a[0..] == a;
    if a == [] {
      assert a + t == t;
    } else {
      assert (a + t)[1..] == a[1..] + t;
      assert a[0] in a;
      assert forall n :: 0 <= n <= |a| - 1 ==> a[1..][n..] == a[n + 1..];
      GreedyRunNone(cls, rest, a[1..], t);
    }
  }

  /** `q` follows `p` step for step, with extra groups or extra choices. */
  predicate Covers(q: Pattern, p: Pattern)
    decreases p, q
  {
    match q
    case Open(_, rest) => Covers(rest, p)
    case Close(_, rest) => Covers(rest, p)
    case Finish(t) => p == q
    case One(cls, rest) => p.One? && p.cls == cls && Covers(rest, p.rest)
    case Many(cls, _, rest) => p.Many? && p.cls == cls && Covers(rest, p.rest)
    case Repeat(_, _, _) => p == q
    case Either(a, b) => (p.Either? && Covers(a, p.first) && Covers(b, p.second)) || Covers(a, p) || Covers(b, p)
  }

  lemma {:induction false} CoveredLanguage(q: Pattern, p: Pattern, s: string)
    requires Covers(q, p) && Accepts(p, s)
    ensures Accepts(q, s)
    decreases p, q
  {
    match q
    case Open(_, rest) => CoveredLanguage(rest, p, s);
    case Close(_, rest) => CoveredLanguage(rest, p, s);
    case Finish(_) =>
    case One(_, rest) => CoveredLanguage(rest, p.rest, s[1..]);
    case Many(cls, greedy, rest) =>
      var n :| 0 <= n <= |s| && AllIn(s[..n], cls) && Accepts(p.rest, s[n..]);
      CoveredLanguage(rest, p.rest, s[n..]);
      ManyAcceptsAt(cls, greedy, rest, s, n);
    case Repeat(_, _, _) =>
    case Either(a, b) =>
      if Covers(a, p) {
        CoveredLanguage(a, p, s);
      } else if Covers(b, p) {
        CoveredLanguage(b, p, s);
      } else if Accepts(p.first, s) {
        CoveredLanguage(a, p.first, s);
      } else {
        CoveredLanguage(b, p.second, s);
      }
  }

  lemma OpenAround(g: string, rest: Pattern, s: string, m: Groups)
    requires Try(rest, s) == Some(m) && g in m
    ensures Try(Open(g, rest), s) == Some(m[g := Span(|s|, m[g].end)])
  {
  }

  // ---------------------------------------------------------- which characters a group can hold

  ghost predicate ClassWithin(cls: Class, ok: char -> bool) {
    forall c :: In(c, cls) ==> ok(c)
  }

  /** Everything a match of `p` consumes before it closes `g` is `ok`. */
  ghost predicate ClosesWithin(p: Pattern, g: string, ok: char -> bool) {
    match p
    case Finish(_) => false
    case One(cls, rest) => ClassWithin(cls, ok) && ClosesWithin(rest, g, ok)
    case Many(cls, _, rest) => ClassWithin(cls, ok) && ClosesWithin(rest, g, ok)
    case Either(a, b) => ClosesWithin(a, g, ok) && ClosesWithin(b, g, ok)
    case Repeat(sep, cls, rest) => ok(sep) && ClassWithin(cls, ok) && ClosesWithin(rest, g, ok)
    case Open(h, rest) => h != g && ClosesWithin(rest, g, ok)
    case Close(h, rest) => h == g || ClosesWithin(rest, g, ok)
  }

  ghost predicate GroupWithin(p: Pattern, g: string, ok: char -> bool) {
    match p
    case Finish(_) => true
    case One(_, rest) => GroupWithin(rest, g, ok)
    case Many(_, _, rest) => GroupWithin(rest, g, ok)
    case Either(a, b) => GroupWithin(a, g, ok) && GroupWithin(b, g, ok)
    case Repeat(_, _, rest) => GroupWithin(rest, g, ok)
    case Open(h, rest) => if h == g then ClosesWithin(rest, g, ok) else GroupWithin(rest, g, ok)
    case Close(h, rest) => h != g && GroupWithin(rest, g, ok)
  }

  lemma {:induction false} ConsumedBeforeClose(p: Pattern, s: string, g: string, ok: char -> bool)
    requires ClosesWithin(p, g, ok) && Try(p, s).Some?
    ensures g in Try(p, s).value
    ensures forall c :: c in s[..|s| - Try(p, s).value[g].end] ==> ok(c)
    decreases |s|, p
  {
    var m := Try(p, s).value;
    match p
    case One(cls, rest) =>
      ConsumedBeforeClose(rest, s[1..], g, ok);
      assert s[..|s| - m[g].end] == [s[0]] + s[1..][..|s| - 1 - m[g].end];
    case Many(cls, greedy, rest) =>
      if Try(rest, s) == Some(m) {
        ConsumedBeforeClose(rest, s, g, ok);
      } else {
        ConsumedBeforeClose(p, s[1..], g, ok);
        assert s[..|s| - m[g].end] == [s[0]] + s[1..][..|s| - 1 - m[g].end];
      }
    case Either(a, b) =>
      if Try(a, s).Some? {
        ConsumedBeforeClose(a, s, g, ok);
      } else {
        ConsumedBeforeClose(b, s, g, ok);
      }
    case Repeat(sep, cls, rest) =>
      var more := One(cls, Many(cls, true, p));
      if s != [] && s[0] == sep && Try(more, s[1..]).Some? {
        ConsumedBeforeClose(more, s[1..], g, ok);
        assert s[..|s| - m[g].end] == [s[0]] + s[1..][..|s| - 1 - m[g].end];
      } else {
        ConsumedBeforeClose(rest, s, g, ok);
      }
    case Open(_, rest) => ConsumedBeforeClose(rest, s, g, ok);
    case Close(h, rest) =>
      if h != g {
        ConsumedBeforeClose(rest, s, g, ok);
      } else {
        assert s[..0] == [];
      }
  }

  /** The text of a group only holds characters its part of the pattern consumes. */
  lemma {:induction false} GroupCharacters(p: Pattern, s: string, g: string, ok: char -> bool)
    requires GroupWithin(p, g, ok) && Try(p, s).Some? && g in Try(p, s).value
    ensures forall c :: c in s[|s| - Try(p, s).value[g].start..|s| - Try(p, s).value[g].end] ==> ok(c)
    decreases |s|, p, 1
  {
    match p
    case Finish(_) =>
    case One(_, rest) => GroupInTail(rest, s, g, ok);
    case Many(_, _, _) => GroupInMany(p, s, g, ok);
    case Either(a, b) => GroupCharacters(if Try(a, s).Some? then a else b, s, g, ok);
    case Repeat(_, _, _) => GroupInRepeat(p, s, g, ok);
    case Open(_, _) => GroupInOpen(p, s, g, ok);
    case Close(_, rest) => GroupCharacters(rest, s, g, ok);
  }

  lemma {:induction false} GroupInOpen(p: Pattern, s: string, g: string, ok: char -> bool)
    requires p.Open? && GroupWithin(p, g, ok) && Try(p, s).Some? && g in Try(p, s).value
    ensures forall c :: c in s[|s| - Try(p, s).value[g].start..|s| - Try(p, s).value[g].end] ==> ok(c)
    decreases |s|, p, 0
  {
    if p.group == g {
      ConsumedBeforeClose(p.rest, s, g, ok);
    } else {
      GroupCharacters(p.rest, s, g, ok);
    }
  }

  lemma {:induction false} GroupInMany(p: Pattern, s: string, g: string, ok: char -> bool)
    requires p.Many? && GroupWithin(p, g, ok) && Try(p, s).Some? && g in Try(p, s).value
    ensures forall c :: c in s[|s| - Try(p, s).value[g].start..|s| - Try(p, s).value[g].end] ==> ok(c)
    decreases |s|, p, 0
  {
    if Try(p.rest, s) == Try(p, s) {
      GroupCharacters(p.rest, s, g, ok);
    } else {
      GroupInTail(p, s, g, ok);
    }
  }

  lemma {:induction false} GroupInRepeat(p: Pattern, s: string, g: string, ok: char -> bool)
    requires p.Repeat? && GroupWithin(p, g, ok) && Try(p, s).Some? && g in Try(p, s).value
    ensures forall c :: c in s[|s| - Try(p, s).value[g].start..|s| - Try(p, s).value[g].end] ==> ok(c)
    decreases |s|, p, 0
  {
    var more := One(p.cls, Many(p.cls, true, p));
    if s != [] && s[0] == p.sep && Try(more, s[1..]).Some? {
      GroupInTail(more, s, g, ok);
    } else {
      GroupCharacters(p.rest, s, g, ok);
    }
  }

  lemma {:induction false} GroupInTail(p: Pattern, s: string, g: string, ok: char -> bool)
    requires s != [] && GroupWithin(p, g, ok) && Try(p, s[1..]).Some? && g in Try(p, s[1..]).value
    ensures forall c :: c in s[|s| - Try(p, s[1..]).value[g].start..|s| - Try(p, s[1..]).value[g].end] ==> ok(c)
    decreases |s| - 1, p, 2
  {
    var v := Try(p, s[1..]).value[g];
    GroupCharacters(p, s[1..], g, ok);
    TailSlice(s, |s| - v.start, |s| - v.end);
  }

  lemma TailSlice(s: string, i: nat, j: nat)
    requires 1 <= i <= j <= |s|
    ensures s[i..j] == s[1..][i - 1..j - 1]
  {
    var t := s[1..];
    forall k | 0 <= k < j - i
      ensures s[i..j][k] == t[i - 1..j - 1][k]
    {
      assert s[i + k] == t[i - 1 + k];
    }
  }

  // ------------------------------------------------------------------- the final newline

  predicate EndsInNewline(s: string) {
    s != "" && s[|s| - 1] == '\n'
  }

  /** Whatever a pattern accepts it also accepts with one newline after it. */
  lemma {:induction false} NewlineAccepted(p: Pattern, s: string)
    requires Accepts(p, s) && !EndsInNewline(s)
    ensures Accepts(p, s + "\n")
    decreases |s|, p
  {
    match p
    case Finish(t) =>
      assert s == t + "\n" ==> EndsInNewline(s);
    case One(_, rest) =>
      assert (s + "\n")[1..] == s[1..] + "\n";
      NewlineAccepted(rest, s[1..]);
    case Many(cls, greedy, rest) =>
      var n :| 0 <= n <= |s| && AllIn(s[..n], cls) && Accepts(rest, s[n..]);
      NewlineAfter(s, n);
      NewlineAccepted(rest, s[n..]);
      ManyAcceptsAt(cls, greedy, rest, s + "\n", n);
    case Either(a, b) => NewlineAccepted(if Accepts(a, s) then a else b, s);
    case Repeat(sep, cls, rest) =>
      if Accepts(rest, s) {
        NewlineAccepted(rest, s);
      } else {
        var n :| 2 <= n <= |s| && s[0] == sep && AllIn(s[1..n], cls) && Accepts(p, s[n..]);
        NewlineAfter(s, n);
        assert (s + "\n")[1..n] == s[1..n];
        NewlineAccepted(p, s[n..]);
      }
    case Open(_, rest) => NewlineAccepted(rest, s);
    case Close(_, rest) => NewlineAccepted(rest, s);
  }

  lemma NewlineAfter(s: string, n: nat)
    requires n <= |s|
    ensures (s + "\n")[..n] == s[..n] && (s + "\n")[n..] == s[n..] + "\n"
    ensures !EndsInNewline(s) ==> !EndsInNewline(s[n..])
  {
  }

  // -------------------------------------------------- which characters a whole match can hold

  ghost predicate Within(p: Pattern, ok: char -> bool) {
    match p
    case Finish(t) => forall c :: c in t ==> ok(c)
    case One(cls, rest) => ClassWithin(cls, ok) && Within(rest, ok)
    case Many(cls, _, rest) => ClassWithin(cls, ok) && Within(rest, ok)
    case Either(a, b) => Within(a, ok) && Within(b, ok)
    case Repeat(sep, cls, rest) => ok(sep) && ClassWithin(cls, ok) && Within(rest, ok)
    case Open(_, rest) => Within(rest, ok)
    case Close(_, rest) => Within(rest, ok)
  }

  /** Every character but a final newline. */
  ghost predicate CleanButNewline(s: string, ok: char -> bool) {
    forall i :: 0 <= i < |s| ==> ok(s[i]) || (i == |s| - 1 && s[i] == '\n')
  }

  lemma CleanSplit(s: string, n: nat, ok: char -> bool)
    requires n <= |s| && (forall c :: c in s[..n] ==> ok(c)) && CleanButNewline(s[n..], ok)
    ensures CleanButNewline(s, ok)
  {
    forall i | 0 <= i < |s|
      ensures ok(s[i]) || (i == |s| - 1 && s[i] == '\n')
    {
      if i < n {
        assert s[i] == s[..n][i];
      } else {
        assert s[i] == s[n..][i - n];
      }
    }
  }

  lemma {:induction false} MatchCharacters(p: Pattern, s: string, ok: char -> bool)
    requires Within(p, ok) && Accepts(p, s)
    ensures CleanButNewline(s, ok)
    decreases |s|, p
  {
    match p
    case Finish(_) =>
    case One(_, rest) =>
      MatchCharacters(rest, s[1..], ok);
      assert s == [s[0]] + s[1..];
    case Many(cls, _, rest) =>
      var n :| 0 <= n <= |s| && AllIn(s[..n], cls) && Accepts(rest, s[n..]);
      MatchCharacters(rest, s[n..], ok);
      CleanSplit(s, n, ok);
    case Either(a, b) => MatchCharacters(if Accepts(a, s) then a else b, s, ok);
    case Repeat(sep, cls, rest) =>
      if Accepts(rest, s) {
        MatchCharacters(rest, s, ok);
      } else {
        var n :| 2 <= n <= |s| && s[0] == sep && AllIn(s[1..n], cls) && Accepts(p, s[n..]);
        MatchCharacters(p, s[n..], ok);
        assert s[..n] == [sep] + s[1..n];
        CleanSplit(s, n, ok);
      }
    case Open(_, rest) => MatchCharacters(rest, s, ok);
    case Close(_, rest) => MatchCharacters(rest, s, ok);
  }
}
