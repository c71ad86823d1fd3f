/** The text of generated CHECK constraints and what the migrations read back out of it
    (backend/models/base.py, lines 25-33; backend/models/agent_hub_migrate.py, lines 231-260). */
module CheckText {
  import opened Basics

  // ------------------------------------------------------------------------------ printing

  /** The quoted values, comma-separated, and the closing parenthesis. */
  function List(values: seq<string>): string {
    if values == [] then ")"
    else if |values| == 1 then "'" + (values[0] + "')")
    else "'" + (values[0] + ("', " + List(values[1..])))
  }

  /** `in_check` */
  function InCheck(column: string, values: seq<string>): string {
    column + (" IN (" + List(values))
  }

  // ----------------------------------------------------------------------------- literals

  /** How far `(?:[^']|'')*` runs when a closing quote must follow, doubled quotes first. */
  function Body(s: string): Option<nat> {
    if s == "" then None
    else if s[0] != '\'' then
      match Body(s[1..])
      case None => None
      case Some(n) => Some(n + 1)
    else if |s| > 1 && s[1] == '\'' then
      match Body(s[2..])
      case None => Some(0)
      case Some(n) => Some(n + 2)
    else Some(0)
  }

  lemma {:induction false} BodyEndsAtQuote(s: string)
    ensures Body(s).Some? ==> Body(s).value < |s| && s[Body(s).value] == '\''
    decreases |s|
  {
    if s != "" && s[0] != '\'' {
      BodyEndsAtQuote(s[1..]);
    } else if |s| > 1 && s[1] == '\'' {
      BodyEndsAtQuote(s[2..]);
    }
  }

  /** `replace("''", "'")` */
  function Unescape(s: string): string {
    if |s| >= 2 && s[0] == '\'' && s[1] == '\'' then "'" + Unescape(s[2..])
    else if s == "" then ""
    else [s[0]] + Unescape(s[1..])
  }

  /** `_LITERAL_RE.findall`, unescaped. */
  function Literals(s: string): seq<string> {
    if s == "" then []
    else if s[0] != '\'' then Literals(s[1..])
    else
      BodyEndsAtQuote(s[1..]);
      match Body(s[1..])
      case None => Literals(s[1..])
      case Some(n) => [Unescape(s[1..n + 1])] + Literals(s[n + 2..])
  }

  /** `_check_literals` */
  function CheckLiterals(text: string): set<string> {
    Elements(Literals(text))
  }

  predicate QuoteFree(s: string) {
    '\'' !in s
  }

  lemma {:induction false} LiteralsSkip(a: string, t: string)
    requires QuoteFree(a)
    ensures Literals(a + t) == Literals(t)
    decreases |a|
  {
    if a == "" {
      assert a + t == t;
    } else {
      assert a[0] in a && (a + t)[1..] == a[1..] + t;
      LiteralsSkip(a[1..], t);
    }
  }

  lemma {:induction false} BodyOfPlain(v: string, t: string)
    requires QuoteFree(v) && (t == "" || t[0] != '\'')
    ensures Body(v + ("'" + t)) == Some(|v|)
    decreases |v|
  {
    var s := v + ("'" + t);
    if v == "" {
      assert s == "'" + t;
    } else {
      assert v[0] in v && s[1..] == v[1..] + ("'" + t);
      BodyOfPlain(v[1..], t);
    }
  }

  lemma {:induction false} UnescapePlain(v: string)
    requires QuoteFree(v)
    ensures Unescape(v) == v
    decreases |v|
  {
    if v != "" {
      assert v[0] in v;
      UnescapePlain(v[1..]);
    }
  }

  lemma LiteralsQuoted(v: string, t: string)
    requires QuoteFree(v) && (t == "" || t[0] != '\'')
    ensures Literals("'" + (v + ("'" + t))) == [v] + Literals(t)
  {
    var s := "'" + (v + ("'" + t));
    assert s[1..] == v + ("'" + t);
    BodyOfPlain(v, t);
    assert s[1..|v| + 1] == v && s[|v| + 2..] == t;
    UnescapePlain(v);
  }

  lemma LiteralThen(v: string, close: string, t: string)
    requires QuoteFree(v) && QuoteFree(close) && (close + t == "" || (close + t)[0] != '\'')
    ensures Literals("'" + (v + (("'" + close) + t))) == [v] + Literals(t)
  {
    assert ("'" + close) + t == "'" + (close + t);
    LiteralsQuoted(v, close + t);
    LiteralsSkip(close, t);
  }

  lemma {:induction false} LiteralsOfList(values: seq<string>)
    requires forall v :: v in values ==> QuoteFree(v)
    ensures Literals(List(values)) == values
    decreases |values|
  {
    if values == [] {
      LiteralsSkip(")", "");
      assert ")" + "" == ")";
    } else {
      assert values[0] in values;
      if |values| == 1 {
        assert ("'" + ")") + "" == "')";
        LiteralThen(values[0], ")", "");
      } else {
        assert "'" + ", " == "', ";
        LiteralThen(values[0], ", ", List(values[1..]));
        assert forall v :: v in values[1..] ==> v in values;
        LiteralsOfList(values[1..]);
      }
    }
  }

  /** The vocabulary printed into a constraint is the vocabulary read back out of it. */
  lemma InCheckLiterals(column: string, values: seq<string>)
    requires QuoteFree(column) && forall v :: v in values ==> QuoteFree(v)
    ensures CheckLiterals(InCheck(column, values)) == Elements(values)
  {
    LiteralsSkip(column, " IN (" + List(values));
    LiteralsSkip(" IN (", List(values));
    LiteralsOfList(values);
  }

  // ------------------------------------------------------------------- quotes in a vocabulary

  function QuoteCount(s: string): nat {
    if s == "" then 0 else (if s[0] == '\'' then 1 else 0) + QuoteCount(s[1..])
  }

  lemma {:induction false} QuotesAdd(a: string, b: string)
    ensures QuoteCount(a + b) == QuoteCount(a) + QuoteCount(b)
    decreases |a|
  {
    if a == "" {
      assert a + b == b;
    } else {
      assert (a + b)[1..] == a[1..] + b;
      QuotesAdd(a[1..], b);
    }
  }

  lemma {:induction false} NoQuotes(s: string)
    ensures QuoteCount(s) == 0 <==> QuoteFree(s)
    decreases |s|
  {
    if s != "" {
      NoQuotes(s[1..]);
      assert s == [s[0]] + s[1..];
    }
  }

  lemma UnescapeFirst(c: char, t: string)
    requires c != '\''
    ensures Unescape([c] + t) == [c] + Unescape(t) && QuoteCount([c] + t) == QuoteCount(t)
    ensures QuoteCount([c] + Unescape(t)) == QuoteCount(Unescape(t))
  {
    assert ([c] + t)[1..] == t && ([c] + Unescape(t))[1..] == Unescape(t);
  }

  lemma UnescapePair(t: string)
    ensures Unescape("''" + t) == "'" + Unescape(t) && QuoteCount("''" + t) == 2 + QuoteCount(t)
    ensures QuoteCount("'" + Unescape(t)) == 1 + QuoteCount(Unescape(t))
  {
    assert ("''" + t)[2..] == t && ("''" + t)[1..] == "'" + t && ("'" + t)[1..] == t;
    assert ("'" + Unescape(t))[1..] == Unescape(t);
  }

  /** Quotes only come in pairs inside a literal, and each pair stands for one. */
  lemma {:induction false} BodyQuotes(s: string)
    ensures Body(s).Some? ==> Body(s).value <= |s|
    ensures Body(s).Some? ==> QuoteCount(s[..Body(s).value]) == 2 * QuoteCount(Unescape(s[..Body(s).value]))
    decreases |s|
  {
    BodyEndsAtQuote(s);
    if Body(s).Some? && Body(s).value > 0 {
      var n := Body(s).value;
      if s[0] != '\'' {
        BodyQuotes(s[1..]);
        UnescapeFirst(s[0], s[1..][..n - 1]);
        assert s[..n] == [s[0]] + s[1..][..n - 1];
      } else {
        BodyQuotes(s[2..]);
        UnescapePair(s[2..][..n - 2]);
        assert s[..n] == "''" + s[2..][..n - 2];
      }
    }
  }

  /** The quotes it takes to print these literals so that they are read back. */
  function QuotesNeeded(literals: seq<string>): nat {
    if literals == [] then 0 else 2 + 2 * QuoteCount(literals[0]) + QuotesNeeded(literals[1..])
  }

  /** The quotes `in_check` prints. */
  function QuotesPrinted(values: seq<string>): nat {
    if values == [] then 0 else 2 + QuoteCount(values[0]) + QuotesPrinted(values[1..])
  }

  lemma QuotesAround(body: string, rest: string)
    ensures QuoteCount("'" + (body + ("'" + rest))) == 2 + QuoteCount(body) + QuoteCount(rest)
  {
    QuotesAdd("'", body + ("'" + rest));
    QuotesAdd(body, "'" + rest);
    QuotesAdd("'", rest);
    assert QuoteCount("'") == 1;
  }

  lemma LiteralAt(s: string, n: nat)
    requires n + 1 < |s| && s[0] == '\'' && s[n + 1] == '\''
    ensures s == "'" + (s[1..n + 1] + ("'" + s[n + 2..]))
  {
  }

  lemma {:induction false} LiteralsAreQuoted(s: string)
    ensures QuotesNeeded(Literals(s)) <= QuoteCount(s)
    decreases |s|
  {
    if s != "" {
      BodyEndsAtQuote(s[1..]);
      BodyQuotes(s[1..]);
      if s[0] != '\'' || Body(s[1..]).None? {
        LiteralsAreQuoted(s[1..]);
      } else {
        var n := Body(s[1..]).value;
        LiteralsAreQuoted(s[n + 2..]);
        LiteralAt(s, n);
        QuotesAround(s[1..n + 1], s[n + 2..]);
        assert s[1..][..n] == s[1..n + 1];
      }
    }
  }

  lemma QuotesOfItem(v: string, close: string, rest: string)
    requires QuoteFree(close)
    ensures QuoteCount("'" + (v + (("'" + close) + rest))) == 2 + QuoteCount(v) + QuoteCount(rest)
  {
    assert ("'" + close) + rest == "'" + (close + rest);
    QuotesAround(v, close + rest);
    QuotesAdd(close, rest);
    NoQuotes(close);
  }

  lemma {:induction false} QuotesOfList(values: seq<string>)
    ensures QuoteCount(List(values)) == QuotesPrinted(values)
    decreases |values|
  {
    if values == [] {
      NoQuotes(")");
    } else if |values| == 1 {
      assert ("'" + ")") + "" == "')";
      QuotesOfItem(values[0], ")", "");
    } else {
      assert "'" + ", " == "', ";
      QuotesOfItem(values[0], ", ", List(values[1..]));
      QuotesOfList(values[1..]);
    }
  }

  lemma QuotesOfInCheck(column: string, values: seq<string>)
    requires QuoteFree(column)
    ensures QuoteCount(InCheck(column, values)) == QuotesPrinted(values)
  {
    QuotesAdd(column, " IN (" + List(values));
    QuotesAdd(" IN (", List(values));
    NoQuotes(column);
    NoQuotes(" IN (");
    QuotesOfList(values);
  }

  lemma {:induction false} NeededWithout(literals: seq<string>, i: nat)
    requires i < |literals|
    ensures QuotesNeeded(literals) == 2 + 2 * QuoteCount(literals[i]) + QuotesNeeded(literals[..i] + literals[i + 1..])
    decreases |literals|
  {
    if i == 0 {
      assert literals[..0] + literals[1..] == literals[1..];
    } else {
      NeededWithout(literals[1..], i - 1);
      var rest := literals[1..][..i - 1] + literals[1..][i..];
      assert literals[..i] + literals[i + 1..] == [literals[0]] + rest;
    }
  }

  lemma {:induction false} NeededGrows(values: seq<string>, literals: seq<string>)
    requires AllDistinct(values) && forall v :: v in values ==> v in literals
    ensures QuotesNeeded(values) <= QuotesNeeded(literals)
    decreases |values|
  {
    if values != [] {
      assert values[0] in literals;
      var i :| 0 <= i < |literals| && literals[i] == values[0];
      NeededWithout(literals, i);
      forall v | v in values[1..]
        ensures v in literals[..i] + literals[i + 1..]
      {
        assert v in values && v != values[0];
        var j :| 0 <= j < |literals| && literals[j] == v;
      }
      NeededGrows(values[1..], literals[..i] + literals[i + 1..]);
    }
  }

  lemma {:induction false} PrintedFallsShort(values: seq<string>)
    ensures QuotesPrinted(values) <= QuotesNeeded(values)
    ensures QuotesPrinted(values) == QuotesNeeded(values) ==> forall v :: v in values ==> QuoteFree(v)
    decreases |values|
  {
    if values != [] {
      NoQuotes(values[0]);
      PrintedFallsShort(values[1..]);
      assert values == [values[0]] + values[1..];
    }
  }

  /** `in_check` does not double a quote, so a vocabulary is read back exactly when it has none. */
  lemma ReadsBackExactly(column: string, values: seq<string>)
    requires QuoteFree(column) && AllDistinct(values)
    ensures CheckLiterals(InCheck(column, values)) == Elements(values) <==> forall v :: v in values ==> QuoteFree(v)
  {
    var text := InCheck(column, values);
    if CheckLiterals(text) == Elements(values) {
      ElementsWithin(values, Literals(text));
      NeededGrows(values, Literals(text));
      LiteralsAreQuoted(text);
      QuotesOfInCheck(column, values);
      PrintedFallsShort(values);
    }
    if forall v :: v in values ==> QuoteFree(v) {
      InCheckLiterals(column, values);
    }
  }

  /** The shortest vocabulary that is lost. */
  lemma QuotesAreNotEscaped()
    ensures CheckLiterals(InCheck("c", ["'"])) != Elements(["'"])
  {
    ReadsBackExactly("c", ["'"]);
    assert ["'"][0] == "'" && "'"[0] == '\'';
    assert !QuoteFree("'") && "'" in ["'"];
  }

  // ------------------------------------------------------------------------------ admission

  /** A CHECK of a table: the name and the text an inspector reports, and the vocabulary the
      database enforces for it. */
  datatype Check = Check(name: string, text: string, column: string, values: seq<string>)

  /** The constraint a model declares for a vocabulary. */
  function Generated(name: string, column: string, values: seq<string>): Check {
    Check(name, InCheck(column, values), column, values)
  }

  /** `_constraint_admits`: the first constraint of that name decides. */
  function Admits(live: seq<Check>, name: string, values: seq<string>): bool {
    if live == [] then false
    else if live[0].name != name then Admits(live[1..], name, values)
    else Elements(values) <= CheckLiterals(live[0].text)
  }

  lemma ElementsWithin(a: seq<string>, b: seq<string>)
    ensures Elements(a) <= Elements(b) <==> forall v :: v in a ==> v in b
  {
    if Elements(a) <= Elements(b) {
      forall v | v in a
        ensures v in b
      {
        assert v in Elements(a);
        assert v in Elements(b);
      }
    }
  }

  /** Right after the generated constraint is put in place it admits exactly the vocabularies
      inside its own. */
  lemma {:induction false} AdmitsAfterAdding(live: seq<Check>, name: string, column: string, values: seq<string>, required: seq<string>)
    requires QuoteFree(column) && forall v :: v in values ==> QuoteFree(v)
    requires forall l :: l in live ==> l.name != name
    ensures Admits(live + [Generated(name, column, values)], name, required) <==> forall v :: v in required ==> v in values
    decreases |live|
  {
    var added := live + [Generated(name, column, values)];
    if live == [] {
      InCheckLiterals(column, values);
      ElementsWithin(required, values);
      assert added == [Generated(name, column, values)];
    } else {
      assert live[0] in live;
      assert added[1..] == live[1..] + [Generated(name, column, values)];
      AdmitsAfterAdding(live[1..], name, column, values, required);
    }
  }

  // ------------------------------------------------------------------------------- mentions

  predicate IsWord(c: char) {
    'a' <= c <= 'z' || 'A' <= c <= 'Z' || '0' <= c <= '9' || c == '_'
  }

  predicate Identifier(s: string) {
    s != "" && forall c :: c in s ==> IsWord(c)
  }

  /** A match of the column at `i` with no word character on either side. */
  predicate MentionedAt(text: string, column: string, i: nat) {
    && i + |column| <= |text| && text[i..i + |column|] == column
    && (i == 0 || !IsWord(text[i - 1]))
    && (i + |column| == |text| || !IsWord(text[i + |column|]))
  }

  /** `_mentions_column` */
  predicate Mentions(text: string, column: string) {
    exists i | 0 <= i <= |text| :: MentionedAt(text, column, i)
  }

  function RunLength(s: string): (n: nat)
    ensures n <= |s| && (forall i :: 0 <= i < n ==> IsWord(s[i])) && (n < |s| ==> !IsWord(s[n]))
  {
    if s == "" || !IsWord(s[0]) then 0 else 1 + RunLength(s[1..])
  }

  /** The maximal runs of word characters of a text. */
  function WordsOf(s: string): seq<string> {
    if s == "" then []
    else if !IsWord(s[0]) then WordsOf(s[1..])
    else
      var n := RunLength(s);
      assert n > 0;
      [s[..n]] + WordsOf(s[n..])
  }

  lemma MentionedInTail(text: string, column: string, n: nat, i: nat)
    requires Identifier(column) && 0 < n <= |text| && n <= i
    requires n == |text| || !IsWord(text[n]) || !IsWord(text[n - 1])
    ensures MentionedAt(text, column, i) <==> MentionedAt(text[n..], column, i - n)
  {
    assert column[0] in column;
    if i + |column| <= |text| {
      assert text[n..][i - n..i - n + |column|] == text[i..i + |column|];
      if text[i..i + |column|] == column {
        assert text[i] == column[0];
      }
    }
  }

  lemma MentionedInRun(text: string, column: string, i: nat)
    requires Identifier(column) && text != "" && IsWord(text[0]) && i < RunLength(text)
    ensures MentionedAt(text, column, i) <==> i == 0 && column == text[..RunLength(text)]
  {
    var n := RunLength(text);
    assert i > 0 ==> IsWord(text[i - 1]);
    if i == 0 && |column| <= |text| && text[..|column|] == column {
      forall k | 0 <= k < |column|
        ensures IsWord(text[k])
      {
        assert text[k] == text[..|column|][k] && column[k] in column;
      }
      assert |column| <= n;
      assert |column| < n ==> IsWord(text[|column|]);
    }
  }

  lemma {:induction false} MentionsIsWord(text: string, column: string)
    requires Identifier(column)
    ensures Mentions(text, column) <==> column in WordsOf(text)
    decreases |text|
  {
    if text != "" {
      var n := if IsWord(text[0]) then RunLength(text) else 1;
      var tail := text[n..];
      MentionsIsWord(tail, column);
      forall i | 0 <= i <= |text|
        ensures MentionedAt(text, column, i) <==> if i < n then IsWord(text[0]) && i == 0 && column == text[..n] else MentionedAt(tail, column, i - n)
      {
        if i >= n {
          MentionedInTail(text, column, n, i);
        } else if IsWord(text[0]) {
          MentionedInRun(text, column, i);
        } else {
          assert column[0] in column;
        }
      }
      if k: nat :| k <= |tail| && MentionedAt(tail, column, k) {
        assert MentionedAt(text, column, k + n);
      }
      if IsWord(text[0]) && column == text[..n] {
        assert MentionedAt(text, column, 0);
      }
    }
  }

  lemma {:induction false} RunOfWord(w: string, t: string)
    requires forall c :: c in w ==> IsWord(c)
    requires t == "" || !IsWord(t[0])
    ensures RunLength(w + t) == |w|
    decreases |w|
  {
    if w == "" {
      assert w + t == t;
    } else {
      assert w[0] in w && (w + t)[1..] == w[1..] + t;
      RunOfWord(w[1..], t);
    }
  }

  lemma WordsOfWord(w: string, t: string)
    requires Identifier(w) && (t == "" || !IsWord(t[0]))
    ensures WordsOf(w + t) == [w] + WordsOf(t)
  {
    RunOfWord(w, t);
    assert w[0] in w && (w + t)[..|w|] == w && (w + t)[|w|..] == t;
  }

  lemma {:induction false} WordsSkip(a: string, t: string)
    requires forall c :: c in a ==> !IsWord(c)
    ensures WordsOf(a + t) == WordsOf(t)
    decreases |a|
  {
    if a == "" {
      assert a + t == t;
    } else {
      assert a[0] in a && (a + t)[1..] == a[1..] + t;
      WordsSkip(a[1..], t);
    }
  }

  lemma {:induction false} RunEndsAt(a: string, t: string)
    requires t == "" || !IsWord(t[0])
    ensures RunLength(a + t) == RunLength(a)
    decreases |a|
  {
    if a == "" {
      assert a + t == t;
    } else {
      assert (a + t)[0] == a[0] && (a + t)[1..] == a[1..] + t;
      RunEndsAt(a[1..], t);
    }
  }

  lemma SliceSum(a: string, t: string, n: nat)
    requires n <= |a|
    ensures (a + t)[n..] == a[n..] + t && (a + t)[..n] == a[..n]
  {
  }

  lemma WordsAfterRun(a: string, t: string)
    requires a != "" && IsWord(a[0]) && (t == "" || !IsWord(t[0]))
    ensures RunLength(a) > 0 && WordsOf(a + t) == [a[..RunLength(a)]] + WordsOf(a[RunLength(a)..] + t)
  {
    RunEndsAt(a, t);
    SliceSum(a, t, RunLength(a));
  }

  lemma Joined(w: string, words: seq<string>, more: seq<string>)
    ensures [w] + (words + more) == ([w] + words) + more
  {
  }

  lemma SplitAfterRun(a: string, t: string)
    requires a != "" && IsWord(a[0]) && (t == "" || !IsWord(t[0]))
    requires WordsOf(a[RunLength(a)..] + t) == WordsOf(a[RunLength(a)..]) + WordsOf(t)
    ensures WordsOf(a + t) == WordsOf(a) + WordsOf(t)
  {
    WordsAfterRun(a, t);
    Joined(a[..RunLength(a)], WordsOf(a[RunLength(a)..]), WordsOf(t));
  }

  /** A word ends where no word character follows. */
  lemma {:induction false} WordsSplit(a: string, t: string)
    requires t == "" || !IsWord(t[0])
    ensures WordsOf(a + t) == WordsOf(a) + WordsOf(t)
    decreases |a|
  {
    if a == "" {
      assert a + t == t;
    } else if IsWord(a[0]) {
      assert RunLength(a) > 0;
      WordsSplit(a[RunLength(a)..], t);
      SplitAfterRun(a, t);
    } else {
      WordsSplit(a[1..], t);
      SliceSum(a, t, 1);
    }
  }

  lemma WordsAround(before: string, v: string, after: string, t: string)
    requires after != ""
    requires (forall c :: c in before ==> !IsWord(c)) && (forall c :: c in after ==> !IsWord(c))
    ensures WordsOf(before + (v + (after + t))) == WordsOf(v) + WordsOf(t)
  {
    WordsSkip(before, v + (after + t));
    assert (after + t)[0] == after[0] && after[0] in after;
    WordsSplit(v, after + t);
    WordsSkip(after, t);
  }

  lemma WordsOfItem(v: string, rest: string)
    ensures WordsOf("'" + (v + "')")) == WordsOf(v)
    ensures WordsOf("'" + (v + ("', " + rest))) == WordsOf(v) + WordsOf(rest)
  {
    assert "')" + "" == "')";
    WordsAround("'", v, "')", "");
    WordsAround("'", v, "', ", rest);
  }

  lemma {:induction false} WordsOfList(values: seq<string>, word: string)
    ensures word in WordsOf(List(values)) <==> exists v | v in values :: word in WordsOf(v)
    decreases |values|
  {
    if values == [] {
      WordsSkip(")", "");
      assert ")" + "" == ")";
    } else {
      assert values == [values[0]] + values[1..];
      WordsOfItem(values[0], List(values[1..]));
      if |values| > 1 {
        WordsOfList(values[1..], word);
      }
    }
  }

  lemma InSplits(list: string)
    ensures " IN (" + list == " " + ("IN" + (" (" + list))
  {
  }

  lemma WordsOfTail(list: string)
    ensures WordsOf(" IN (" + list) == ["IN"] + WordsOf(list)
  {
    InSplits(list);
    WordsAround(" ", "IN", " (", list);
    IdentifierIsWord("IN");
  }

  lemma WordsOfInCheck(column: string, values: seq<string>)
    requires Identifier(column)
    ensures WordsOf(InCheck(column, values)) == [column] + (["IN"] + WordsOf(List(values)))
  {
    WordsOfTail(List(values));
    WordsOfWord(column, " IN (" + List(values));
  }

  /** A generated constraint mentions its own column, and also whatever column is spelled like
      a word of one of its values: the test does not tell a name from a literal. */
  lemma InCheckMentions(column: string, values: seq<string>, other: string)
    requires Identifier(column) && Identifier(other)
    ensures Mentions(InCheck(column, values), other) <==>
              other == column || other == "IN" || exists v | v in values :: other in WordsOf(v)
  {
    MentionsIsWord(InCheck(column, values), other);
    WordsOfInCheck(column, values);
    WordsOfList(values, other);
  }

  lemma IdentifierIsWord(s: string)
    requires Identifier(s)
    ensures WordsOf(s) == [s]
  {
    WordsOfWord(s, "");
    assert s + "" == s;
  }

  lemma IdentifierIsQuoteFree(s: string)
    requires Identifier(s)
    ensures QuoteFree(s)
  {
  }

  /** So a value can cost its column's constraint its life when another column is rewritten. */
  lemma AValueIsTakenForAColumn()
    ensures Mentions(InCheck("status", ["kind"]), "kind")
  {
    assert Identifier("status") && Identifier("kind");
    IdentifierIsWord("kind");
    assert ["kind"][0] == "kind";
    InCheckMentions("status", ["kind"], "kind");
  }
}
