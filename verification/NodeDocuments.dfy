/** The documents a Node mirror publishes (backend/index/node_build.py, lines 219-296):
    `index.json` as a list of entries, `index.tab`, and `SHASUMS256.txt`. */
module NodeDocuments {
  import opened Basics
  import opened TextOrder
  import opened Regex
  import opened Delimited
  import opened NodeNames
  import opened NodeVersions

  /** An overlay value: its `str()`, its truth, and whether it is `False` or `None`. */
  datatype Value = Value(text: string, truthy: bool, falseOrNone: bool)

  const FALSE := Value("False", false, true)

  const OVERLAY_FIELDS := ["date", "lts", "security", "npm", "v8", "uv", "zlib", "openssl", "modules"]

  datatype Entry = Entry(version: string, files: seq<string>, fields: map<string, Value>)

  function ByName(): NodeFile -> string {
    (f: NodeFile) => f.filename
  }

  // ------------------------------------------------------------------------------- tokens

  /** Each string once, where it first occurs. */
  function Firsts(ts: seq<string>): (r: seq<string>)
    ensures forall i, j :: 0 <= i < j < |r| ==> r[i] != r[j]
    ensures forall t :: t in r <==> t in ts
    ensures ts != [] ==> r != []
  {
    if ts == [] then []
    else
      var before := Firsts(ts[..|ts| - 1]);
      var t := ts[|ts| - 1];
      assert ts == ts[..|ts| - 1] + [t];
      if t in before then before else before + [t]
  }

  /** One string comes before another when it occurs before the other ever does. */
  lemma {:induction false} FirstsInOrder(ts: seq<string>, i: nat, j: nat) returns (k: nat)
    requires i < j < |Firsts(ts)|
    ensures k < |ts| && ts[k] == Firsts(ts)[i] && forall m :: 0 <= m <= k ==> ts[m] != Firsts(ts)[j]
    decreases |ts|
  {
    var n := |ts| - 1;
    var before := Firsts(ts[..n]);
    if j < |before| {
      k := FirstsInOrder(ts[..n], i, j);
    } else {
      assert before[i] in before;
      k :| 0 <= k < n && ts[k] == before[i];
      forall m | 0 <= m <= k ensures ts[m] != Firsts(ts)[j] {
        assert ts[m] in ts[..n];
      }
    }
  }

  function Spelled(files: seq<NodeFile>): (r: seq<string>)
    ensures |r| == |files| && forall i :: 0 <= i < |files| ==> r[i] == FileToken(files[i])
  {
    seq(|files|, i requires 0 <= i < |files| => FileToken(files[i]))
  }

  /** Each token once, in the order the sorted files first produce it. */
  function Tokens(files: seq<NodeFile>): (r: seq<string>)
    ensures forall i, j :: 0 <= i < j < |r| ==> r[i] != r[j]
    ensures forall t :: t in r <==> exists f :: f in files && FileToken(f) == t
    ensures files != [] ==> r != []
  {
    assert forall i :: 0 <= i < |files| ==> files[i] in files && Spelled(files)[i] == FileToken(files[i]);
    Firsts(Spelled(files))
  }

  lemma TokensNext(files: seq<NodeFile>, j: nat)
    requires j < |files|
    ensures Tokens(files[..j + 1]) ==
              var before := Tokens(files[..j]);
              if FileToken(files[j]) in before then before else before + [FileToken(files[j])]
  {
    var ts := Spelled(files[..j + 1]);
    assert ts[..j] == Spelled(files[..j]) && ts[j] == FileToken(files[j]);
  }

  /** The fields taken from the overlay, with the two defaults. */
  function Fields(overlay: map<string, Value>): map<string, Value> {
    var taken := map f | f in OVERLAY_FIELDS && f in overlay :: overlay[f];
    var lts := if "lts" in taken then taken else taken["lts" := FALSE];
    if "security" in lts then lts else lts["security" := FALSE]
  }

  /** What an overlay says of a listed field survives, `lts` and `security` are `False` unless it
      says otherwise, and nothing else is there. */
  lemma OverlaySurvives(overlay: map<string, Value>, f: string)
    ensures f in Fields(overlay) <==> f in ["lts", "security"] || (f in OVERLAY_FIELDS && f in overlay)
    ensures f in OVERLAY_FIELDS && f in overlay ==> Fields(overlay)[f] == overlay[f]
    ensures f in ["lts", "security"] && f !in overlay ==> Fields(overlay)[f] == FALSE
  {
  }

  function EntryOf(tag: string, files: seq<NodeFile>, meta: map<string, map<string, Value>>): Entry {
    Entry(tag, Tokens(Sort(false, ByName(), files)), Fields(if tag in meta then meta[tag] else map[]))
  }

  /** The document for the releases in a given order. */
  function DocumentOf(snapshot: map<string, seq<NodeFile>>, ordered: seq<string>, meta: map<string, map<string, Value>>): (r: seq<Entry>)
    requires forall k :: k in ordered ==> k in snapshot
    ensures |r| == |ordered| && forall i :: 0 <= i < |r| ==> r[i] == EntryOf(ordered[i], snapshot[ordered[i]], meta)
  {
    seq(|ordered|, i requires 0 <= i < |ordered| => EntryOf(ordered[i], snapshot[ordered[i]], meta))
  }

  method CollectTokens(files: seq<NodeFile>) returns (seen: seq<string>)
    ensures seen == Tokens(files)
  {
    seen := [];
    for j := 0 to |files|
      invariant seen == Tokens(files[..j])
    {
      TokensNext(files, j);
      var token := FileToken(files[j]);
      if token !in seen {
        seen := seen + [token];
      }
    }
    assert files[..|files|] == files;
  }

  method BuildEntry(tag: string, files: seq<NodeFile>, meta: map<string, map<string, Value>>) returns (e: Entry)
    ensures e == EntryOf(tag, files, meta)
  {
    var seen := CollectTokens(Sort(false, ByName(), files));
    e := Entry(tag, seen, Fields(if tag in meta then meta[tag] else map[]));
  }

  lemma OrderedAreIndexed(snapshot: map<string, seq<NodeFile>>, releases: seq<string>)
    requires forall k :: k in releases ==> k in snapshot
    ensures forall k :: k in SortTags(releases) ==> k in snapshot
  {
    forall k | k in SortTags(releases) ensures k in snapshot {
      SortTagsElements(releases, k);
    }
  }

  method BuildDocument(snapshot: map<string, seq<NodeFile>>, ordered: seq<string>, meta: map<string, map<string, Value>>)
    returns (document: seq<Entry>)
    requires forall k :: k in ordered ==> k in snapshot
    ensures document == DocumentOf(snapshot, ordered, meta)
  {
    document := [];
    DocumentStarts(snapshot, ordered, meta);
    for i := 0 to |ordered|
      invariant document == DocumentOf(snapshot, ordered[..i], meta)
    {
      DocumentNext(snapshot, ordered, meta, i);
      var entry := BuildEntry(ordered[i], snapshot[ordered[i]], meta);
      document := document + [entry];
    }
    assert ordered[..|ordered|] == ordered;
  }

  /** `index_document` */
  method IndexDocument(snapshot: map<string, seq<NodeFile>>, releases: seq<string>, meta: map<string, map<string, Value>>)
    returns (document: seq<Entry>)
    requires forall k :: k in releases <==> k in snapshot
    ensures forall k :: k in SortTags(releases) ==> k in snapshot
    ensures document == DocumentOf(snapshot, SortTags(releases), meta)
  {
    var ordered := SortTags(releases);
    OrderedAreIndexed(snapshot, releases);
    document := BuildDocument(snapshot, ordered, meta);
  }

  lemma DocumentStarts(snapshot: map<string, seq<NodeFile>>, ordered: seq<string>, meta: map<string, map<string, Value>>)
    requires forall k :: k in ordered ==> k in snapshot
    ensures DocumentOf(snapshot, ordered[..0], meta) == []
  {
  }

  lemma DocumentNext(snapshot: map<string, seq<NodeFile>>, ordered: seq<string>, meta: map<string, map<string, Value>>, i: nat)
    requires i < |ordered| && forall k :: k in ordered ==> k in snapshot
    ensures DocumentOf(snapshot, ordered[..i + 1], meta)
         == DocumentOf(snapshot, ordered[..i], meta) + [EntryOf(ordered[i], snapshot[ordered[i]], meta)]
  {
    var now, was := DocumentOf(snapshot, ordered[..i + 1], meta), DocumentOf(snapshot, ordered[..i], meta);
    OneMore(was, now, EntryOf(ordered[i], snapshot[ordered[i]], meta));
  }

  lemma OneMore(was: seq<Entry>, now: seq<Entry>, e: Entry)
    requires |now| == |was| + 1 && (forall k :: 0 <= k < |was| ==> now[k] == was[k]) && now[|was|] == e
    ensures now == was + [e]
  {
  }

  function Versions(document: seq<Entry>): seq<string> {
    seq(|document|, i requires 0 <= i < |document| => document[i].version)
  }

  /** Exactly the indexed releases, newest first, each with the tokens of its own files. */
  lemma DocumentListsTheIndex(snapshot: map<string, seq<NodeFile>>, releases: seq<string>, meta: map<string, map<string, Value>>, document: seq<Entry>)
    requires forall k :: k in releases <==> k in snapshot
    requires forall k :: k in SortTags(releases) ==> k in snapshot
    requires document == DocumentOf(snapshot, SortTags(releases), meta)
    ensures multiset(Versions(document)) == multiset(releases)
    ensures forall i, j :: 0 <= i < j < |document| ==> NotNewer(document[j].version, document[i].version)
    ensures forall e :: e in document ==> e.version in snapshot
    ensures forall e, t :: e in document ==> (t in e.files <==> exists f :: f in snapshot[e.version] && FileToken(f) == t)
  {
    SortTagsNewestFirst(releases);
    assert Versions(document) == SortTags(releases);
    forall e | e in document
      ensures e.version in snapshot && e == EntryOf(e.version, snapshot[e.version], meta)
    {
      EntryOfDocument(snapshot, SortTags(releases), meta, e);
    }
    forall e, t | e in document
      ensures t in e.files <==> exists f :: f in snapshot[e.version] && FileToken(f) == t
    {
      EntryTokens(e.version, snapshot[e.version], meta, t);
    }
  }

  lemma EntryOfDocument(snapshot: map<string, seq<NodeFile>>, ordered: seq<string>, meta: map<string, map<string, Value>>, e: Entry)
    requires forall k :: k in ordered ==> k in snapshot
    requires e in DocumentOf(snapshot, ordered, meta)
    ensures e.version in snapshot && e == EntryOf(e.version, snapshot[e.version], meta)
  {
    var document := DocumentOf(snapshot, ordered, meta);
    var i :| 0 <= i < |document| && document[i] == e;
    assert ordered[i] in ordered;
  }

  lemma EntryTokens(tag: string, files: seq<NodeFile>, meta: map<string, map<string, Value>>, t: string)
    ensures t in EntryOf(tag, files, meta).files <==> exists f :: f in files && FileToken(f) == t
  {
    forall f ensures f in Sort(false, ByName(), files) <==> f in files {
      SortKeepsElements(false, ByName(), files, f);
    }
  }

  /** The tokens of an entry stand in the order of the filenames that first produce them. */
  lemma TokensByFilename(tag: string, files: seq<NodeFile>, meta: map<string, map<string, Value>>, i: nat, j: nat) returns (f: NodeFile)
    requires DistinctKeys(ByName(), files) && i < j < |EntryOf(tag, files, meta).files|
    ensures f in files && FileToken(f) == EntryOf(tag, files, meta).files[i]
    ensures forall g :: g in files && FileToken(g) == EntryOf(tag, files, meta).files[j] ==> Less(f.filename, g.filename)
  {
    var sorted := Sort(false, ByName(), files);
    SortIsStrict(false, ByName(), files);
    var k := FirstsInOrder(Spelled(sorted), i, j);
    f := sorted[k];
    SortKeepsElements(false, ByName(), files, f);
    forall g | g in files && FileToken(g) == Tokens(sorted)[j] ensures Less(f.filename, g.filename) {
      SortKeepsElements(false, ByName(), files, g);
      var m :| 0 <= m < |sorted| && sorted[m] == g;
      assert Before(false, ByName()(sorted[k]), ByName()(sorted[m]));
    }
  }

  // ---------------------------------------------------------------------------- index.tab

  const HEADER := ["version", "date", "files", "npm", "v8", "uv", "zlib", "openssl", "modules", "lts", "security"]

  /** `str(entry.get(field, ""))` */
  function FieldText(e: Entry, field: string): string {
    if field in e.fields then e.fields[field].text else ""
  }

  function Columns(e: Entry): (r: seq<string>)
    ensures |r| == 11
  {
    [e.version, FieldText(e, "date"), Join(',', e.files), FieldText(e, "npm"), FieldText(e, "v8"), FieldText(e, "uv"),
     FieldText(e, "zlib"), FieldText(e, "openssl"), FieldText(e, "modules"),
     if "lts" !in e.fields || e.fields["lts"].falseOrNone then "-" else e.fields["lts"].text,
     if "security" !in e.fields || !e.fields["security"].truthy then "-" else "true"]
  }

  /** What stands in the column of a header. */
  ghost predicate ColumnShows(e: Entry, header: string, text: string) {
    if header == "version" then text == e.version
    else if header == "files" then Split(',', text) == e.files
    else if header == "lts" then
      text == if header in e.fields && !e.fields[header].falseOrNone then e.fields[header].text else "-"
    else if header == "security" then
      text == if header in e.fields && e.fields[header].truthy then "true" else "-"
    else text == if header in e.fields then e.fields[header].text else ""
  }

  lemma ColumnsUnderHeaders(e: Entry, c: nat)
    requires c < 11 && Split(',', Join(',', e.files)) == e.files
    ensures |HEADER| == 11 && ColumnShows(e, HEADER[c], Columns(e)[c])
  {
  }

  function Rows(document: seq<Entry>): (r: seq<string>)
    ensures |r| == |document| && forall i :: 0 <= i < |document| ==> r[i] == Join('\t', Columns(document[i]))
  {
    if document == [] then [] else Rows(document[..|document| - 1]) + [Join('\t', Columns(document[|document| - 1]))]
  }

  function TabText(header: seq<string>, document: seq<Entry>): string {
    Join('\n', [Join('\t', header)] + Rows(document)) + "\n"
  }

  method TabUnder(header: seq<string>, document: seq<Entry>) returns (text: string)
    ensures text == TabText(header, document)
  {
    var rows := [Join('\t', header)];
    for i := 0 to |document|
      invariant rows == [Join('\t', header)] + Rows(document[..i])
    {
      assert document[..i + 1][..i] == document[..i];
      rows := rows + [Join('\t', Columns(document[i]))];
    }
    assert document[..|document|] == document;
    text := Join('\n', rows) + "\n";
  }

  /** `index_tab` */
  method IndexTab(document: seq<Entry>) returns (text: string)
    ensures text == TabText(HEADER, document)
  {
    text := TabUnder(HEADER, document);
  }

  predicate Clean(s: string) {
    '\t' !in s && '\n' !in s
  }

  ghost predicate CleanEntry(e: Entry) {
    && Clean(e.version) && e.files != []
    && (forall t :: t in e.files ==> Clean(t) && ',' !in t)
    && (forall f :: f in e.fields ==> Clean(e.fields[f].text))
  }

  lemma ColumnsAreClean(e: Entry)
    requires CleanEntry(e)
    ensures forall c :: c in Columns(e) ==> Clean(c)
  {
    JoinAvoids(',', e.files, '\t');
    JoinAvoids(',', e.files, '\n');
  }

  lemma HeaderIsClean()
    ensures forall c :: c in HEADER ==> Clean(c)
  {
  }

  lemma RowReadsBack(e: Entry)
    requires CleanEntry(e)
    ensures '\n' !in Join('\t', Columns(e)) && Split('\t', Join('\t', Columns(e))) == Columns(e)
    ensures Split(',', Columns(e)[2]) == e.files
  {
    ColumnsAreClean(e);
    JoinAvoids('\t', Columns(e), '\n');
    SplitJoin('\t', Columns(e));
    SplitJoin(',', e.files);
  }

  lemma RowsSplit(header: seq<string>, document: seq<Entry>)
    requires header != [] && forall c :: c in header ==> Clean(c)
    requires forall e :: e in document ==> CleanEntry(e)
    ensures Split('\n', TabText(header, document)) == [Join('\t', header)] + Rows(document) + [""]
    ensures Split('\t', Join('\t', header)) == header
  {
    var rows := [Join('\t', header)] + Rows(document);
    JoinAvoids('\t', header, '\n');
    SplitJoin('\t', header);
    forall r | r in rows + [""] ensures '\n' !in r {
      if r in Rows(document) {
        var i :| 0 <= i < |document| && Rows(document)[i] == r;
        RowReadsBack(document[i]);
      }
    }
    JoinClosed('\n', rows);
    SplitJoin('\n', rows + [""]);
  }

  lemma TabReadsBack(header: seq<string>, document: seq<Entry>)
    requires header != [] && forall c :: c in header ==> Clean(c)
    requires forall e :: e in document ==> CleanEntry(e)
    ensures var lines := Split('\n', TabText(header, document));
      && |lines| == |document| + 2 && lines[|document| + 1] == ""
      && Split('\t', lines[0]) == header
      && forall i :: 0 <= i < |document| ==>
           Split('\t', lines[i + 1]) == Columns(document[i]) && Split(',', Columns(document[i])[2]) == document[i].files
  {
    RowsSplit(header, document);
    var lines := Split('\n', TabText(header, document));
    forall i | 0 <= i < |document|
      ensures Split('\t', lines[i + 1]) == Columns(document[i]) && Split(',', Columns(document[i])[2]) == document[i].files
    {
      RowReadsBack(document[i]);
      assert lines[i + 1] == Rows(document)[i];
    }
  }

  /** Splitting the document on newline, tab and comma gives back the header and, for every entry
      and in order, under each header what the entry holds there; only the piece after the final
      newline is empty. */
  lemma IndexTabReadsBack(document: seq<Entry>)
    requires forall e :: e in document ==> CleanEntry(e)
    ensures var lines := Split('\n', TabText(HEADER, document));
      && |lines| == |document| + 2 && lines[|document| + 1] == ""
      && Split('\t', lines[0]) == HEADER
      && forall i :: 0 <= i < |document| ==> RowShows(HEADER, document[i], Split('\t', lines[i + 1]))
  {
    HeaderIsClean();
    TabReadsBack(HEADER, document);
    forall i | 0 <= i < |document|
      ensures RowShows(HEADER, document[i], Columns(document[i]))
    {
      EntryShows(document[i]);
    }
  }

  ghost predicate RowShows(header: seq<string>, e: Entry, row: seq<string>) {
    |row| == |header| && forall c :: 0 <= c < |row| ==> ColumnShows(e, header[c], row[c])
  }

  lemma EntryShows(e: Entry)
    requires CleanEntry(e)
    ensures RowShows(HEADER, e, Columns(e))
  {
    RowReadsBack(e);
    forall c | 0 <= c < |Columns(e)|
      ensures |HEADER| == 11 && ColumnShows(e, HEADER[c], Columns(e)[c])
    {
      ColumnsUnderHeaders(e, c);
    }
  }

  // ---------------------------------------------------------------- what makes entries clean

  /** A release tag is clean exactly when it does not end in the newline `$` tolerates. */
  lemma ReleaseTagIsClean(tag: string)
    requires IsReleaseTag(tag)
    ensures Clean(tag) <==> !HasSuffix(tag, "\n")
  {
    var ok := (c: char) => c != '\t' && c != '\n';
    TryFindsExactlyTheMatches(ReleaseDirectoryPattern(), tag);
    assert Within(DirectoryTail(), ok);
    assert Within(DirectoryCore(), ok);
    MatchCharacters(ReleaseDirectoryPattern(), tag, ok);
    if HasSuffix(tag, "\n") {
      assert tag[|tag| - 1..][0] == '\n';
    }
    if tag != "" {
      assert tag[|tag| - 1..] == [tag[|tag| - 1]];
    }
  }

  lemma FieldsAreClean(overlay: map<string, Value>)
    requires forall f :: f in overlay ==> Clean(overlay[f].text)
    ensures forall f :: f in Fields(overlay) ==> Clean(Fields(overlay)[f].text)
  {
    assert Clean(FALSE.text);
  }

  lemma TokensAreCleanText(files: seq<NodeFile>)
    requires forall f :: f in files ==> ParseNodeFilename(f.filename) == Some(f)
    ensures forall t :: t in Tokens(files) ==> Clean(t) && ',' !in t
  {
    forall t | t in Tokens(files) ensures Clean(t) && ',' !in t {
      var f :| f in files && FileToken(f) == t;
      FileTokenIsSeparatorFree(f.filename);
    }
  }

  /** An entry built from parsed files and a clean overlay is clean, so the document reads back. */
  lemma IndexedEntriesAreClean(tag: string, files: seq<NodeFile>, meta: map<string, map<string, Value>>)
    requires IsReleaseTag(tag) && !HasSuffix(tag, "\n")
    requires files != [] && forall f :: f in files ==> ParseNodeFilename(f.filename) == Some(f)
    requires forall k, f :: k in meta && f in meta[k] ==> Clean(meta[k][f].text)
    ensures CleanEntry(EntryOf(tag, files, meta))
  {
    ReleaseTagIsClean(tag);
    var sorted := Sort(false, ByName(), files);
    forall f | f in sorted ensures ParseNodeFilename(f.filename) == Some(f) {
      SortKeepsElements(false, ByName(), files, f);
    }
    assert |multiset(sorted)| == |multiset(files)|;
    TokensAreCleanText(sorted);
    FieldsAreClean(if tag in meta then meta[tag] else map[]);
  }

  // --------------------------------------------------------------------------- SHASUMS256.txt

  function Line(digest: string, filename: string): string {
    digest + "  " + filename
  }

  function Lines(files: seq<NodeFile>, digests: map<string, string>): (r: seq<string>)
    requires forall f :: f in files ==> f.filename in digests
    ensures |r| == |files| && forall i :: 0 <= i < |files| ==> r[i] == Line(digests[files[i].filename], files[i].filename)
  {
    seq(|files|, i requires 0 <= i < |files| => Line(digests[files[i].filename], files[i].filename))
  }

  /** `shasums`, for the files of a known release and the digest of each. */
  function Shasums(files: seq<NodeFile>, digests: map<string, string>): string
    requires forall f :: f in files ==> f.filename in digests
  {
    var sorted := Sort(false, ByName(), files);
    SortedFilesHaveDigests(files, digests);
    Join('\n', Lines(sorted, digests)) + "\n"
  }

  lemma SortedFilesHaveDigests(files: seq<NodeFile>, digests: map<string, string>)
    requires forall f :: f in files ==> f.filename in digests
    ensures forall f :: f in Sort(false, ByName(), files) ==> f.filename in digests
  {
    forall f | f in Sort(false, ByName(), files) ensures f.filename in digests {
      SortKeepsElements(false, ByName(), files, f);
    }
  }

  /** A checksum line read back: the text before the first space, and what follows two spaces. */
  function ReadLine(line: string): (string, string) {
    if line == "" then ("", "")
    else if line[0] == ' ' then ("", if |line| >= 2 then line[2..] else "")
    else var r := ReadLine(line[1..]); ([line[0]] + r.0, r.1)
  }

  function ReadLines(lines: seq<string>): map<string, string> {
    if lines == [] then map[]
    else
      var m := ReadLines(lines[..|lines| - 1]);
      var line := lines[|lines| - 1];
      if line == "" then m else var r := ReadLine(line); m[r.1 := r.0]
  }

  lemma {:induction false} LineReadsBack(digest: string, filename: string)
    requires ' ' !in digest
    ensures ReadLine(Line(digest, filename)) == (digest, filename)
    decreases |digest|
  {
    if digest == "" {
      assert Line("", filename) == "  " + filename;
    } else {
      assert digest[0] in digest;
      LineReadsBack(digest[1..], filename);
      assert Line(digest, filename)[1..] == Line(digest[1..], filename);
      assert digest == [digest[0]] + digest[1..];
    }
  }

  /** Every file has a digest, and a digest is one word. */
  ghost predicate CleanSums(files: seq<NodeFile>, digests: map<string, string>) {
    forall f :: f in files ==>
      f.filename in digests && ' ' !in digests[f.filename] && '\n' !in digests[f.filename]
  }

  ghost predicate OneLineNames(files: seq<NodeFile>) {
    forall f :: f in files ==> '\n' !in f.filename
  }

  /** The digest of every listed filename. */
  function SumsOf(files: seq<NodeFile>, digests: map<string, string>): map<string, string>
    requires forall f :: f in files ==> f.filename in digests
  {
    map f | f in files :: f.filename := digests[f.filename]
  }

  lemma SumsNext(files: seq<NodeFile>, digests: map<string, string>, f: NodeFile)
    requires f.filename in digests && forall g :: g in files ==> g.filename in digests
    ensures SumsOf(files + [f], digests) == SumsOf(files, digests)[f.filename := digests[f.filename]]
  {
  }

  lemma ReadNext(lines: seq<string>, digest: string, filename: string)
    requires ' ' !in digest
    ensures ReadLines(lines + [Line(digest, filename)]) == ReadLines(lines)[filename := digest]
  {
    LineReadsBack(digest, filename);
    assert (lines + [Line(digest, filename)])[..|lines|] == lines;
    assert Line(digest, filename) != "";
  }

  lemma {:induction false} LinesReadBack(files: seq<NodeFile>, digests: map<string, string>)
    requires CleanSums(files, digests)
    ensures ReadLines(Lines(files, digests)) == SumsOf(files, digests)
    decreases |files|
  {
    if files != [] {
      var n := |files| - 1;
      var f := files[n];
      assert files == files[..n] + [f];
      LinesReadBack(files[..n], digests);
      assert Lines(files, digests) == Lines(files[..n], digests) + [Line(digests[f.filename], f.filename)];
      ReadNext(Lines(files[..n], digests), digests[f.filename], f.filename);
      SumsNext(files[..n], digests, f);
    }
  }

  lemma SumsOfOneLineNames(files: seq<NodeFile>, digests: map<string, string>)
    requires files != [] && CleanSums(files, digests) && OneLineNames(files)
    ensures ReadLines(Split('\n', Shasums(files, digests))) == SumsOf(files, digests)
  {
    var sorted := Sort(false, ByName(), files);
    SortedFilesHaveDigests(files, digests);
    forall f ensures f in sorted <==> f in files {
      SortKeepsElements(false, ByName(), files, f);
    }
    assert files[0] in sorted;
    var lines := Lines(sorted, digests);
    forall l | l in lines ensures '\n' !in l {
      var i :| 0 <= i < |sorted| && lines[i] == l;
      assert sorted[i] in sorted;
    }
    JoinClosed('\n', lines);
    SplitJoin('\n', lines + [""]);
    LinesReadBack(sorted, digests);
    assert (lines + [""])[..|lines|] == lines;
    assert ReadLines(lines + [""]) == ReadLines(lines);
  }

  lemma {:induction false} ReadLineWithin(line: string, c: char)
    requires c !in line
    ensures c !in ReadLine(line).1
    decreases |line|
  {
    if line != "" && line[0] != ' ' {
      ReadLineWithin(line[1..], c);
    }
  }

  lemma {:induction false} ReadNamesWithin(lines: seq<string>, c: char)
    requires forall l :: l in lines ==> c !in l
    ensures forall n :: n in ReadLines(lines) ==> c !in n
    decreases |lines|
  {
    if lines != [] {
      var line := lines[|lines| - 1];
      assert line in lines && forall l :: l in lines[..|lines| - 1] ==> l in lines;
      ReadNamesWithin(lines[..|lines| - 1], c);
      ReadLineWithin(line, c);
    }
  }

  /** Parsing the checksum file recovers exactly the map from filename to digest, when no name
      runs over a line end, and only then. */
  lemma ShasumsReadBack(files: seq<NodeFile>, digests: map<string, string>)
    requires files != [] && CleanSums(files, digests)
    ensures ReadLines(Split('\n', Shasums(files, digests))) == SumsOf(files, digests) <==> OneLineNames(files)
  {
    var read := ReadLines(Split('\n', Shasums(files, digests)));
    SplitWithin('\n', Shasums(files, digests));
    ReadNamesWithin(Split('\n', Shasums(files, digests)), '\n');
    if OneLineNames(files) {
      SumsOfOneLineNames(files, digests);
    } else {
      var f :| f in files && '\n' in f.filename;
      assert f.filename in SumsOf(files, digests) && f.filename !in read;
    }
  }
}
