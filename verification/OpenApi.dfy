/** Component schemas of the OpenAPI document (backend/openapi/spec.py, lines 163-215, 274-279). */
module OpenApi {
  import opened Basics
  import opened TextOrder

  /** A JSON value. Object members are kept in a list, as the dictionaries are only iterated. */
  datatype Json =
    | Text(text: string)
    | Other
    | List(items: seq<Json>)
    | Object(members: seq<Member>)

  datatype Member = Member(name: string, value: Json)

  const PREFIX := "#/components/schemas/"

  /** `ref.rsplit("/", 1)[-1]` */
  function LastSegment(s: string): string {
    if s == "" then ""
    else if s[|s| - 1] == '/' then ""
    else LastSegment(s[..|s| - 1]) + [s[|s| - 1]]
  }

  /** The name an object's own `$ref` member contributes. */
  function OwnRef(members: seq<Member>): set<string> {
    if members == [] then {}
    else if members[0].name == "$ref" then
      if members[0].value.Text? && PREFIX <= members[0].value.text then {LastSegment(members[0].value.text)} else {}
    else OwnRef(members[1..])
  }

  /** `_refs_in` */
  function RefsIn(j: Json): set<string>
    decreases j, 0
  {
    match j
    case Text(_) => {}
    case Other => {}
    case List(items) => RefsInItems(items)
    case Object(members) => OwnRef(members) + RefsInMembers(members)
  }

  function RefsInItems(items: seq<Json>): set<string>
    decreases items, 1
  {
    if items == [] then {} else RefsIn(items[0]) + RefsInItems(items[1..])
  }

  function RefsInMembers(members: seq<Member>): set<string>
    decreases members, 1
  {
    if members == [] then {} else RefsIn(members[0].value) + RefsInMembers(members[1..])
  }

  // ------------------------------------------------------------------- references, by position

  /** The value reached by descending through the given child numbers. */
  function At(j: Json, path: seq<nat>): Option<Json>
    decreases |path|
  {
    if path == [] then Some(j)
    else
      match j
      case List(items) => if path[0] < |items| then At(items[path[0]], path[1..]) else None
      case Object(members) => if path[0] < |members| then At(members[path[0]].value, path[1..]) else None
      case _ => None
  }

  /** The object's `$ref` member is the text of a component reference, and `name` is what stands
      behind its last slash. */
  ghost predicate Refers(members: seq<Member>, name: string) {
    exists i :: IsRef(members, i) && NamesComponent(members[i].value, name)
  }

  predicate IsRef(members: seq<Member>, i: int) {
    0 <= i < |members| && members[i].name == "$ref" && forall k :: 0 <= k < i ==> members[k].name != "$ref"
  }

  ghost predicate NamesComponent(ref: Json, name: string) {
    '/' !in name && exists up :: ref == Text(PREFIX + up + name) && (up == "" || up[|up| - 1] == '/')
  }

  lemma {:induction false} LastSegmentReads(before: string, name: string)
    requires '/' !in name && before != "" && before[|before| - 1] == '/'
    ensures LastSegment(before + name) == name
    decreases |name|
  {
    var s := before + name;
    if name == "" {
      assert s == before;
    } else {
      assert s[..|s| - 1] == before + name[..|name| - 1];
      LastSegmentReads(before, name[..|name| - 1]);
    }
  }

  lemma {:induction false} LastSegmentParts(s: string) returns (before: string)
    ensures s == before + LastSegment(s) && '/' !in LastSegment(s)
    ensures before == "" || before[|before| - 1] == '/'
    decreases |s|
  {
    if s == "" || s[|s| - 1] == '/' {
      before := s;
    } else {
      before := LastSegmentParts(s[..|s| - 1]);
      assert s == s[..|s| - 1] + [s[|s| - 1]];
    }
  }

  lemma SegmentBehindPrefix(t: string, prefix: string) returns (up: string)
    requires prefix <= t && prefix != "" && prefix[|prefix| - 1] == '/'
    ensures '/' !in LastSegment(t) && t == prefix + up + LastSegment(t) && (up == "" || up[|up| - 1] == '/')
  {
    var before := LastSegmentParts(t);
    forall k | |before| <= k < |t| ensures t[k] != '/' {
      assert t[k] == LastSegment(t)[k - |before|];
    }
    assert t[|prefix| - 1] == '/';
    up := before[|prefix|..];
    assert before == prefix + up;
  }

  lemma ReferenceReads(ref: Json, name: string)
    requires NamesComponent(ref, name)
    ensures ref.Text? && PREFIX <= ref.text && LastSegment(ref.text) == name
  {
    var up :| ref == Text(PREFIX + up + name) && (up == "" || up[|up| - 1] == '/');
    LastSegmentReads(PREFIX + up, name);
  }

  lemma {:induction false} OwnRefIs(members: seq<Member>, i: nat)
    requires IsRef(members, i)
    ensures OwnRef(members) == var v := members[i].value;
      if v.Text? && PREFIX <= v.text then {LastSegment(v.text)} else {}
    decreases i
  {
    if i > 0 {
      OwnRefIs(members[1..], i - 1);
    }
  }

  lemma {:induction false} OwnRefOf(members: seq<Member>, name: string) returns (i: nat)
    requires name in OwnRef(members)
    ensures IsRef(members, i)
    decreases |members|
  {
    if members[0].name == "$ref" {
      i := 0;
    } else {
      var k := OwnRefOf(members[1..], name);
      i := k + 1;
    }
  }

  /** An object refers to what its `$ref` member names, and to nothing without one. */
  lemma OwnReference(members: seq<Member>, name: string)
    ensures name in OwnRef(members) <==> Refers(members, name)
  {
    if name in OwnRef(members) {
      var i := OwnRefOf(members, name);
      OwnRefIs(members, i);
      var up := SegmentBehindPrefix(members[i].value.text, PREFIX);
      assert NamesComponent(members[i].value, name);
    }
    if i :| IsRef(members, i) && NamesComponent(members[i].value, name) {
      OwnRefIs(members, i);
      ReferenceReads(members[i].value, name);
    }
  }

  /** A reference spelled with a plain component name refers to exactly that component; without a
      `$ref`, or with one that is no text or points elsewhere, the object itself refers to none. */
  lemma PlainReference(members: seq<Member>, i: nat, name: string)
    requires '/' !in name
    ensures IsRef(members, i) && members[i].value == Text(PREFIX + name) ==>
              forall n :: Refers(members, n) <==> n == name
    ensures IsRef(members, i) && !(members[i].value.Text? && PREFIX <= members[i].value.text) ==>
              forall n :: !Refers(members, n)
    ensures (forall k :: 0 <= k < |members| ==> members[k].name != "$ref") ==> forall n :: !Refers(members, n)
  {
    if IsRef(members, i) {
      OwnRefIs(members, i);
      LastSegmentReads(PREFIX, name);
      forall n ensures Refers(members, n) <==> n in OwnRef(members) {
        OwnReference(members, n);
      }
    }
  }

  ghost predicate RefersAt(j: Json, path: seq<nat>, name: string) {
    var v := At(j, path);
    v.Some? && v.value.Object? && Refers(v.value.members, name)
  }

  lemma {:induction false} RefersIsFound(j: Json, path: seq<nat>, name: string)
    requires RefersAt(j, path, name)
    ensures name in RefsIn(j)
    decreases |path|
  {
    if path == [] {
      OwnReference(j.members, name);
    } else {
      match j
      case List(items) =>
        RefersIsFound(items[path[0]], path[1..], name);
        ItemRefs(items, path[0]);
      case Object(members) =>
        RefersIsFound(members[path[0]].value, path[1..], name);
        MemberRefs(members, path[0]);
    }
  }

  lemma {:induction false} ItemRefs(items: seq<Json>, i: nat)
    requires i < |items|
    ensures RefsIn(items[i]) <= RefsInItems(items)
    decreases i
  {
    if i > 0 {
      ItemRefs(items[1..], i - 1);
    }
  }

  lemma {:induction false} MemberRefs(members: seq<Member>, i: nat)
    requires i < |members|
    ensures RefsIn(members[i].value) <= RefsInMembers(members)
    decreases i
  {
    if i > 0 {
      MemberRefs(members[1..], i - 1);
    }
  }

  lemma {:induction false} FoundRefers(j: Json, name: string) returns (path: seq<nat>)
    requires name in RefsIn(j)
    ensures RefersAt(j, path, name)
    decreases j, 0
  {
    match j
    case List(items) =>
      var i := FoundItem(items, name);
      var rest := FoundRefers(items[i], name);
      path := [i] + rest;
    case Object(members) =>
      if name in OwnRef(members) {
        path := [];
        OwnReference(members, name);
      } else {
        var i := FoundMember(members, name);
        var rest := FoundRefers(members[i].value, name);
        path := [i] + rest;
      }
  }

  lemma {:induction false} FoundItem(items: seq<Json>, name: string) returns (i: nat)
    requires name in RefsInItems(items)
    ensures i < |items| && name in RefsIn(items[i])
    decreases |items|
  {
    if name in RefsIn(items[0]) {
      i := 0;
    } else {
      var k := FoundItem(items[1..], name);
      i := k + 1;
    }
  }

  lemma {:induction false} FoundMember(members: seq<Member>, name: string) returns (i: nat)
    requires name in RefsInMembers(members)
    ensures i < |members| && name in RefsIn(members[i].value)
    decreases |members|
  {
    if name in RefsIn(members[0].value) {
      i := 0;
    } else {
      var k := FoundMember(members[1..], name);
      i := k + 1;
    }
  }

  /** The walk collects a name exactly when some object, at any depth, has it as the last segment
      of a component reference. */
  lemma RefsInIsExact(j: Json, name: string)
    ensures name in RefsIn(j) <==> exists path :: RefersAt(j, path, name)
  {
    if name in RefsIn(j) {
      var path := FoundRefers(j, name);
    }
    if path :| RefersAt(j, path, name) {
      RefersIsFound(j, path, name);
    }
  }

  // ------------------------------------------------------------------------- the worklist

  /** What a model's JSON schema splits into: the document and its `$defs`. */
  datatype Document = Document(body: Json, defs: map<string, Json>)

  datatype Built = Built(schemas: map<string, Json>) | NotAModel(name: string)

  /** `sorted(names, reverse=True)` */
  method SortedDown(names: set<string>) returns (r: seq<string>)
    ensures Strict(true, Id(), r)
    ensures forall n :: n in r <==> n in names
  {
    var left, all := names, [];
    while left != {}
      invariant left <= names && DistinctKeys(Id(), all)
      invariant forall n :: n in all <==> n in names && n !in left
    {
      var n :| n in left;
      left := left - {n};
      all := all + [n];
    }
    r := Sort(true, Id(), all);
    SortIsStrict(true, Id(), all);
    forall n ensures n in r <==> n in all {
      SortKeepsElements(true, Id(), all, n);
    }
  }

  /** The names a run can ever emit. */
  function Universe(roots: set<string>, models: map<string, Document>): set<string> {
    roots + set m, d | m in models && d in models[m].defs :: d
  }

  /** Reachable from the paths: referenced there, or a definition of a model referenced there. */
  ghost predicate Reachable(roots: set<string>, models: map<string, Document>, n: string) {
    n in roots || exists m :: m in roots && m in models && n in models[m].defs
  }

  /** Every reference of a model's document is to the model or to one of its definitions. */
  ghost predicate SelfContained(models: map<string, Document>) {
    forall m, n :: m in models ==>
      (n in RefsIn(models[m].body) ==> n == m || n in models[m].defs)
      && forall d :: d in models[m].defs && n in RefsIn(models[m].defs[d]) ==> n == m || n in models[m].defs
  }

  ghost predicate Closed(schemas: map<string, Json>) {
    forall n, r :: n in schemas && r in RefsIn(schemas[n]) ==> r in schemas
  }

  /** One name, one meaning: a model's document is `content` of its name and so is each definition. */
  ghost predicate Coherent(models: map<string, Document>, content: map<string, Json>) {
    forall m :: m in models ==>
      m in content && models[m].body == content[m]
      && forall d :: d in models[m].defs ==> d in content && models[m].defs[d] == content[d]
  }

  ghost predicate Agrees(schemas: map<string, Json>, content: map<string, Json>) {
    forall n :: n in schemas ==> n in content && schemas[n] == content[n]
  }

  /** The components after one model: its new definitions are hoisted, then its document is set. */
  function Emitted(schemas: map<string, Json>, name: string, d: Document): map<string, Json> {
    schemas + (map n | n in d.defs && n !in schemas :: d.defs[n]) + map[name := d.body]
  }

  lemma EmittedKeys(schemas: map<string, Json>, name: string, d: Document)
    ensures Emitted(schemas, name, d).Keys == schemas.Keys + d.defs.Keys + {name}
  {
  }

  lemma EmittedStaysClosed(schemas: map<string, Json>, name: string, models: map<string, Document>)
    requires name in models && SelfContained(models) && Closed(schemas)
    ensures Closed(Emitted(schemas, name, models[name]))
  {
    var d := models[name];
    var after := Emitted(schemas, name, d);
    forall n, r | n in after && r in RefsIn(after[n]) ensures r in after {
      if n == name {
        assert after[n] == d.body;
      } else if n in schemas {
        assert after[n] == schemas[n];
      } else {
        assert after[n] == d.defs[n];
      }
    }
  }

  /** The definitions a list of names adds. */
  function Hoisted(schemas: map<string, Json>, d: Document, names: seq<string>): map<string, Json> {
    map n | n in names && n in d.defs && n !in schemas :: d.defs[n]
  }

  lemma HoistedNext(schemas: map<string, Json>, d: Document, names: seq<string>, i: nat)
    requires i < |names| && names[i] in d.defs
    ensures var m := schemas + Hoisted(schemas, d, names[..i]);
      schemas + Hoisted(schemas, d, names[..i + 1]) == if names[i] in m then m else m[names[i] := d.defs[names[i]]]
  {
    assert names[..i + 1] == names[..i] + [names[i]];
  }

  lemma HoistedNone(schemas: map<string, Json>, d: Document, names: seq<string>)
    requires names == []
    ensures schemas + Hoisted(schemas, d, names) == schemas
  {
  }

  lemma HoistedAll(schemas: map<string, Json>, d: Document, names: seq<string>)
    requires forall n :: n in names <==> n in d.defs
    ensures Hoisted(schemas, d, names) == map n | n in d.defs && n !in schemas :: d.defs[n]
  {
  }

  /** Hoists the definitions that are new, in descending order, and queues each. */
  method Hoist(schemas0: map<string, Json>, pending0: seq<string>, d: Document)
    returns (schemas: map<string, Json>, pending: seq<string>)
    ensures schemas == schemas0 + map n | n in d.defs && n !in schemas0 :: d.defs[n]
    ensures pending0 <= pending && forall i :: |pending0| <= i < |pending| ==> pending[i] in d.defs
  {
    schemas, pending := schemas0, pending0;
    var names := SortedDown(d.defs.Keys);
    HoistedNone(schemas0, d, names[..0]);
    for i := 0 to |names|
      invariant schemas == schemas0 + Hoisted(schemas0, d, names[..i])
      invariant pending0 <= pending && forall k :: |pending0| <= k < |pending| ==> pending[k] in d.defs
    {
      var name := names[i];
      assert name in names;
      HoistedNext(schemas0, d, names, i);
      if name !in schemas {
        schemas := schemas[name := d.defs[name]];
        pending := pending + [name];
      }
    }
    assert names[..|names|] == names;
    HoistedAll(schemas0, d, names);
  }

  /** What holds each time the loop tests its stack. */
  ghost predicate Progress(roots: set<string>, models: map<string, Document>, content: map<string, Json>,
                           schemas: map<string, Json>, pending: seq<string>) {
    && (forall n :: n in roots ==> n in schemas || n in pending)
    && (forall n :: n in pending ==> n in roots || n in schemas)
    && (forall n :: n in schemas ==> Reachable(roots, models, n))
    && (SelfContained(models) ==> Closed(schemas))
    && (Coherent(models, content) ==> Agrees(schemas, content))
  }

  lemma ProgressSkip(roots: set<string>, models: map<string, Document>, content: map<string, Json>,
                     schemas: map<string, Json>, pending: seq<string>)
    requires pending != [] && pending[|pending| - 1] in schemas && Progress(roots, models, content, schemas, pending)
    ensures Progress(roots, models, content, schemas, pending[..|pending| - 1])
  {
    assert pending == pending[..|pending| - 1] + [pending[|pending| - 1]];
  }

  lemma EmittedAgrees(schemas: map<string, Json>, name: string, models: map<string, Document>, content: map<string, Json>)
    requires name in models && Coherent(models, content) && Agrees(schemas, content)
    ensures Agrees(Emitted(schemas, name, models[name]), content)
  {
  }

  lemma EmittedReachable(roots: set<string>, schemas: map<string, Json>, name: string, models: map<string, Document>)
    requires name in models && name in roots && forall n :: n in schemas ==> Reachable(roots, models, n)
    ensures forall n :: n in Emitted(schemas, name, models[name]) ==> Reachable(roots, models, n)
  {
    EmittedKeys(schemas, name, models[name]);
  }

  lemma ProgressEmit(roots: set<string>, models: map<string, Document>, content: map<string, Json>,
                     schemas: map<string, Json>, pending: seq<string>, name: string, pending': seq<string>)
    requires pending != [] && pending[|pending| - 1] == name && name !in schemas && name in models
    requires Progress(roots, models, content, schemas, pending)
    requires pending[..|pending| - 1] <= pending'
    requires forall n :: n in pending' ==> n in pending[..|pending| - 1] || n in models[name].defs
    ensures Progress(roots, models, content, Emitted(schemas, name, models[name]), pending')
    ensures name in roots
  {
    var d := models[name];
    assert pending == pending[..|pending| - 1] + [name];
    EmittedKeys(schemas, name, d);
    EmittedReachable(roots, schemas, name, models);
    if SelfContained(models) {
      EmittedStaysClosed(schemas, name, models);
    }
    if Coherent(models, content) {
      EmittedAgrees(schemas, name, models, content);
    }
  }

  lemma UniverseShrinks(roots: set<string>, models: map<string, Document>, schemas: map<string, Json>, name: string)
    requires name in models && name in roots && name !in schemas
    ensures Universe(roots, models) - Emitted(schemas, name, models[name]).Keys < Universe(roots, models) - schemas.Keys
  {
    EmittedKeys(schemas, name, models[name]);
    assert name in Universe(roots, models) - schemas.Keys;
  }

  method EmitModel(schemas0: map<string, Json>, pending0: seq<string>, name: string, d: Document)
    returns (schemas: map<string, Json>, pending: seq<string>)
    ensures schemas == Emitted(schemas0, name, d)
    ensures pending0 <= pending && forall i :: |pending0| <= i < |pending| ==> pending[i] in d.defs
  {
    schemas, pending := Hoist(schemas0, pending0, d);
    schemas := schemas[name := d.body];
  }

  // ------------------------------------------------------------- in which order, to what effect

  /** The components once the references are worked off from the last of the stack to the first:
      one that is there by then is skipped. */
  function WorkedOff(stack: seq<string>, models: map<string, Document>): map<string, Json> {
    if stack == [] then map[]
    else
      var before := WorkedOff(stack[1..], models);
      if stack[0] in before || stack[0] !in models then before else Emitted(before, stack[0], models[stack[0]])
  }

  /** Part of the stack is worked off; above what is left lie hoisted names, which are skipped. */
  ghost predicate Halfway(stack: seq<string>, j: nat, models: map<string, Document>, schemas: map<string, Json>, pending: seq<string>) {
    && j <= |stack| && j <= |pending| && pending[..j] == stack[..j]
    && schemas == WorkedOff(stack[j..], models)
    && (forall i :: j <= i < |pending| ==> pending[i] in schemas)
    && forall k :: j <= k < |stack| ==> Available(stack, models, k)
  }

  /** A reference is a model, or a definition that one worked off earlier has brought along. */
  predicate Available(stack: seq<string>, models: map<string, Document>, k: nat)
    requires k < |stack|
  {
    stack[k] in models || stack[k] in WorkedOff(stack[k + 1..], models)
  }

  lemma HalfwayFurther(stack: seq<string>, j: nat, models: map<string, Document>)
    requires 0 < j <= |stack|
    ensures var before, name := WorkedOff(stack[j..], models), stack[j - 1];
      WorkedOff(stack[j - 1..], models) == if name in before || name !in models then before else Emitted(before, name, models[name])
  {
    assert stack[j - 1..][1..] == stack[j..];
  }

  lemma HalfwaySkip(stack: seq<string>, j: nat, models: map<string, Document>, schemas: map<string, Json>, pending: seq<string>) returns (k: nat)
    requires Halfway(stack, j, models, schemas, pending) && pending != [] && pending[|pending| - 1] in schemas
    ensures Halfway(stack, k, models, schemas, pending[..|pending| - 1])
  {
    var rest := pending[..|pending| - 1];
    k := j;
    if |pending| == j {
      HalfwayFurther(stack, j, models);
      assert pending == stack[..j];
      k := j - 1;
      assert rest[..k] == stack[..k];
    } else {
      assert rest[..j] == pending[..j];
    }
  }

  lemma HalfwayEmit(stack: seq<string>, j: nat, models: map<string, Document>, schemas: map<string, Json>, pending: seq<string>, pending': seq<string>)
    requires Halfway(stack, j, models, schemas, pending) && pending != []
    requires var name := pending[|pending| - 1];
      && name !in schemas && name in models && pending[..|pending| - 1] <= pending'
      && forall i :: |pending| - 1 <= i < |pending'| ==> pending'[i] in models[name].defs
    ensures j > 0 && Halfway(stack, j - 1, models, Emitted(schemas, pending[|pending| - 1], models[pending[|pending| - 1]]), pending')
  {
    var name := pending[|pending| - 1];
    assert |pending| == j && pending == stack[..j];
    HalfwayFurther(stack, j, models);
    EmittedKeys(schemas, name, models[name]);
    assert pending'[..j - 1] == pending[..j - 1] == stack[..j - 1];
  }

  lemma HalfwayStop(stack: seq<string>, j: nat, models: map<string, Document>, schemas: map<string, Json>, pending: seq<string>)
    requires Halfway(stack, j, models, schemas, pending) && pending != []
    requires pending[|pending| - 1] !in schemas && pending[|pending| - 1] !in models
    ensures Outcome(stack, models, NotAModel(pending[|pending| - 1]))
  {
    assert |pending| == j && pending == stack[..j];
    assert FirstUnavailable(stack, models, j - 1) && stack[j - 1] == pending[j - 1];
  }

  /** The references in the order in which the stack holds them, the smallest on top. */
  ghost predicate StackOf(stack: seq<string>, names: set<string>) {
    Strict(true, Id(), stack) && forall n :: n in stack <==> n in names
  }

  /** Success exactly when every reference is available, with the result of working them off in
      ascending order; otherwise the first that is not. */
  ghost predicate Outcome(stack: seq<string>, models: map<string, Document>, r: Built) {
    match r
    case Built(schemas) =>
      (forall k :: 0 <= k < |stack| ==> Available(stack, models, k)) && schemas == WorkedOff(stack, models)
    case NotAModel(name) =>
      exists k :: 0 <= k < |stack| && FirstUnavailable(stack, models, k) && stack[k] == name
  }

  ghost predicate FirstUnavailable(stack: seq<string>, models: map<string, Document>, k: nat)
    requires k < |stack|
  {
    !Available(stack, models, k) && forall i :: k < i < |stack| ==> Available(stack, models, i)
  }

  /** `_build_schemas`. It always ends, with the outcome above; a success covers every reference
      of the paths, emits nothing unreachable, is closed under references when each document is
      self-contained, and gives each name its one meaning. */
  method BuildSchemas(paths: Json, models: map<string, Document>, ghost content: map<string, Json>) returns (r: Built)
    ensures r.NotAModel? ==> r.name in RefsIn(paths) && r.name !in models
    ensures r.Built? ==> RefsIn(paths) <= r.schemas.Keys
    ensures r.Built? ==> forall n :: n in r.schemas ==> Reachable(RefsIn(paths), models, n)
    ensures r.Built? && SelfContained(models) ==> Closed(r.schemas)
    ensures r.Built? && Coherent(models, content) ==> Agrees(r.schemas, content)
    ensures forall stack :: StackOf(stack, RefsIn(paths)) ==> Outcome(stack, models, r)
  {
    ghost var roots := RefsIn(paths);
    var pending := SortedDown(RefsIn(paths));
    var schemas: map<string, Json> := map[];
    ghost var stack: seq<string>, j: nat := pending, |pending|;
    OneStack(stack, roots);
    while pending != []
      invariant Progress(roots, models, content, schemas, pending)
      invariant Halfway(stack, j, models, schemas, pending)
      decreases Universe(roots, models) - schemas.Keys, |pending|
    {
      var name := pending[|pending| - 1];
      if name in schemas {
        ProgressSkip(roots, models, content, schemas, pending);
        j := HalfwaySkip(stack, j, models, schemas, pending);
        pending := pending[..|pending| - 1];
        continue;
      }
      if name !in models {
        assert name in pending;
        HalfwayStop(stack, j, models, schemas, pending);
        return NotAModel(name);
      }
      ghost var before, was := schemas, pending;
      schemas, pending := EmitModel(schemas, pending[..|pending| - 1], name, models[name]);
      ProgressEmit(roots, models, content, before, was, name, pending);
      HalfwayEmit(stack, j, models, before, was, pending);
      j := j - 1;
      UniverseShrinks(roots, models, before, name);
    }
    assert stack[0..] == stack;
    r := Built(schemas);
  }

  lemma OneStack(stack: seq<string>, names: set<string>)
    requires StackOf(stack, names)
    ensures forall other :: StackOf(other, names) ==> other == stack
  {
    forall other | StackOf(other, names) ensures other == stack {
      StrictUnique(true, Id(), other, stack);
    }
  }

  /** A reference's own document is emitted unless one emitted earlier lists it. */
  predicate Emits(stack: seq<string>, models: map<string, Document>, k: nat)
    requires k < |stack|
    decreases |stack| - k
  {
    stack[k] in models &&
    forall j | k < j < |stack| && stack[j] in models && stack[k] in models[stack[j]].defs :: !Emits(stack, models, j)
  }

  ghost predicate Provides(stack: seq<string>, models: map<string, Document>, j: nat, n: string)
    requires j < |stack|
  {
    Emits(stack, models, j) && (n == stack[j] || n in models[stack[j]].defs)
  }

  /** What is there once the stack is worked off down to `k`: what was emitted and what that lists. */
  lemma {:induction false} WorkedOffKeys(stack: seq<string>, models: map<string, Document>, k: nat, n: string)
    requires k <= |stack| && AllDistinct(stack)
    ensures n in WorkedOff(stack[k..], models) <==> exists j | k <= j < |stack| :: Provides(stack, models, j, n)
    decreases |stack| - k
  {
    if k < |stack| {
      var before := WorkedOff(stack[k + 1..], models);
      HalfwayFurther(stack, k + 1, models);
      WorkedOffKeys(stack, models, k + 1, n);
      WorkedOffKeys(stack, models, k + 1, stack[k]);
      EmitsWhenAbsent(stack, models, k);
      if Emits(stack, models, k) {
        EmittedKeys(before, stack[k], models[stack[k]]);
      }
      assert n in WorkedOff(stack[k..], models) <==> n in before || Provides(stack, models, k, n);
    }
  }

  lemma EmitsWhenAbsent(stack: seq<string>, models: map<string, Document>, k: nat)
    requires k < |stack| && AllDistinct(stack)
    requires stack[k] in WorkedOff(stack[k + 1..], models) <==> exists j | k + 1 <= j < |stack| :: Provides(stack, models, j, stack[k])
    ensures Emits(stack, models, k) <==> stack[k] in models && stack[k] !in WorkedOff(stack[k + 1..], models)
  {
    forall j | k + 1 <= j < |stack|
      ensures Provides(stack, models, j, stack[k]) <==> Emits(stack, models, j) && stack[k] in models[stack[j]].defs
    {
    }
  }

  /** What is there stays as it is: only an absent name is ever set. */
  lemma {:induction false} WorkedOffKeeps(stack: seq<string>, models: map<string, Document>, k: nat, n: string)
    requires k <= |stack| && n in WorkedOff(stack[k..], models)
    ensures n in WorkedOff(stack, models) && WorkedOff(stack, models)[n] == WorkedOff(stack[k..], models)[n]
    decreases k
  {
    if k == 0 {
      assert stack[0..] == stack;
    } else {
      HalfwayFurther(stack, k, models);
      WorkedOffKeeps(stack, models, k - 1, n);
    }
  }

  lemma {:induction false} HoistedFrom(stack: seq<string>, models: map<string, Document>, k: nat, n: string) returns (j: nat)
    requires k <= |stack| && AllDistinct(stack) && n in WorkedOff(stack[k..], models) && n !in stack[k..]
    ensures k <= j < |stack| && Emits(stack, models, j) && n in models[stack[j]].defs
    ensures WorkedOff(stack[k..], models)[n] == models[stack[j]].defs[n]
    decreases |stack| - k
  {
    HalfwayFurther(stack, k + 1, models);
    if n in WorkedOff(stack[k + 1..], models) {
      j := HoistedFrom(stack, models, k + 1, n);
    } else {
      j := k;
      WorkedOffKeys(stack, models, k + 1, stack[k]);
      EmitsWhenAbsent(stack, models, k);
    }
  }

  /** An earlier reference saves a later one's listed definition from being overwritten. */
  ghost predicate Saves(stack: seq<string>, models: map<string, Document>, j: nat, k: nat) {
    k < j < |stack| && Emits(stack, models, j) && stack[k] in models[stack[j]].defs
  }

  /** The component of a name the paths refer to is the name's own document, exactly when no
      reference emitted earlier lists the name; otherwise it is the definition one of them lists. */
  lemma ComponentOfReference(stack: seq<string>, models: map<string, Document>, k: nat)
    requires k < |stack| && AllDistinct(stack) && stack[k] in models
    ensures var n := stack[k];
      && n in WorkedOff(stack, models)
      && if Emits(stack, models, k) then WorkedOff(stack, models)[n] == models[n].body
         else exists j: nat :: Saves(stack, models, j, k) && WorkedOff(stack, models)[n] == models[stack[j]].defs[n]
    ensures Emits(stack, models, k) <==> !exists j: nat :: Saves(stack, models, j, k)
  {
    var n := stack[k];
    HalfwayFurther(stack, k + 1, models);
    WorkedOffKeys(stack, models, k + 1, n);
    EmitsWhenAbsent(stack, models, k);
    WorkedOffKeeps(stack, models, k, n);
    if !Emits(stack, models, k) {
      assert n !in stack[k + 1..];
      var j := HoistedFrom(stack, models, k + 1, n);
      assert Saves(stack, models, j, k);
    }
  }

  /** A document that lists itself among its definitions (a recursive model, whose document is a
      bare reference) loses that definition, exactly when no reference emitted earlier lists it. */
  lemma SelfListedDefinitionIsLost(stack: seq<string>, models: map<string, Document>, k: nat)
    requires k < |stack| && AllDistinct(stack) && stack[k] in models
    requires stack[k] in models[stack[k]].defs && models[stack[k]].defs[stack[k]] != models[stack[k]].body
    requires forall m :: m in models && stack[k] in models[m].defs ==> models[m].defs[stack[k]] == models[stack[k]].defs[stack[k]]
    ensures stack[k] in WorkedOff(stack, models)
    ensures WorkedOff(stack, models)[stack[k]] == models[stack[k]].defs[stack[k]] <==> exists j: nat :: Saves(stack, models, j, k)
    ensures WorkedOff(stack, models)[stack[k]] == models[stack[k]].body <==> !exists j: nat :: Saves(stack, models, j, k)
  {
    ComponentOfReference(stack, models, k);
  }

  /** As the only reference it is lost. */
  lemma SelfListedAlone(name: string, d: Document)
    requires name in d.defs && d.body == Object([Member("$ref", Text(PREFIX + name))]) && d.defs[name] != d.body
    ensures WorkedOff([name], map[name := d])[name] == d.body != d.defs[name]
  {
    var stack, models := [name], map[name := d];
    SelfListedDefinitionIsLost(stack, models, 0);
    assert forall j: nat :: !Saves(stack, models, j, 0);
  }

  datatype Spec = Spec(schemas: map<string, Json>) | MissingModel(name: string) | Unresolved(names: set<string>)

  /** The part of `build_spec` about components: its own unresolved-reference check never fires,
      and when every reference of the paths is a model the build succeeds. */
  method BuildSpec(paths: Json, models: map<string, Document>) returns (r: Spec)
    ensures !r.Unresolved?
    ensures RefsIn(paths) <= models.Keys ==> r.Spec?
    ensures r.Spec? ==> forall stack :: StackOf(stack, RefsIn(paths)) ==> Outcome(stack, models, Built(r.schemas))
    ensures r.MissingModel? ==> forall stack :: StackOf(stack, RefsIn(paths)) ==> Outcome(stack, models, NotAModel(r.name))
    ensures r.Spec? && SelfContained(models) ==> Closed(r.schemas)
  {
    var built := BuildSchemas(paths, models, map[]);
    if built.NotAModel? {
      return MissingModel(built.name);
    }
    var unresolved := RefsIn(paths) - built.schemas.Keys;
    if unresolved != {} {
      return Unresolved(unresolved);
    }
    r := Spec(built.schemas);
  }
}
