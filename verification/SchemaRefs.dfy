/** Which definitions an emitted trust schema carries: the closure of `$ref` over a finite table. */
module SchemaRefs {
  import opened Json
  import opened Wrappers

  const REF := "$ref"
  const DEFS_PREFIX := "#/$defs/"

  /** `removeprefix`: a reference that does not start with the prefix stays as it is. */
  function StripPrefix(text: string): string {
    if DEFS_PREFIX <= text then text[|DEFS_PREFIX|..] else text
  }

  /** Spelled out: what follows the prefix, or the whole text. */
  lemma StripMeaning(text: string)
    ensures forall name :: text == "#/$defs/" + name ==> StripPrefix(text) == name
    ensures !("#/$defs/" <= text) ==> StripPrefix(text) == text
    ensures REF == "$ref"
  {
    forall name | text == "#/$defs/" + name
      ensures StripPrefix(text) == name
    {
      assert text[|DEFS_PREFIX|..] == name;
    }
  }

  /** Some `$ref` inside `v` names `name`; the value of a `$ref` is not searched further. */
  ghost predicate Refers(v: Json, name: string) {
    match v
    case Object(members) =>
      exists key :: key in members &&
        if key == REF then members[key].Text? && StripPrefix(members[key].text) == name
        else Refers(members[key], name)
    case Array(items) => exists i :: 0 <= i < |items| && Refers(items[i], name)
    case _ => false
  }

  /** Every `$ref` inside `v` is a string. */
  ghost predicate RefsAreText(v: Json) {
    match v
    case Object(members) =>
      forall key :: key in members ==> if key == REF then members[key].Text? else RefsAreText(members[key])
    case Array(items) => forall i :: 0 <= i < |items| ==> RefsAreText(items[i])
    case _ => true
  }

  datatype Failure = RefNotText | UndefinedReference

  /** `used_refs`: walks objects and lists, adding to one result set. */
  method UsedRefs(v: Json) returns (r: Option<set<string>>)
    ensures r.Some? <==> RefsAreText(v)
    ensures r.Some? ==> forall name :: name in r.value <==> Refers(v, name)
    decreases v
  {
    var result: set<string> := {};
    match v {
      case Object(members) =>
        var left := members.Keys;
        while left != {}
          invariant left <= members.Keys
          invariant forall key :: key in members && key !in left ==>
                      if key == REF then members[key].Text? else RefsAreText(members[key])
          invariant forall name :: name in result <==>
                      exists key :: key in members && key !in left &&
                        if key == REF then members[key].Text? && StripPrefix(members[key].text) == name
                        else Refers(members[key], name)
        {
          var key :| key in left;
          if key == REF {
            if !members[key].Text? {
              return None;
            }
            result := result + {StripPrefix(members[key].text)};
          } else {
            var inner := UsedRefs(members[key]);
            if inner.None? {
              return None;
            }
            result := result + inner.value;
          }
          left := left - {key};
        }
      case Array(items) =>
        for i := 0 to |items|
          invariant forall j :: 0 <= j < i ==> RefsAreText(items[j])
          invariant forall name :: name in result <==> exists j :: 0 <= j < i && Refers(items[j], name)
        {
          var inner := UsedRefs(items[i]);
          if inner.None? {
            return None;
          }
          result := result + inner.value;
        }
      case _ =>
    }
    return Some(result);
  }

  // ---------------------------------------------------------------- reachability

  /** A chain of references: from the schema's body to a name, then from definition to definition. */
  ghost predicate Chain(body: Json, defs: map<string, Json>, names: seq<string>) {
    && names != [] && Refers(body, names[0])
    && forall i :: 0 <= i < |names| - 1 ==> names[i] in defs && Refers(defs[names[i]], names[i + 1])
  }

  ghost predicate Reachable(body: Json, defs: map<string, Json>, name: string) {
    exists names :: Chain(body, defs, names) && names[|names| - 1] == name
  }

  /** A set that holds what the body refers to and is closed under the definitions it names. */
  ghost predicate Closed(body: Json, defs: map<string, Json>, s: set<string>) {
    && (forall name :: Refers(body, name) ==> name in s)
    && (forall k, name :: k in s && k in defs && Refers(defs[k], name) ==> name in s)
  }

  lemma ReachableStep(body: Json, defs: map<string, Json>, k: string, name: string)
    requires Reachable(body, defs, k) && k in defs && Refers(defs[k], name)
    ensures Reachable(body, defs, name)
  {
    var names :| Chain(body, defs, names) && names[|names| - 1] == k;
    var longer := names + [name];
    assert Chain(body, defs, longer) && longer[|longer| - 1] == name;
  }

  lemma ReachableBase(body: Json, defs: map<string, Json>, name: string)
    requires Refers(body, name)
    ensures Reachable(body, defs, name)
  {
    assert Chain(body, defs, [name]);
  }

  lemma {:induction false} ChainStaysInside(body: Json, defs: map<string, Json>, s: set<string>, names: seq<string>,
                                            i: nat)
    requires Closed(body, defs, s) && Chain(body, defs, names) && i < |names|
    ensures names[i] in s
  {
    if i > 0 {
      ChainStaysInside(body, defs, s, names, i - 1);
      assert names[i - 1] in defs && Refers(defs[names[i - 1]], names[i - 1 + 1]);
    }
  }

  /** What is reachable lies in every closed set: the reachable names are the least one. */
  lemma ReachableIsLeast(body: Json, defs: map<string, Json>, s: set<string>, name: string)
    requires Closed(body, defs, s) && Reachable(body, defs, name)
    ensures name in s
  {
    var names :| Chain(body, defs, names) && names[|names| - 1] == name;
    ChainStaysInside(body, defs, s, names, |names| - 1);
  }

  // ---------------------------------------------------------------- the loop

  /** The closure can be computed: every reachable name is defined and every `$ref` on the way is a string. */
  ghost predicate Computable(body: Json, defs: map<string, Json>) {
    && RefsAreText(body)
    && forall name :: Reachable(body, defs, name) ==> name in defs && RefsAreText(defs[name])
  }

  /** A round is possible when every needed name is a definition whose references can be read. */
  ghost predicate Usable(needed: set<string>, defs: map<string, Json>) {
    forall k :: k in needed ==> k in defs && RefsAreText(defs[k])
  }

  /** `expanded` is `needed` and whatever its definitions refer to. */
  ghost predicate Round(needed: set<string>, expanded: set<string>, defs: map<string, Json>) {
    && needed <= expanded
    && forall name :: name in expanded <==>
         name in needed || exists k :: k in needed && k in defs && Refers(defs[k], name)
  }

  /** One round: the union of what the needed definitions use. A missing definition stops it. */
  method Expand(needed: set<string>, defs: map<string, Json>) returns (r: Result<set<string>, Failure>)
    ensures r.Ok? <==> Usable(needed, defs)
    ensures r.Ok? ==> Round(needed, r.value, defs)
    ensures r == Err(UndefinedReference) ==> !(needed <= defs.Keys)
  {
    var expanded := needed;
    var left := needed;
    while left != {}
      invariant left <= needed <= expanded
      invariant forall k :: k in needed && k !in left ==> k in defs && RefsAreText(defs[k])
      invariant forall name :: name in expanded <==>
                  name in needed || exists k :: k in needed && k !in left && k in defs && Refers(defs[k], name)
    {
      var k :| k in left;
      if k !in defs {
        return Err(UndefinedReference);
      }
      var used := UsedRefs(defs[k]);
      if used.None? {
        return Err(RefNotText);
      }
      expanded := expanded + used.value;
      left := left - {k};
    }
    return Ok(expanded);
  }

  /** Every needed name is reachable, and what the body itself refers to is needed. */
  ghost predicate Justified(body: Json, defs: map<string, Json>, needed: set<string>) {
    && (forall name :: Refers(body, name) ==> name in needed)
    && (forall name :: name in needed ==> Reachable(body, defs, name))
  }

  lemma BaseJustified(body: Json, defs: map<string, Json>, needed: set<string>)
    requires forall name :: name in needed <==> Refers(body, name)
    ensures Justified(body, defs, needed)
  {
    forall name | name in needed
      ensures Reachable(body, defs, name)
    {
      ReachableBase(body, defs, name);
    }
  }

  lemma ExpandJustified(body: Json, defs: map<string, Json>, needed: set<string>, expanded: set<string>)
    requires Justified(body, defs, needed) && Round(needed, expanded, defs)
    ensures Justified(body, defs, expanded)
  {
    forall name | name in expanded
      ensures Reachable(body, defs, name)
    {
      if name !in needed {
        var k :| k in needed && k in defs && Refers(defs[k], name);
        ReachableStep(body, defs, k, name);
      }
    }
  }

  /** At the fixpoint the needed names are the reachable ones. */
  lemma FixpointIsReachable(body: Json, defs: map<string, Json>, needed: set<string>)
    requires Justified(body, defs, needed) && Round(needed, needed, defs) && RefsAreText(body) && Usable(needed, defs)
    ensures forall name :: name in needed <==> Reachable(body, defs, name)
    ensures Computable(body, defs)
  {
    assert Closed(body, defs, needed);
    forall name | Reachable(body, defs, name)
      ensures name in needed
    {
      ReachableIsLeast(body, defs, needed, name);
    }
  }

  ghost predicate Exactly(body: Json, defs: map<string, Json>, needed: set<string>) {
    forall name :: name in needed <==> Reachable(body, defs, name)
  }

  ghost predicate SomeUndefined(body: Json, defs: map<string, Json>) {
    exists name :: Reachable(body, defs, name) && name !in defs
  }

  ghost function Rank(keys: set<string>, needed: set<string>): (nat, nat) {
    (|keys - needed|, if needed <= keys then 1 else 0)
  }

  method OneRound(body: Json, defs: map<string, Json>, needed: set<string>) returns (r: Result<set<string>, Failure>)
    requires RefsAreText(body) && Justified(body, defs, needed)
    ensures r.Ok? ==> Justified(body, defs, r.value)
    ensures r.Ok? && r.value == needed ==> Exactly(body, defs, needed) && Computable(body, defs)
    ensures r.Ok? && r.value != needed ==>
              var before, after := Rank(defs.Keys, needed), Rank(defs.Keys, r.value);
              after.0 < before.0 || (after.0 == before.0 && after.1 < before.1)
    ensures r.Err? ==> !Computable(body, defs)
    ensures r == Err(UndefinedReference) ==> SomeUndefined(body, defs)
  {
    r := Expand(needed, defs);
    if r.Err? {
      return;
    }
    assert needed <= defs.Keys;
    ExpandJustified(body, defs, needed, r.value);
    if r.value == needed {
      FixpointIsReachable(body, defs, needed);
    } else {
      Progress(defs.Keys, needed, r.value);
    }
  }

  /** The loop of `generate` for one schema. It ends, and yields exactly the reachable names. */
  method NeededDefinitions(body: Json, defs: map<string, Json>) returns (r: Result<set<string>, Failure>)
    ensures r.Ok? <==> Computable(body, defs)
    ensures r.Ok? ==> Exactly(body, defs, r.value)
    ensures r == Err(UndefinedReference) ==> SomeUndefined(body, defs)
  {
    var used := UsedRefs(body);
    if used.None? {
      return Err(RefNotText);
    }
    var needed := used.value;
    BaseJustified(body, defs, needed);
    while true
      invariant Justified(body, defs, needed)
      decreases Rank(defs.Keys, needed).0, Rank(defs.Keys, needed).1
    {
      var expanded := OneRound(body, defs, needed);
      if expanded.Err? {
        return expanded;
      }
      if expanded.value == needed {
        return expanded;
      }
      needed := expanded.value;
    }
  }

  /** A round that adds something uses up a definition, or adds an undefined name and is the last but one. */
  lemma Progress(keys: set<string>, needed: set<string>, expanded: set<string>)
    requires needed <= keys && needed < expanded
    ensures |keys - expanded| < |keys - needed| || (|keys - expanded| == |keys - needed| && !(expanded <= keys))
  {
    var gone := expanded * keys - needed;
    assert keys - needed == (keys - expanded) + gone;
    assert |keys - needed| == |keys - expanded| + |gone|;
    if gone == {} {
      var x :| x in expanded && x !in needed;
      assert x !in keys;
    }
  }

  // ---------------------------------------------------------------- the emitted schema

  /** The `$defs` written out. */
  function Emitted(defs: map<string, Json>, needed: set<string>): map<string, Json>
    requires needed <= defs.Keys
  {
    map k | k in needed :: defs[k]
  }

  /** By the names that the script reads out of references, an emitted schema is self-contained and carries
      nothing else: every name used in its body or in its definitions is a definition it has, and every
      definition it has is reached from its body by references that stay inside it. */
  lemma EmittedIsExact(body: Json, defs: map<string, Json>, needed: set<string>)
    requires Computable(body, defs) && forall name :: name in needed <==> Reachable(body, defs, name)
    ensures needed <= defs.Keys
    ensures forall name :: Refers(body, name) ==> name in Emitted(defs, needed)
    ensures forall k, name :: k in Emitted(defs, needed) && Refers(defs[k], name) ==> name in Emitted(defs, needed)
    ensures forall k :: k in Emitted(defs, needed) ==> Reachable(body, Emitted(defs, needed), k)
  {
    forall name | Refers(body, name)
      ensures name in needed
    {
      ReachableBase(body, defs, name);
    }
    forall k, name | k in needed && Refers(defs[k], name)
      ensures name in needed
    {
      ReachableStep(body, defs, k, name);
    }
    assert needed <= defs.Keys;
    var out := Emitted(defs, needed);
    forall k | k in out
      ensures Reachable(body, out, k)
    {
      var names :| Chain(body, defs, names) && names[|names| - 1] == k;
      forall i | 0 <= i < |names|
        ensures names[i] in out
      {
        PrefixReachable(body, defs, names, i);
      }
      assert Chain(body, out, names);
    }
  }

  lemma PrefixReachable(body: Json, defs: map<string, Json>, names: seq<string>, i: nat)
    requires Chain(body, defs, names) && i < |names|
    ensures Reachable(body, defs, names[i])
  {
    assert Chain(body, defs, names[..i + 1]) && names[..i + 1][i] == names[i];
  }

  // ---------------------------------------------------------------- the references as written

  /** Some `$ref` inside `v` has this very text. */
  ghost predicate HasRef(v: Json, text: string) {
    match v
    case Object(members) =>
      exists key :: key in members &&
        if key == REF then members[key] == Text(text) else HasRef(members[key], text)
    case Array(items) => exists i :: 0 <= i < |items| && HasRef(items[i], text)
    case _ => false
  }

  lemma {:induction false} RefNames(v: Json, text: string)
    requires HasRef(v, text)
    ensures Refers(v, StripPrefix(text))
    decreases v
  {
    match v
    case Object(members) =>
      var key :| key in members && if key == REF then members[key] == Text(text) else HasRef(members[key], text);
      if key != REF {
        RefNames(members[key], text);
      }
    case Array(items) =>
      var i :| 0 <= i < |items| && HasRef(items[i], text);
      RefNames(items[i], text);
    case _ =>
  }

  /** A character that stands for itself in a JSON Pointer within a URI fragment. */
  predicate Plain(c: char) {
    c != '~' && c != '/' && c != '%'
  }

  predicate PlainName(name: string) {
    forall c :: c in name ==> Plain(c)
  }

  /** The pointer token, inside a fragment, that denotes a key: sections 3 and 6 of RFC 6901. */
  function Token(name: string): string {
    if name == [] then [] else TokenOf(name[0]) + Token(name[1..])
  }

  function TokenOf(c: char): string {
    match c
    case '~' => "~0"
    case '/' => "~1"
    case '%' => "%25"
    case _ => [c]
  }

  /** Only plain names are their own token. */
  lemma {:induction false} TokenLength(name: string)
    ensures |Token(name)| >= |name|
    ensures |Token(name)| == |name| ==> PlainName(name)
    ensures PlainName(name) ==> Token(name) == name
  {
    if name != [] {
      TokenLength(name[1..]);
      assert name == [name[0]] + name[1..];
      assert |TokenOf(name[0])| >= 1 && (|TokenOf(name[0])| == 1 <==> Plain(name[0]));
      if PlainName(name) {
        assert name[0] in name && forall c :: c in name[1..] ==> c in name;
      }
    }
  }

  /** The reference points at the definition that the script took it to mean, and the schema has it. */
  predicate Resolves(text: string, out: map<string, Json>) {
    StripPrefix(text) in out && text == DEFS_PREFIX + Token(StripPrefix(text))
  }

  /** A text that names a definition the way the script reads it: the prefix, then a plain name. */
  predicate WellWritten(text: string) {
    DEFS_PREFIX <= text && PlainName(text[|DEFS_PREFIX|..])
  }

  lemma ResolvesIff(text: string, out: map<string, Json>)
    ensures Resolves(text, out) <==> StripPrefix(text) in out && WellWritten(text)
  {
    var name := StripPrefix(text);
    TokenLength(name);
    if DEFS_PREFIX <= text {
      assert text == DEFS_PREFIX + name;
      assert text == DEFS_PREFIX + Token(name) <==> name == Token(name);
    } else {
      assert |DEFS_PREFIX + Token(name)| > |text|;
    }
  }

  /** Every `$ref` text of a schema's body and of its definitions. */
  ghost predicate Written(body: Json, out: map<string, Json>, text: string) {
    HasRef(body, text) || exists k :: k in out && HasRef(out[k], text)
  }

  /** Every `$ref` of an emitted schema resolves in its `$defs` if and only if every `$ref` text is the prefix
      followed by a plain name. Nothing in the script checks that. */
  lemma AllResolveIff(body: Json, defs: map<string, Json>, needed: set<string>)
    requires Computable(body, defs) && forall name :: name in needed <==> Reachable(body, defs, name)
    ensures needed <= defs.Keys
    ensures var out := Emitted(defs, needed);
            (forall text :: Written(body, out, text) ==> Resolves(text, out)) <==>
            (forall text :: Written(body, out, text) ==> WellWritten(text))
  {
    EmittedIsExact(body, defs, needed);
    var out := Emitted(defs, needed);
    forall text | Written(body, out, text)
      ensures Resolves(text, out) <==> WellWritten(text)
    {
      WrittenIsEmitted(body, defs, needed, text);
      ResolvesIff(text, out);
    }
  }

  /** Whatever is written, the definition that the script takes it to mean is emitted. */
  lemma WrittenIsEmitted(body: Json, defs: map<string, Json>, needed: set<string>, text: string)
    requires Computable(body, defs) && forall name :: name in needed <==> Reachable(body, defs, name)
    requires needed <= defs.Keys && Written(body, Emitted(defs, needed), text)
    ensures StripPrefix(text) in Emitted(defs, needed)
  {
    EmittedIsExact(body, defs, needed);
    if HasRef(body, text) {
      RefNames(body, text);
    } else {
      var k :| k in Emitted(defs, needed) && HasRef(Emitted(defs, needed)[k], text);
      RefNames(defs[k], text);
    }
  }

  /** A schema whose body is one reference. */
  function OneReference(text: string): Json {
    Object(map[REF := Text(text)])
  }

  /** The script emits it for every text whose name is defined, well written or not. */
  lemma OneReferenceEmitted(text: string)
    ensures var body, defs, needed := OneReference(text), map[StripPrefix(text) := Object(map[])], {StripPrefix(text)};
            && Computable(body, defs) && (forall name :: name in needed <==> Reachable(body, defs, name))
            && Written(body, Emitted(defs, needed), text)
            && (Resolves(text, Emitted(defs, needed)) <==> WellWritten(text))
  {
    var name := StripPrefix(text);
    var body, defs := OneReference(text), map[name := Object(map[])];
    OnlyName(text);
    ReachableBase(body, defs, name);
    forall other | Reachable(body, defs, other)
      ensures other == name
    {
      var names :| Chain(body, defs, names) && names[|names| - 1] == other;
      if |names| > 1 {
        assert Refers(defs[names[0]], names[0 + 1]);
      }
    }
    assert body.members[REF] == Text(text);
    ResolvesIff(text, Emitted(defs, {name}));
  }

  lemma OnlyName(text: string)
    ensures forall name :: Refers(OneReference(text), name) <==> name == StripPrefix(text)
    ensures RefsAreText(OneReference(text))
  {
    var members := OneReference(text).members;
    assert members[REF] == Text(text);
    forall name
      ensures Refers(OneReference(text), name) <==> name == StripPrefix(text)
    {
      if name == StripPrefix(text) {
        assert REF in members;
      }
    }
  }

  lemma BadlyWritten()
    ensures !WellWritten("sha256") && !WellWritten("#/$defs/a/b")
  {
    var rest := "#/$defs/a/b"[|DEFS_PREFIX|..];
    assert rest[1] == '/' && rest[1] in rest;
    assert "sha256"[0] != DEFS_PREFIX[0];
  }

  /** The script emits schemas with dangling references: one without the prefix, one with a slash in its name. */
  lemma DanglingIsEmitted(text: string)
    requires text == "sha256" || text == "#/$defs/a/b"
    ensures var body, defs, needed := OneReference(text), map[StripPrefix(text) := Object(map[])], {StripPrefix(text)};
            && Computable(body, defs) && (forall name :: name in needed <==> Reachable(body, defs, name))
            && Written(body, Emitted(defs, needed), text) && !Resolves(text, Emitted(defs, needed))
  {
    BadlyWritten();
    OneReferenceEmitted(text);
  }
}
