/** Pruning of JSON schemas (internal/mcp/optimize.go): annotation keywords go, everything that validates stays. */
module SchemaModel {
  import opened Options

  datatype Json = Null | Bool(b: bool) | Num(n: int) | Str(text: string) | Arr(items: seq<Json>) | Obj(members: map<string, Json>)

  const REMOVED: set<string> := {
    "$schema", "$id", "title", "examples", "example", "deprecated", "readOnly", "writeOnly",
    "contentMediaType", "contentEncoding"}

  /** A keyword that pruning deletes: listed, or a vendor extension. */
  predicate Removable(key: string) {
    key in REMOVED || "x-" <= key
  }

  datatype Treatment = AsProperties | AsNested | AsArray | AsIs

  function TreatmentOf(key: string): Treatment {
    if key == "properties" then AsProperties
    else if key in {"items", "$defs", "definitions", "if", "then", "else", "not"} then AsNested
    else if key in {"anyOf", "oneOf", "allOf", "prefixItems"} then AsArray
    else AsIs
  }

  function Prune(v: Json): Json
    decreases v, 2
  {
    if v.Obj? then Obj(map k | k in v.members && !Removable(k) :: PruneMember(TreatmentOf(k), v.members[k])) else v
  }

  function PruneMember(t: Treatment, v: Json): Json
    decreases v, 3
  {
    match t
    case AsProperties => PruneMembers(v)
    case AsNested => if v.Obj? then PruneMembers(v) else PruneArray(v)
    case AsArray => PruneArray(v)
    case AsIs => v
  }

  function PruneMembers(v: Json): Json
    decreases v, 2
  {
    if v.Obj? then Obj(map k | k in v.members :: Prune(v.members[k])) else v
  }

  function PruneArray(v: Json): Json
    decreases v, 2
  {
    if v.Arr? then Arr(seq(|v.items|, i requires 0 <= i < |v.items| => Prune(v.items[i]))) else v
  }

  // ---------------------------------------------------------------- what a schema means

  /** The parts of a schema that other keywords may look at: property names, and how many leading items
      have schemas of their own. */
  datatype Shape = Shape(names: set<string>, prefix: nat, tuple: nat)

  /** The meaning of all keywords that are not spelled out below. It may depend on their values, on the shape,
      on the instance, and on which instances any schema accepts. */
  type Leaf = (map<string, Json>, Shape, iset<(Json, Json)>, Json) -> bool

  /** Keywords whose meaning is spelled out below: those that hold schemas, and references. */
  predicate Spelled(key: string) {
    key in {"$ref", "$defs", "definitions", "properties", "items", "prefixItems", "allOf", "anyOf", "oneOf",
            "not", "if", "then", "else"}
  }

  /** Keywords that put no demand on an instance: what names a schema and its dialect, annotations, and vendor
      extensions. */
  predicate Annotation(key: string) {
    || key in {"$id", "$schema", "title", "example", "examples", "deprecated", "readOnly", "writeOnly",
               "contentEncoding", "contentMediaType"}
    || (|key| >= 2 && key[0] == 'x' && key[1] == '-')
  }

  /** All the others, `required`, `type` and `enum` among them. */
  function Others(m: map<string, Json>): map<string, Json> {
    map k | k in m && !Annotation(k) && !Spelled(k) :: m[k]
  }

  function Count(m: map<string, Json>, key: string): nat {
    if key in m && m[key].Arr? then |m[key].items| else 0
  }

  function ShapeOf(m: map<string, Json>): Shape {
    Shape(if "properties" in m && m["properties"].Obj? then m["properties"].members.Keys else {},
          Count(m, "prefixItems"), Count(m, "items"))
  }

  ghost predicate PropertiesHold(m: map<string, Json>, sub: iset<(Json, Json)>, inst: Json) {
    "properties" in m && m["properties"].Obj? && inst.Obj? ==>
      forall k | k in m["properties"].members && k in inst.members :: (m["properties"].members[k], inst.members[k]) in sub
  }

  /** The schema array `s` applied position by position. */
  ghost predicate PositionsHold(s: Json, sub: iset<(Json, Json)>, inst: Json) {
    s.Arr? && inst.Arr? ==> forall i | 0 <= i < |s.items| && i < |inst.items| :: (s.items[i], inst.items[i]) in sub
  }

  /** `items`: a schema for everything past the prefix, or an array of schemas. */
  ghost predicate ItemsHold(m: map<string, Json>, sub: iset<(Json, Json)>, inst: Json) {
    "items" in m ==>
      && PositionsHold(m["items"], sub, inst)
      && (!m["items"].Arr? && inst.Arr? ==>
            forall i | Count(m, "prefixItems") <= i < |inst.items| :: (m["items"], inst.items[i]) in sub)
  }

  ghost predicate PrefixHolds(m: map<string, Json>, sub: iset<(Json, Json)>, inst: Json) {
    "prefixItems" in m ==> PositionsHold(m["prefixItems"], sub, inst)
  }

  ghost predicate AllHold(m: map<string, Json>, sub: iset<(Json, Json)>, inst: Json) {
    "allOf" in m && m["allOf"].Arr? ==> forall i | 0 <= i < |m["allOf"].items| :: (m["allOf"].items[i], inst) in sub
  }

  ghost predicate AnyHolds(m: map<string, Json>, sub: iset<(Json, Json)>, inst: Json) {
    "anyOf" in m && m["anyOf"].Arr? ==> exists i :: 0 <= i < |m["anyOf"].items| && (m["anyOf"].items[i], inst) in sub
  }

  ghost predicate OneHolds(m: map<string, Json>, sub: iset<(Json, Json)>, inst: Json) {
    "oneOf" in m && m["oneOf"].Arr? ==>
      exists i :: 0 <= i < |m["oneOf"].items| && (m["oneOf"].items[i], inst) in sub
        && forall j | 0 <= j < |m["oneOf"].items| && j != i :: (m["oneOf"].items[j], inst) !in sub
  }

  ghost predicate Holds(m: map<string, Json>, key: string, sub: iset<(Json, Json)>, inst: Json) {
    key in m ==> (m[key], inst) in sub
  }

  ghost predicate ConditionsHold(m: map<string, Json>, sub: iset<(Json, Json)>, inst: Json) {
    && ("not" in m ==> (m["not"], inst) !in sub)
    && ("if" in m ==> if (m["if"], inst) in sub then Holds(m, "then", sub, inst) else Holds(m, "else", sub, inst))
  }

  // ---------------------------------------------------------------- references

  /** The reference tokens of a JSON pointer (section 3 of RFC 6901), still escaped. */
  function Cut(text: string): (tokens: seq<string>)
    ensures tokens != []
  {
    if text == "" then [""]
    else
      var rest := Cut(text[1..]);
      if text[0] == '/' then [""] + rest else [[text[0]] + rest[0]] + rest[1..]
  }

  /** `~1` stands for a slash, `~0` for a tilde. */
  function Unescape(token: string): string {
    if |token| < 2 then token
    else if token[0] == '~' && token[1] == '1' then "/" + Unescape(token[2..])
    else if token[0] == '~' && token[1] == '0' then "~" + Unescape(token[2..])
    else [token[0]] + Unescape(token[1..])
  }

  function UnescapeAll(tokens: seq<string>): (r: seq<string>)
    ensures |r| == |tokens|
  {
    seq(|tokens|, i requires 0 <= i < |tokens| => Unescape(tokens[i]))
  }

  /** A reference into the document by position: a JSON pointer as a URI fragment without percent-encoding. */
  predicate Pointer(ref: string) {
    (ref == "#" || "#/" <= ref) && '%' !in ref
  }

  function Tokens(ref: string): seq<string>
    requires Pointer(ref)
  {
    if ref == "#" then [] else UnescapeAll(Cut(ref[2..]))
  }

  predicate Digit(c: char) {
    '0' <= c <= '9'
  }

  function Number(digits: string): nat
    requires forall i | 0 <= i < |digits| :: Digit(digits[i])
  {
    if digits == "" then 0
    else
      var last := digits[|digits| - 1];
      assert Digit(last);
      10 * Number(digits[..|digits| - 1]) + (last - '0') as nat
  }

  /** An array index: digits without a leading zero. */
  function Index(token: string): Option<nat> {
    if token != "" && (forall i | 0 <= i < |token| :: Digit(token[i])) && (token[0] != '0' || |token| == 1)
    then Some(Number(token)) else None
  }

  /** The member or item a token names. */
  function Enter(v: Json, token: string): Option<Json> {
    match v
    case Obj(m) => if token in m then Some(m[token]) else None
    case Arr(s) => if Index(token).Some? && Index(token).value < |s| then Some(s[Index(token).value]) else None
    case _ => None
  }

  function Walk(v: Json, path: seq<string>): Option<Json> {
    if path == [] then Some(v)
    else
      var next := Enter(v, path[0]);
      if next.None? then None else Walk(next.value, path[1..])
  }

  function Definition(root: Json, section: string, name: string): Option<Json> {
    Walk(root, [section, name])
  }

  predicate HasId(s: Json, id: string) {
    s.Obj? && "$id" in s.members && s.members["$id"] == Str(id)
  }

  ghost predicate DefinedWithId(root: Json, section: string, name: string, id: string) {
    Definition(root, section, name).Some? && HasId(Definition(root, section, name).value, id)
  }

  /** References by `$id`: to the root or to one of its definitions. */
  ghost function ById(root: Json, id: string): Option<Json> {
    if HasId(root, id) then Some(root)
    else if exists name :: DefinedWithId(root, "$defs", name, id) then
      var name :| DefinedWithId(root, "$defs", name, id); Definition(root, "$defs", name)
    else if exists name :: DefinedWithId(root, "definitions", name, id) then
      var name :| DefinedWithId(root, "definitions", name, id); Definition(root, "definitions", name)
    else None
  }

  ghost function Resolve(root: Json, ref: string): Option<Json> {
    if Pointer(ref) then Walk(root, Tokens(ref)) else ById(root, ref)
  }

  predicate HasRef(m: map<string, Json>) {
    "$ref" in m && m["$ref"].Str?
  }

  ghost predicate ReferenceHolds(m: map<string, Json>, sub: iset<(Json, Json)>, root: Json, inst: Json) {
    HasRef(m) ==> Resolve(root, m["$ref"].text).Some? && (Resolve(root, m["$ref"].text).value, inst) in sub
  }

  // ---------------------------------------------------------------- readings

  /** What the keywords other than `$ref` demand of an instance, given what every schema accepts. */
  ghost predicate MeetsOwn(leaf: Leaf, sub: iset<(Json, Json)>, m: map<string, Json>, inst: Json) {
    && leaf(Others(m), ShapeOf(m), sub, inst)
    && PropertiesHold(m, sub, inst) && ItemsHold(m, sub, inst) && PrefixHolds(m, sub, inst)
    && AllHold(m, sub, inst) && AnyHolds(m, sub, inst) && OneHolds(m, sub, inst)
    && ConditionsHold(m, sub, inst)
  }

  /** What a schema demands. */
  ghost predicate Meets(leaf: Leaf, sub: iset<(Json, Json)>, root: Json, s: Json, inst: Json) {
    match s
    case Bool(b) => b
    case Obj(m) => MeetsOwn(leaf, sub, m, inst) && ReferenceHolds(m, sub, root, inst)
    case _ => false
  }

  /** `a` holds the pairs of a schema and an instance it accepts. It is a reading of the document `root` when
      every schema accepts exactly what it demands, references into the document included. */
  ghost predicate Solves(leaf: Leaf, root: Json, a: iset<(Json, Json)>) {
    forall t, inst :: (t, inst) in a <==> Meets(leaf, a, root, t, inst)
  }

  const SINGLE: set<string> := {"items", "if", "then", "else", "not"}

  /** Every reference anywhere in the tree is one of those allowed. */
  predicate Refs(ok: string -> bool, v: Json) {
    match v
    case Obj(m) => (HasRef(m) ==> ok(m["$ref"].text)) && forall k | k in m :: Refs(ok, m[k])
    case Arr(s) => forall i | 0 <= i < |s| :: Refs(ok, s[i])
    case _ => true
  }

  function Never(): string -> bool {
    ref => false
  }

  function Always(): string -> bool {
    ref => true
  }

  /** No `$id` anywhere in the tree. */
  predicate Unnamed(v: Json) {
    match v
    case Obj(m) => !("$id" in m && m["$id"].Str?) && forall k | k in m :: Unnamed(m[k])
    case Arr(s) => forall i | 0 <= i < |s| :: Unnamed(s[i])
    case _ => true
  }

  /** The equations of the schemas whose references are among those allowed. */
  ghost predicate Reading(leaf: Leaf, ok: string -> bool, root: Json, a: iset<(Json, Json)>) {
    forall t, inst | Refs(ok, t) :: (t, inst) in a <==> Meets(leaf, a, root, t, inst)
  }
}

/** What pruning does to any JSON tree. */
module SchemaShape {
  import opened Options
  import opened SchemaModel

  /** Free of anything pruning would change. */
  predicate Clean(v: Json)
    decreases v, 2
  {
    v.Obj? ==> forall k | k in v.members :: !Removable(k) && CleanMember(TreatmentOf(k), v.members[k])
  }

  predicate CleanMember(t: Treatment, v: Json)
    decreases v, 3
  {
    match t
    case AsProperties => CleanMembers(v)
    case AsNested => CleanMembers(v) && CleanArray(v)
    case AsArray => CleanArray(v)
    case AsIs => true
  }

  predicate CleanMembers(v: Json)
    decreases v, 2
  {
    v.Obj? ==> forall k | k in v.members :: Clean(v.members[k])
  }

  predicate CleanArray(v: Json)
    decreases v, 2
  {
    v.Arr? ==> forall i | 0 <= i < |v.items| :: Clean(v.items[i])
  }

  /** Pruning is the identity exactly on clean trees. */
  lemma {:induction false} FixedPoints(v: Json)
    ensures Prune(v) == v <==> Clean(v)
    decreases v, 2
  {
    if v.Obj? {
      forall k | k in v.members ensures PruneMember(TreatmentOf(k), v.members[k]) == v.members[k] <==> CleanMember(TreatmentOf(k), v.members[k]) {
        FixedMembers(TreatmentOf(k), v.members[k]);
      }
      if Prune(v) == v {
        forall k | k in v.members ensures !Removable(k) && CleanMember(TreatmentOf(k), v.members[k]) {
          assert k in Prune(v).members;
        }
      }
    }
  }

  lemma {:induction false} FixedMembers(t: Treatment, v: Json)
    ensures PruneMember(t, v) == v <==> CleanMember(t, v)
    decreases v, 3
  {
    if v.Obj? {
      forall k | k in v.members ensures Prune(v.members[k]) == v.members[k] <==> Clean(v.members[k]) {
        FixedPoints(v.members[k]);
      }
      if PruneMembers(v) == v {
        forall k | k in v.members ensures Clean(v.members[k]) { assert PruneMembers(v).members[k] == v.members[k]; }
      }
    }
    if v.Arr? {
      forall i | 0 <= i < |v.items| ensures Prune(v.items[i]) == v.items[i] <==> Clean(v.items[i]) {
        FixedPoints(v.items[i]);
      }
      if PruneArray(v) == v {
        forall i | 0 <= i < |v.items| ensures Clean(v.items[i]) { assert PruneArray(v).items[i] == v.items[i]; }
      }
    }
  }

  lemma {:induction false} PruneCleans(v: Json)
    ensures Clean(Prune(v))
    decreases v, 2
  {
    if v.Obj? {
      forall k | k in v.members ensures CleanMember(TreatmentOf(k), PruneMember(TreatmentOf(k), v.members[k])) {
        PruneCleansMember(TreatmentOf(k), v.members[k]);
      }
    }
  }

  lemma {:induction false} PruneCleansMember(t: Treatment, v: Json)
    ensures CleanMember(t, PruneMember(t, v))
    decreases v, 3
  {
    if v.Obj? {
      forall k | k in v.members ensures Clean(Prune(v.members[k])) { PruneCleans(v.members[k]); }
    }
    if v.Arr? {
      forall i | 0 <= i < |v.items| ensures Clean(Prune(v.items[i])) { PruneCleans(v.items[i]); }
    }
  }

  /** Pruning twice is pruning once. */
  lemma Idempotent(v: Json)
    ensures Prune(Prune(v)) == Prune(v)
  {
    PruneCleans(v);
    FixedPoints(Prune(v));
  }

  /** `a` is `b` with some members left out. */
  predicate Within(a: Json, b: Json)
    decreases b
  {
    match b
    case Obj(m) => a.Obj? && (forall k | k in a.members :: k in m && Within(a.members[k], m[k]))
    case Arr(s) => a.Arr? && |a.items| == |s| && (forall i | 0 <= i < |s| :: Within(a.items[i], s[i]))
    case _ => a == b
  }

  lemma {:induction false} WithinItself(v: Json)
    ensures Within(v, v)
  {
    if v.Obj? { forall k | k in v.members ensures Within(v.members[k], v.members[k]) { WithinItself(v.members[k]); } }
    if v.Arr? { forall i | 0 <= i < |v.items| ensures Within(v.items[i], v.items[i]) { WithinItself(v.items[i]); } }
  }

  /** Pruning never adds or alters a node. */
  lemma {:induction false} NeverAdds(v: Json)
    ensures Within(Prune(v), v)
    decreases v, 2
  {
    if v.Obj? {
      forall k | k in v.members ensures Within(PruneMember(TreatmentOf(k), v.members[k]), v.members[k]) {
        MemberNeverAdds(TreatmentOf(k), v.members[k]);
      }
    } else {
      WithinItself(v);
    }
  }

  lemma {:induction false} MemberNeverAdds(t: Treatment, v: Json)
    ensures Within(PruneMember(t, v), v)
    decreases v, 3
  {
    WithinItself(v);
    if v.Obj? { forall k | k in v.members ensures Within(Prune(v.members[k]), v.members[k]) { NeverAdds(v.members[k]); } }
    if v.Arr? { forall i | 0 <= i < |v.items| ensures Within(Prune(v.items[i]), v.items[i]) { NeverAdds(v.items[i]); } }
  }

  /** How the removable keywords begin. */
  lemma RemovableBegins(key: string)
    requires Removable(key)
    ensures |key| >= 2
    ensures key[0] in {'$', 't', 'e', 'd', 'r', 'w', 'c', 'x'}
    ensures key[1] in {'s', 'i', 'x', 'e', 'r', 'o', '-'}
    ensures key[0] == '$' ==> key[1] in {'s', 'i'}
    ensures key[0] == 'd' ==> |key| >= 3 && key[2] == 'p'
    ensures key[0] == 't' ==> key[1] == 'i'
    ensures key[0] == 'e' ==> key[1] == 'x'
  {
  }

  /** Pruning deletes the annotations and nothing else, and goes into the keywords that hold schemas and into
      nothing else. */
  lemma Vocabulary(key: string)
    ensures Removable(key) <==> Annotation(key)
    ensures Spelled(key) <==> !TreatmentOf(key).AsIs? || key == "$ref"
  {
    assert "x-" <= key <==> |key| >= 2 && key[0] == 'x' && key[1] == '-';
  }

  /** No keyword that holds schemas is removable. */
  lemma SpelledStay(key: string)
    requires Spelled(key)
    ensures !Removable(key)
  {
    if Removable(key) { RemovableBegins(key); }
  }

  /** How each keyword is treated. */
  lemma Treatments()
    ensures TreatmentOf("properties") == AsProperties
    ensures forall k | k in {"items", "$defs", "definitions", "if", "then", "else", "not"} :: TreatmentOf(k) == AsNested
    ensures forall k | k in {"anyOf", "oneOf", "allOf", "prefixItems"} :: TreatmentOf(k) == AsArray
    ensures TreatmentOf("$ref") == AsIs
  {
    assert "properties"[0] == 'p' && "properties"[1] == 'r' && "properties"[2] == 'o' && "prefixItems"[2] == 'e';
    assert "$ref"[0] == '$' && "$ref"[1] == 'r' && "$defs"[1] == 'd';
  }

  lemma KeptMember(v: Json, key: string)
    requires v.Obj? && Spelled(key)
    ensures Prune(v).Obj? && (key in Prune(v).members <==> key in v.members)
    ensures key in v.members ==> Prune(v).members[key] == PruneMember(TreatmentOf(key), v.members[key])
  {
    SpelledStay(key);
  }

  /** A schema keeps all its properties and positions. */
  lemma KeepsShape(v: Json)
    requires v.Obj?
    ensures Prune(v).Obj? && ShapeOf(Prune(v).members) == ShapeOf(v.members)
  {
    Treatments();
    KeptMember(v, "properties");
    KeptMember(v, "prefixItems");
    KeptMember(v, "items");
    if "properties" in v.members && v.members["properties"].Obj? {
      assert Prune(v).members["properties"].members.Keys == v.members["properties"].members.Keys;
    }
  }

  /** Every keyword that is neither an annotation nor holds schemas stays with its value, so whatever it demands
      of an instance is still demanded. */
  lemma KeepsOthers(v: Json)
    requires v.Obj?
    ensures Prune(v).Obj? && Others(Prune(v).members) == Others(v.members)
  {
    forall k | k in v.members && !Annotation(k) && !Spelled(k)
      ensures k in Prune(v).members && Prune(v).members[k] == v.members[k]
    {
      Vocabulary(k);
    }
  }

  /** Exactly ten keywords and the vendor extensions go. */
  lemma GoneExactly(v: Json, k: string)
    requires v.Obj? && k in v.members
    ensures k !in Prune(v).members <==>
            || k in {"$schema", "$id", "title", "examples", "example", "deprecated", "readOnly", "writeOnly",
                     "contentMediaType", "contentEncoding"}
            || (|k| >= 2 && k[..2] == "x-")
  {
    Vocabulary(k);
  }

  /** What stays of a keyword's value: the schemas in it are pruned where the source looks for schemas, and the
      rest is as it was. */
  lemma StaysExactly(v: Json, k: string)
    requires v.Obj? && k in Prune(v).members
    ensures k in v.members
    ensures var was, now := v.members[k], Prune(v).members[k];
      if k in {"properties", "items", "$defs", "definitions", "if", "then", "else", "not"} && was.Obj? then
        now.Obj? && now.members.Keys == was.members.Keys && forall n | n in was.members :: now.members[n] == Prune(was.members[n])
      else if k in {"items", "$defs", "definitions", "if", "then", "else", "not", "anyOf", "oneOf", "allOf", "prefixItems"} && was.Arr? then
        now.Arr? && |now.items| == |was.items| && forall i | 0 <= i < |was.items| :: now.items[i] == Prune(was.items[i])
      else now == was
  {
    ValueBelow(TreatmentOf(k), v.members[k]);
    Treatments();
    assert k == "properties" ==> k !in {"items", "$defs", "definitions", "if", "then", "else", "not", "anyOf", "oneOf", "allOf", "prefixItems"};
  }

  // ---------------------------------------------------------------- references

  /** Leaving members out adds no reference. */
  lemma {:induction false} RefsWithin(ok: string -> bool, a: Json, b: Json)
    requires Within(a, b) && Refs(ok, b)
    ensures Refs(ok, a)
    decreases b
  {
    match b
    case Obj(m) => forall k | k in a.members ensures Refs(ok, a.members[k]) { RefsWithin(ok, a.members[k], m[k]); }
    case Arr(s) => forall i | 0 <= i < |s| ensures Refs(ok, a.items[i]) { RefsWithin(ok, a.items[i], s[i]); }
    case _ =>
  }

  lemma PruneKeepsRefs(ok: string -> bool, v: Json)
    requires Refs(ok, v)
    ensures Refs(ok, Prune(v)) && Refs(ok, PruneMembers(v)) && Refs(ok, PruneArray(v))
  {
    NeverAdds(v);
    MemberNeverAdds(AsProperties, v);
    MemberNeverAdds(AsArray, v);
    RefsWithin(ok, Prune(v), v);
    RefsWithin(ok, PruneMember(AsProperties, v), v);
    RefsWithin(ok, PruneMember(AsArray, v), v);
  }

  /** A path that leads nowhere still does. */
  lemma {:induction false} WalkWithin(a: Json, b: Json, path: seq<string>)
    requires Within(a, b) && Walk(b, path).None?
    ensures Walk(a, path).None?
    decreases path
  {
    if path != [] && Enter(a, path[0]).Some? && Enter(b, path[0]).Some? {
      WalkWithin(Enter(a, path[0]).value, Enter(b, path[0]).value, path[1..]);
    }
  }

  lemma {:induction false} WalkKeepsRefs(ok: string -> bool, v: Json, path: seq<string>)
    requires Refs(ok, v) && Walk(v, path).Some?
    ensures Refs(ok, Walk(v, path).value)
    decreases path
  {
    if path == [] {
    } else {
      WalkKeepsRefs(ok, Enter(v, path[0]).value, path[1..]);
    }
  }

  /** References lead to positions of the document. */
  lemma TargetHasPosition(root: Json, ref: string) returns (path: seq<string>)
    requires Resolve(root, ref).Some?
    ensures Walk(root, path) == Resolve(root, ref)
  {
    if Pointer(ref) {
      path := Tokens(ref);
    } else if HasId(root, ref) {
      path := [];
    } else if exists name :: DefinedWithId(root, "$defs", name, ref) {
      var name :| DefinedWithId(root, "$defs", name, ref) && ById(root, ref) == Definition(root, "$defs", name);
      path := ["$defs", name];
    } else {
      var name :| DefinedWithId(root, "definitions", name, ref) && ById(root, ref) == Definition(root, "definitions", name);
      path := ["definitions", name];
    }
  }

  lemma TargetKeepsRefs(ok: string -> bool, root: Json, ref: string)
    requires Refs(ok, root) && Resolve(root, ref).Some?
    ensures Refs(ok, Resolve(root, ref).value)
  {
    var path := TargetHasPosition(root, ref);
    WalkKeepsRefs(ok, root, path);
  }

  // ---------------------------------------------------------------- what becomes of a position

  /** How pruning treats what stands at a position: as a schema, or as the value of a keyword. */
  datatype Role = Schema | Value(treatment: Treatment)

  function PruneAs(role: Role, v: Json): Json {
    match role
    case Schema => Prune(v)
    case Value(t) => PruneMember(t, v)
  }

  /** The role one step further down; absent when that step is dropped. */
  function RoleBelow(role: Role, v: Json, token: string): Option<Role> {
    match role
    case Schema =>
      if !v.Obj? then Some(Value(AsIs)) else if Removable(token) then None else Some(Value(TreatmentOf(token)))
    case Value(AsProperties) => Some(if v.Obj? then Schema else Value(AsIs))
    case Value(AsNested) => Some(Schema)
    case Value(AsArray) => Some(if v.Arr? then Schema else Value(AsIs))
    case Value(AsIs) => Some(Value(AsIs))
  }

  /** The role at the end of a path; absent when pruning drops a step of it. */
  function Fate(role: Role, v: Json, path: seq<string>): Option<Role>
    decreases path
  {
    if path == [] then Some(role)
    else
      var next, below := Enter(v, path[0]), RoleBelow(role, v, path[0]);
      if next.None? || below.None? then None else Fate(below.value, next.value, path[1..])
  }

  /** What a keyword's value looks like after pruning. */
  lemma ValueBelow(t: Treatment, v: Json)
    ensures v.Obj? && t in {AsProperties, AsNested} ==>
              var w := PruneMember(t, v);
              w.Obj? && w.members.Keys == v.members.Keys && forall k | k in v.members :: w.members[k] == Prune(v.members[k])
    ensures v.Arr? && t in {AsArray, AsNested} ==>
              var w := PruneMember(t, v);
              w.Arr? && |w.items| == |v.items| && forall i | 0 <= i < |v.items| :: w.items[i] == Prune(v.items[i])
    ensures !(v.Obj? && t in {AsProperties, AsNested}) && !(v.Arr? && t in {AsArray, AsNested}) ==> PruneMember(t, v) == v
  {
  }

  lemma EnterPruned(role: Role, v: Json, token: string)
    ensures var next, below, now := Enter(v, token), RoleBelow(role, v, token), Enter(PruneAs(role, v), token);
      now == if next.Some? && below.Some? then Some(PruneAs(below.value, next.value)) else None
  {
    match role
    case Schema => if v.Obj? { assert token in Prune(v).members <==> token in v.members && !Removable(token); }
    case Value(t) =>
      ValueBelow(t, v);
      assert forall x :: PruneMember(AsIs, x) == x;
  }

  /** In a pruned document a pointer leads to what pruning made of its target, and nowhere if and only if it
      led nowhere before or a step of its path was dropped. */
  lemma {:induction false} WalkPruned(role: Role, v: Json, path: seq<string>)
    ensures var d, fate := Walk(v, path), Fate(role, v, path);
      Walk(PruneAs(role, v), path) == if d.Some? && fate.Some? then Some(PruneAs(fate.value, d.value)) else None
    decreases path
  {
    if path == [] {
    } else {
      EnterPruned(role, v, path[0]);
      var next, below := Enter(v, path[0]), RoleBelow(role, v, path[0]);
      if next.Some? && below.Some? { WalkPruned(below.value, next.value, path[1..]); }
    }
  }

  lemma PrunedHasNoId(v: Json, id: string)
    ensures !HasId(Prune(v), id)
  {
    assert "$id" in REMOVED;
  }

  /** In a pruned document no id leads anywhere, be it the root's or a definition's. */
  lemma IdsVanish(root: Json, id: string)
    ensures ById(Prune(root), id).None?
  {
    PrunedHasNoId(root, id);
    forall section, name | section in {"$defs", "definitions"} ensures !DefinedWithId(Prune(root), section, name, id) {
      NestedDefinition(root, section, name);
      var d := Definition(root, section, name);
      if d.Some? { PrunedHasNoId(d.value, id); }
    }
  }

  lemma NestedDefinition(root: Json, section: string, name: string)
    requires section in {"$defs", "definitions"}
    ensures var d, d' := Definition(root, section, name), Definition(Prune(root), section, name);
      d' == if d.Some? then Some(Prune(d.value)) else None
  {
    SectionRole(section);
    WalkPruned(Schema, root, [section, name]);
    if Definition(root, section, name).Some? { SectionFate(root, section, name); }
  }

  lemma SectionRole(section: string)
    requires section in {"$defs", "definitions"}
    ensures !Removable(section) && TreatmentOf(section) == AsNested && Index(section).None?
  {
    Treatments();
    SpelledStay(section);
    assert section[0] == '$' || section[0] == 'd';
    assert !Digit(section[0]);
  }

  lemma SectionFate(root: Json, section: string, name: string)
    requires !Removable(section) && TreatmentOf(section) == AsNested && Index(section).None?
    requires Definition(root, section, name).Some?
    ensures Fate(Schema, root, [section, name]) == Some(Schema)
  {
    assert [section, name][1..] == [name] && [name][1..] == [];
    var v := Enter(root, section).value;
    assert Walk(v, [name]).Some?;
    var d := Enter(v, name).value;
    assert Fate(Schema, d, []) == Some(Schema);
    assert Fate(Value(AsNested), v, [name]) == Some(Schema);
  }

  /** The reference led somewhere and no longer does: by id, or through a dropped step. */
  ghost predicate Vanishes(root: Json, ref: string) {
    Resolve(root, ref).Some? && (Pointer(ref) ==> Fate(Schema, root, Tokens(ref)).None?)
  }

  lemma VanishesExactly(root: Json, ref: string)
    ensures Vanishes(root, ref) <==> Resolve(root, ref).Some? && Resolve(Prune(root), ref).None?
  {
    if Pointer(ref) { WalkPruned(Schema, root, Tokens(ref)); } else { IdsVanish(root, ref); }
  }
}
