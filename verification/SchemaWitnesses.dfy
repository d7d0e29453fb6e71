/** Documents with references: one that pruning keeps, and three whose references it loses. All of them have
    readings. */
module SchemaWitnesses {
  import opened Options
  import opened SchemaModel
  import opened SchemaPointers
  import opened SchemaShape
  import opened SchemaReadings
  import opened SchemaMeaning

  // ---------------------------------------------------------------- a keyword outside the spelled-out ones

  /** `additionalProperties`: a schema for the members that `properties` does not name. */
  ghost predicate AdditionalHold(others: map<string, Json>, shape: Shape, sub: iset<(Json, Json)>, inst: Json) {
    "additionalProperties" in others && inst.Obj? ==>
      forall k | k in inst.members && k !in shape.names :: (others["additionalProperties"], inst.members[k]) in sub
  }

  /** The reading of the remaining keywords in which it is the only one that constrains. */
  ghost function Additional(): Leaf {
    (others, shape, sub, inst) => AdditionalHold(others, shape, sub, inst)
  }

  lemma AdditionalIsSane()
    ensures Sane(Additional())
  {
  }

  lemma AdditionalDescends()
    ensures Descending(Additional())
  {
    forall others, shape: Shape, a, b, inst | AgreeOnSmaller(a, b, inst)
      ensures AdditionalHold(others, shape, a, inst) == AdditionalHold(others, shape, b, inst)
    {
    }
  }

  lemma AdditionalIsStructural()
    ensures Structural(Additional())
  {
    forall m, a, b, inst | AgreeInside(a, b, m)
      ensures AdditionalHold(Others(m), ShapeOf(m), a, inst) == AdditionalHold(Others(m), ShapeOf(m), b, inst)
    {
      if "additionalProperties" in m { MemberPartsInside(m, "additionalProperties", m["additionalProperties"]); }
    }
  }

  lemma AdditionalIsOther()
    ensures !Removable("additionalProperties") && !Spelled("additionalProperties")
  {
    var key := "additionalProperties";
    assert key[0] == 'a' && key[1] == 'd' && |key| == 20;
    if Removable(key) { RemovableBegins(key); }
    assert "anyOf"[1] == 'n' && "allOf"[1] == 'l';
  }

  /** A document that can be read: it is guarded, and so it has a reading. */
  lemma Read(root: Json, n: nat) returns (a: iset<(Json, Json)>)
    requires Guarded(root, n)
    ensures Solves(Additional(), root, a)
  {
    AdditionalDescends();
    DescendingIsOrderly(Additional(), root, n);
    a := ReadingExists(Additional(), root, n);
  }

  /** Nothing spelled out but references and definitions. */
  predicate Sparse(m: map<string, Json>) {
    forall k | k in m :: !Spelled(k) || k in {"$ref", "$defs", "definitions"}
  }

  lemma SparseMeets(leaf: Leaf, sub: iset<(Json, Json)>, m: map<string, Json>, inst: Json)
    requires Sparse(m)
    ensures MeetsOwn(leaf, sub, m, inst) <==> leaf(Others(m), ShapeOf(m), sub, inst)
  {
    Treatments();
    forall k | k in {"properties", "items", "prefixItems", "allOf", "anyOf", "oneOf", "not", "if", "then", "else"} ensures k !in m {
      assert Spelled(k);
      assert k[0] != '$' && k[0] != 'd';
      assert "$ref"[0] == '$' && "$defs"[0] == '$' && "definitions"[0] == 'd';
    }
  }

  // ---------------------------------------------------------------- dictionaries

  function Reference(ref: string): Json {
    Obj(map["$ref" := Str(ref)])
  }

  /** A dictionary whose values are described by a reference. */
  function Dictionary(notes: map<string, Json>, ref: string): Json {
    Obj(notes["additionalProperties" := Reference(ref)])
  }

  /** Annotations with plain values. */
  predicate Notes(notes: map<string, Json>) {
    forall k | k in notes :: Removable(k) && notes[k].Str?
  }

  /** Beside the annotations a dictionary has one keyword, which is not spelled out. */
  lemma DictionaryKey(notes: map<string, Json>, ref: string, k: string)
    requires Notes(notes) && k in Dictionary(notes, ref).members
    ensures !Spelled(k) && (k == "additionalProperties" || (Annotation(k) && Removable(k)))
    ensures !Annotation("additionalProperties") && !Removable("additionalProperties")
  {
    AdditionalIsOther();
    Vocabulary("additionalProperties");
    Vocabulary(k);
    if Spelled(k) { SpelledStay(k); }
  }

  lemma DictionaryRest(notes: map<string, Json>, ref: string)
    requires Notes(notes)
    ensures Others(Dictionary(notes, ref).members) == map["additionalProperties" := Reference(ref)]
    ensures Prune(Dictionary(notes, ref)) == Dictionary(map[], ref)
  {
    var m := Dictionary(notes, ref).members;
    forall k | k in m
      ensures !Spelled(k) && (k == "additionalProperties" || (Annotation(k) && Removable(k)))
      ensures !Annotation("additionalProperties") && !Removable("additionalProperties")
    {
      DictionaryKey(notes, ref, k);
    }
    AdditionalIsOther();
    assert "additionalProperties" in m;
    assert Prune(Dictionary(notes, ref)).members == map["additionalProperties" := Reference(ref)];
  }

  lemma DictionaryKeys(notes: map<string, Json>, ref: string)
    requires Notes(notes)
    ensures Sparse(Dictionary(notes, ref).members) && !HasRef(Dictionary(notes, ref).members)
    ensures Others(Dictionary(notes, ref).members) == map["additionalProperties" := Reference(ref)]
    ensures ShapeOf(Dictionary(notes, ref).members).names == {}
    ensures Prune(Dictionary(notes, ref)) == Dictionary(map[], ref)
    ensures forall c :: !InPlace(Dictionary(notes, ref).members, c)
  {
    var m := Dictionary(notes, ref).members;
    DictionaryRest(notes, ref);
    forall k | k in m ensures !Spelled(k) { DictionaryKey(notes, ref, k); }
    assert Spelled("$ref") && Spelled("properties");
    forall key | key in {"allOf", "anyOf", "oneOf", "not", "if", "then", "else"} ensures key !in m { assert Spelled(key); }
  }

  /** The positions of a dictionary: itself, the reference, and texts. */
  lemma DictionaryPositions(notes: map<string, Json>, ref: string, path: seq<string>)
    requires Notes(notes) && Walk(Dictionary(notes, ref), path).Some?
    ensures var d := Walk(Dictionary(notes, ref), path).value; d == Dictionary(notes, ref) || d == Reference(ref) || d.Str?
  {
    if path != [] {
      var v := Enter(Dictionary(notes, ref), path[0]).value;
      assert v == Reference(ref) || v.Str?;
      var rest := path[1..];
      assert Walk(v, rest).Some?;
      if rest != [] {
        assert v == Reference(ref) && Enter(v, rest[0]) == Some(Str(ref));
        assert Walk(Str(ref), rest[1..]) == Walk(v, rest);
        assert rest[1..] == [];
      }
    }
  }

  lemma DictionaryTargets(notes: map<string, Json>, ref: string, r: string)
    requires Notes(notes) && Resolve(Dictionary(notes, ref), r).Some?
    ensures var d := Resolve(Dictionary(notes, ref), r).value; d == Dictionary(notes, ref) || d == Reference(ref) || d.Str?
  {
    var path := TargetHasPosition(Dictionary(notes, ref), r);
    DictionaryPositions(notes, ref, path);
  }

  /** A dictionary is guarded however it refers to itself: it goes down into the instance before it does. */
  lemma DictionaryIsGuarded(notes: map<string, Json>, ref: string)
    requires Notes(notes) && (Resolve(Dictionary(notes, ref), ref).Some? ==> Resolve(Dictionary(notes, ref), ref).value != Reference(ref))
    ensures Guarded(Dictionary(notes, ref), 1)
  {
    var root, r := Dictionary(notes, ref), Reference(ref);
    DictionaryKeys(notes, ref);
    assert Settles(root, root, 0);
    SettlesLonger(root, root, 0, 1);
    forall c ensures !InPlace(r.members, c) {
      Treatments();
      assert "$ref"[0] == '$';
    }
    if TargetOf(root, r.members).Some? {
      DictionaryTargets(notes, ref, ref);
      assert Settles(root, TargetOf(root, r.members).value, 0);
    }
    assert Settles(root, r, 1);
    forall x | Resolve(root, x).Some? ensures Settles(root, Resolve(root, x).value, 1) { DictionaryTargets(notes, ref, x); }
  }

  lemma DictionaryMeans(notes: map<string, Json>, ref: string, root: Json, a: iset<(Json, Json)>, inst: Json)
    requires Notes(notes) && Solves(Additional(), root, a)
    ensures (Dictionary(notes, ref), inst) in a <==> (inst.Obj? ==> forall k | k in inst.members :: (Reference(ref), inst.members[k]) in a)
  {
    var m := Dictionary(notes, ref).members;
    DictionaryKeys(notes, ref);
    SparseMeets(Additional(), a, m, inst);
    assert Meets(Additional(), a, root, Dictionary(notes, ref), inst) <==> MeetsOwn(Additional(), a, m, inst);
  }

  lemma ReferenceMeans(ref: string, root: Json, a: iset<(Json, Json)>, inst: Json)
    requires Solves(Additional(), root, a)
    ensures (Reference(ref), inst) in a <==> Resolve(root, ref).Some? && (Resolve(root, ref).value, inst) in a
  {
    var m := Reference(ref).members;
    Treatments();
    AdditionalIsOther();
    assert "$ref"[0] == '$';
    assert Spelled("$ref") && Others(m) == map[];
    SparseMeets(Additional(), a, m, inst);
    assert Meets(Additional(), a, root, Reference(ref), inst) <==> MeetsOwn(Additional(), a, m, inst) && ReferenceHolds(m, a, root, inst);
  }

  // ---------------------------------------------------------------- kept

  /** A dictionary of dictionaries, with a title. */
  const TREE: Json := Dictionary(map["title" := Str("tree")], "#")

  lemma TreeStandsAlone()
    ensures Safe(TREE) && Standalone(TREE)
  {
    TreeIsSafe();
    assert Tokens("#") == [] && Pointer("#");
    assert SteadyIn(TREE)("#");
    ReferenceRefs(SteadyIn(TREE), "#");
    var notes := map["title" := Str("tree")];
    assert "title" in REMOVED && Notes(notes);
    DictionaryKeys(notes, "#");
  }

  lemma TreeIsSafe()
    ensures Safe(TREE)
  {
    AdditionalIsOther();
    assert "title" in REMOVED;
  }

  lemma ReferenceRefs(ok: string -> bool, ref: string)
    requires ok(ref)
    ensures Refs(ok, Reference(ref)) && Unnamed(Reference(ref))
  {
    assert "$ref" != "$id" by { assert "$ref"[1] == 'r'; }
    assert Refs(ok, Str(ref)) && Unnamed(Str(ref));
  }

  /** A recursive document keeps its meaning: it has a reading, its pruned form has one, and they agree. */
  lemma RecursionKept() returns (a: iset<(Json, Json)>, b: iset<(Json, Json)>)
    ensures Solves(Additional(), TREE, a) && Solves(Additional(), Prune(TREE), b)
    ensures SameVerdicts(TREE, a, Prune(TREE), b)
  {
    var notes := map["title" := Str("tree")];
    assert "title" in REMOVED && Notes(notes);
    DictionaryKeys(notes, "#");
    assert Tokens("#") == [] && Pointer("#");
    DictionaryIsGuarded(notes, "#");
    DictionaryIsGuarded(map[], "#");
    a := Read(TREE, 1);
    b := Read(Prune(TREE), 1);
    TreeStandsAlone();
    AdditionalIsStructural();
    AdditionalDescends();
    DescendingIsOrderly(Additional(), Prune(TREE), 1);
    MeaningIsTheSame(Additional(), TREE, 1, a, b);
  }

  // ---------------------------------------------------------------- an id used further down

  /** A recursive dictionary that refers to itself by its `$id`. */
  const NAMED_TREE: Json := Dictionary(map["$id" := Str("urn:r")], "urn:r")

  lemma NotAPointer(ref: string)
    requires ref != "" && ref[0] != '#'
    ensures !Pointer(ref)
  {
  }

  /** It accepts a dictionary of dictionaries, and its pruned form does not. */
  lemma NamedTreeLost() returns (a: iset<(Json, Json)>, b: iset<(Json, Json)>, inst: Json)
    ensures Safe(NAMED_TREE) && !Standalone(NAMED_TREE)
    ensures Solves(Additional(), NAMED_TREE, a) && Solves(Additional(), Prune(NAMED_TREE), b)
    ensures (NAMED_TREE, inst) in a && (Prune(NAMED_TREE), inst) !in b
  {
    NamedTreeRefers();
    a, b := NamedTreeReadings();
    inst := Obj(map["k" := Obj(map[])]);
    NamedTreeBefore(a, inst);
    NamedTreeAfter(b, inst);
  }

  lemma NamedTreeNotes()
    ensures Notes(map["$id" := Str("urn:r")]) && !Pointer("urn:r")
    ensures Prune(NAMED_TREE) == Dictionary(map[], "urn:r")
    ensures Resolve(NAMED_TREE, "urn:r") == Some(NAMED_TREE) && Resolve(Prune(NAMED_TREE), "urn:r").None?
  {
    assert "$id" in REMOVED && "urn:r"[0] == 'u';
    NotAPointer("urn:r");
    DictionaryKeys(map["$id" := Str("urn:r")], "urn:r");
    assert "additionalProperties"[0] == 'a' && "$id"[0] == '$';
    assert HasId(NAMED_TREE, "urn:r");
    IdsVanish(NAMED_TREE, "urn:r");
  }

  lemma NamedTreeRefers()
    ensures Safe(NAMED_TREE) && !Standalone(NAMED_TREE)
  {
    NamedTreeNotes();
    AdditionalIsOther();
    var m := NAMED_TREE.members;
    assert !Steady(NAMED_TREE, "urn:r");
    assert !Refs(SteadyIn(NAMED_TREE), Reference("urn:r"));
    assert "additionalProperties" in m && m["additionalProperties"] == Reference("urn:r");
  }

  lemma NamedTreeReadings() returns (a: iset<(Json, Json)>, b: iset<(Json, Json)>)
    ensures Solves(Additional(), NAMED_TREE, a) && Solves(Additional(), Prune(NAMED_TREE), b)
  {
    NamedTreeNotes();
    DictionaryIsGuarded(map["$id" := Str("urn:r")], "urn:r");
    DictionaryIsGuarded(map[], "urn:r");
    a := Read(NAMED_TREE, 1);
    b := Read(Prune(NAMED_TREE), 1);
  }

  lemma NamedTreeBefore(a: iset<(Json, Json)>, inst: Json)
    requires Solves(Additional(), NAMED_TREE, a) && inst == Obj(map["k" := Obj(map[])])
    ensures (NAMED_TREE, inst) in a
  {
    var notes, empty := map["$id" := Str("urn:r")], Obj(map[]);
    NamedTreeNotes();
    DictionaryMeans(notes, "urn:r", NAMED_TREE, a, empty);
    ReferenceMeans("urn:r", NAMED_TREE, a, empty);
    DictionaryMeans(notes, "urn:r", NAMED_TREE, a, inst);
  }

  lemma NamedTreeAfter(b: iset<(Json, Json)>, inst: Json)
    requires Solves(Additional(), Prune(NAMED_TREE), b) && inst == Obj(map["k" := Obj(map[])])
    ensures (Prune(NAMED_TREE), inst) !in b
  {
    NamedTreeNotes();
    DictionaryMeans(map[], "urn:r", Prune(NAMED_TREE), b, inst);
    ReferenceMeans("urn:r", Prune(NAMED_TREE), b, inst.members["k"]);
    assert "k" in inst.members;
  }

  // ---------------------------------------------------------------- references at the top

  /** A document that consists of one definition and a reference. */
  function Referring(target: Json, ref: string): Json {
    Obj(map["$defs" := Obj(map["a" := target]), "$ref" := Str(ref)])
  }

  lemma ReferringKeys(target: Json, ref: string)
    ensures var m := Referring(target, ref).members;
      Sparse(m) && HasRef(m) && Others(m) == map[] && "$id" !in m && forall c :: !InPlace(m, c)
  {
    var m := Referring(target, ref).members;
    Treatments();
    assert "$defs"[0] == '$' && "$ref"[0] == '$' && "$defs"[1] == 'd' && "$ref"[1] == 'r' && "$id"[1] == 'i';
    assert Spelled("$ref") && Spelled("$defs");
  }

  /** Apart from the document itself, nothing in it refers. */
  lemma ReferringTargets(target: Json, ref: string, r: string)
    requires Refs(Never(), target) && Resolve(Referring(target, ref), r).Some?
    ensures var d := Resolve(Referring(target, ref), r).value; d == Referring(target, ref) || Refs(Never(), d)
  {
    var path := TargetHasPosition(Referring(target, ref), r);
    ReferringPosition(target, ref, path);
  }

  lemma ReferringPosition(target: Json, ref: string, path: seq<string>)
    requires Refs(Never(), target) && Walk(Referring(target, ref), path).Some?
    ensures path == [] || Refs(Never(), Walk(Referring(target, ref), path).value)
  {
    if path != [] {
      var v := Enter(Referring(target, ref), path[0]).value;
      assert Refs(Never(), Obj(map["a" := target])) by { assert "a" != "$ref" by { assert "a"[0] == 'a'; } }
      assert Refs(Never(), v);
      WalkKeepsRefs(Never(), v, path[1..]);
    }
  }

  lemma ReferringIsGuarded(target: Json, ref: string)
    requires Refs(Never(), target)
    requires Resolve(Referring(target, ref), ref).Some? ==> Refs(Never(), Resolve(Referring(target, ref), ref).value)
    ensures Guarded(Referring(target, ref), 1)
  {
    var root := Referring(target, ref);
    ReferringKeys(target, ref);
    if Resolve(root, ref).Some? { RefFreeSettles(root, Resolve(root, ref).value); }
    assert Settles(root, root, 1);
    forall r | Resolve(root, r).Some? ensures Settles(root, Resolve(root, r).value, 1) {
      ReferringTargets(target, ref, r);
      var d := Resolve(root, r).value;
      if d != root {
        RefFreeSettles(root, d);
        SettlesLonger(root, d, 0, 1);
      }
    }
  }

  lemma ReferringMeans(target: Json, ref: string, a: iset<(Json, Json)>, inst: Json)
    requires Solves(Additional(), Referring(target, ref), a)
    ensures MeetsOwn(Additional(), a, Referring(target, ref).members, inst)
  {
    ReferringKeys(target, ref);
    AdditionalIsSane();
    SparseMeets(Additional(), a, Referring(target, ref).members, inst);
    assert Additional()(map[], ShapeOf(Referring(target, ref).members), a, inst);
  }

  lemma ReferringPruned(target: Json, ref: string)
    ensures Prune(Referring(target, ref)) == Referring(Prune(target), ref)
  {
    var m, m' := Referring(target, ref).members, Referring(Prune(target), ref).members;
    assert m.Keys == m'.Keys == {"$defs", "$ref"};
    forall k | k in m ensures !Removable(k) && PruneMember(TreatmentOf(k), m[k]) == m'[k] { ReferringMember(target, ref, k); }
    assert Prune(Referring(target, ref)).members == m';
  }

  lemma ReferringMember(target: Json, ref: string, k: string)
    requires k in {"$defs", "$ref"}
    ensures !Removable(k)
    ensures PruneMember(TreatmentOf(k), Referring(target, ref).members[k]) == Referring(Prune(target), ref).members[k]
  {
    Treatments();
    SpelledStay(k);
    assert "$defs"[1] == 'd' && "$ref"[1] == 'r';
    if k == "$defs" { ValueBelow(AsNested, Obj(map["a" := target])); }
  }

  /** When the reference of such a document vanishes, the document loses its meaning: it has a reading, its pruned
      form has one, and an instance that the target accepts is refused afterwards. */
  lemma ReferenceLost(target: Json, ref: string, inst: Json) returns (a: iset<(Json, Json)>, b: iset<(Json, Json)>)
    requires Refs(Never(), target) && Vanishes(Referring(target, ref), ref)
    requires var d := Resolve(Referring(target, ref), ref).value;
      Refs(Never(), d) && forall x | Solves(Additional(), Referring(target, ref), x) :: (d, inst) in x
    ensures var s := Referring(target, ref);
      && Solves(Additional(), s, a) && Solves(Additional(), Prune(s), b)
      && (s, inst) in a && (Prune(s), inst) !in b && !SameVerdicts(s, a, Prune(s), b)
  {
    var s := Referring(target, ref);
    ReferringIsGuarded(target, ref);
    a := Read(s, 1);
    ReferringPruned(target, ref);
    NeverAdds(target);
    RefsWithin(Never(), Prune(target), target);
    VanishesExactly(s, ref);
    ReferringIsGuarded(Prune(target), ref);
    b := Read(Prune(s), 1);
    ReferringMeans(target, ref, a, inst);
    ReferringKeys(target, ref);
    assert Meets(Additional(), a, s, s, inst);
    assert (s, inst) in a;
    ReferringKeys(Prune(target), ref);
    assert !ReferenceHolds(Prune(s).members, b, Prune(s), inst);
  }

  /** A definition with an `$id` that accepts everything, referred to by that id. */
  const NAMED: Json := Obj(map["$id" := Str("urn:a")])

  lemma IdReferenceLost(inst: Json) returns (a: iset<(Json, Json)>, b: iset<(Json, Json)>)
    ensures var s := Referring(NAMED, "urn:a");
      && Solves(Additional(), s, a) && Solves(Additional(), Prune(s), b)
      && (s, inst) in a && (Prune(s), inst) !in b && !SameVerdicts(s, a, Prune(s), b)
  {
    var s := Referring(NAMED, "urn:a");
    ByIdResolves();
    forall x | Solves(Additional(), s, x) ensures (NAMED, inst) in x { NamedAcceptsAll(s, x, inst); }
    assert Refs(Never(), NAMED) by { assert "$id" != "$ref" by { assert "$id"[1] == 'i'; } }
    a, b := ReferenceLost(NAMED, "urn:a", inst);
  }

  lemma ByIdResolves()
    ensures var s := Referring(NAMED, "urn:a"); !Pointer("urn:a") && Resolve(s, "urn:a") == Some(NAMED) && Vanishes(s, "urn:a")
  {
    var s := Referring(NAMED, "urn:a");
    assert "urn:a"[0] == 'u';
    NotAPointer("urn:a");
    ReferringKeys(NAMED, "urn:a");
    assert ["$defs", "a"][1..] == ["a"] && ["a"][1..] == [];
    assert Walk(NAMED, []) == Some(NAMED);
    assert Walk(Obj(map["a" := NAMED]), ["a"]) == Some(NAMED);
    assert Definition(s, "$defs", "a") == Some(NAMED);
    assert DefinedWithId(s, "$defs", "a", "urn:a");
    forall name | DefinedWithId(s, "$defs", name, "urn:a") ensures Definition(s, "$defs", name) == Some(NAMED) {
      OnlyDefinition(NAMED, "urn:a", name);
    }
  }

  lemma OnlyDefinition(target: Json, ref: string, name: string)
    requires Definition(Referring(target, ref), "$defs", name).Some?
    ensures Definition(Referring(target, ref), "$defs", name) == Some(target)
  {
    assert ["$defs", name][1..] == [name] && [name][1..] == [];
    assert Walk(Obj(map["a" := target]), [name]).Some?;
    assert name == "a";
    assert Walk(target, []) == Some(target);
  }

  lemma NamedAcceptsAll(root: Json, a: iset<(Json, Json)>, inst: Json)
    requires Solves(Additional(), root, a)
    ensures (NAMED, inst) in a
  {
    var m := NAMED.members;
    assert "$id" in REMOVED;
    forall k | Spelled(k) ensures k !in m { SpelledStay(k); }
    assert Others(m) == map[] && Sparse(m);
    Treatments();
    assert Spelled("$ref");
    SparseMeets(Additional(), a, m, inst);
    assert Meets(Additional(), a, root, NAMED, inst);
  }

  // ---------------------------------------------------------------- a pointer through a dropped keyword

  /** A definition whose vendor extension holds a schema that accepts everything. */
  const SHARED: Json := Obj(map["x-shared" := Bool(true)])

  const SHARED_REF := "#/$defs/a/x-shared"

  predicate Word(word: string) {
    '/' !in word && '~' !in word
  }

  lemma ThreeTokens(x: string, y: string, z: string)
    requires Word(x) && Word(y) && Word(z)
    ensures UnescapeAll(Cut(x + "/" + (y + "/" + z))) == [x, y, z]
  {
    CutSlash(x, y + "/" + z);
    CutSlash(y, z);
    CutWord(z);
    UnescapeWord(x);
    UnescapeWord(y);
    UnescapeWord(z);
    assert [x] + ([y] + [z]) == [x, y, z];
  }

  lemma SharedTokens()
    ensures Pointer(SHARED_REF) && Tokens(SHARED_REF) == ["$defs", "a", "x-shared"]
  {
    var x, y, z := "$defs", "a", "x-shared";
    assert SHARED_REF[2..] == x + "/" + (y + "/" + z);
    ThreeTokens(x, y, z);
  }

  lemma ThreeSteps(v: Json, role: Role, x: string, y: string, z: string)
    requires Enter(v, x).Some? && Enter(Enter(v, x).value, y).Some? && Enter(Enter(Enter(v, x).value, y).value, z).Some?
    requires RoleBelow(role, v, x) == Some(Value(AsNested))
    ensures Walk(v, [x, y, z]) == Enter(Enter(Enter(v, x).value, y).value, z)
    ensures Enter(Enter(v, x).value, y).value.Obj? && Removable(z) ==> Fate(role, v, [x, y, z]).None?
  {
    var p3, p2, p1 := [x, y, z], [y, z], [z];
    assert p3[1..] == p2 && p2[1..] == p1 && p1[1..] == [];
    var v1 := Enter(v, x).value;
    var v2 := Enter(v1, y).value;
    assert Walk(v2, p1) == Enter(v2, z);
    assert Walk(v1, p2) == Walk(v2, p1);
    if v2.Obj? && Removable(z) {
      assert Fate(Schema, v2, p1).None?;
      assert Fate(Value(AsNested), v1, p2).None?;
    }
  }

  lemma SharedPosition(ref: string)
    ensures var s, path := Referring(SHARED, ref), ["$defs", "a", "x-shared"];
      Walk(s, path) == Some(Bool(true)) && Fate(Schema, s, path).None?
  {
    var s, defs := Referring(SHARED, ref), Obj(map["a" := SHARED]);
    SectionRole("$defs");
    assert "$defs"[1] == 'd' && "$ref"[1] == 'r';
    assert Enter(s, "$defs") == Some(defs) && Enter(defs, "a") == Some(SHARED) && Enter(SHARED, "x-shared") == Some(Bool(true));
    assert Removable("x-shared");
    ThreeSteps(s, Schema, "$defs", "a", "x-shared");
  }

  lemma SharedFate(ref: string)
    requires ref == SHARED_REF
    ensures var s := Referring(SHARED, ref); Resolve(s, ref) == Some(Bool(true)) && Vanishes(s, ref)
  {
    SharedTokens();
    SharedPosition(ref);
  }

  lemma PointerLost(inst: Json) returns (a: iset<(Json, Json)>, b: iset<(Json, Json)>)
    ensures var s := Referring(SHARED, SHARED_REF);
      && Solves(Additional(), s, a) && Solves(Additional(), Prune(s), b)
      && (s, inst) in a && (Prune(s), inst) !in b && !SameVerdicts(s, a, Prune(s), b)
  {
    var s := Referring(SHARED, SHARED_REF);
    SharedFate(SHARED_REF);
    forall x | Solves(Additional(), s, x) ensures (Bool(true), inst) in x {
      assert Meets(Additional(), x, s, Bool(true), inst);
    }
    assert Refs(Never(), SHARED) by { assert "x-shared" != "$ref" by { assert "x-shared"[0] == 'x'; } }
    a, b := ReferenceLost(SHARED, SHARED_REF, inst);
  }
}
