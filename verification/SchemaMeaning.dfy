/** Pruning keeps the meaning of a schema: which schemas that is true of, and where it fails. */
module SchemaMeaning {
  import opened Options
  import opened SchemaModel
  import opened SchemaShape
  import opened SchemaReadings

  // ---------------------------------------------------------------- safe schemas

  /** Pruning looks into `items`, `if`, `then`, `else` and `not` as if they held maps of schemas. A schema is
      safe when, wherever one of them holds a single object schema, that schema has nothing to lose from it. */
  predicate Safe(v: Json)
    decreases v, 2
  {
    v.Obj? ==> forall k | k in v.members && !Removable(k) :: SafeMember(k, v.members[k])
  }

  predicate SafeMember(key: string, v: Json)
    decreases v, 3
  {
    if v.Arr? then !TreatmentOf(key).AsIs? ==> forall i | 0 <= i < |v.items| :: Safe(v.items[i])
    else if v.Obj? && key in SINGLE then SafeSingle(v)
    else v.Obj? && TreatmentOf(key) in {AsProperties, AsNested} ==> forall k | k in v.members :: Safe(v.members[k])
  }

  /** Every member has nothing to prune, is itself an annotation, or is again a single schema. */
  predicate SafeSingle(v: Json)
    requires v.Obj?
    decreases v, 2
  {
    forall k | k in v.members :: Removable(k) || Clean(v.members[k]) || (k in SINGLE && Safe(v.members[k]))
  }

  // ---------------------------------------------------------------- keyword by keyword

  ghost predicate Alike(sub: iset<(Json, Json)>, t: Json, t': Json) {
    forall inst :: (t, inst) in sub <==> (t', inst) in sub
  }

  ghost predicate MapAlike(sub: iset<(Json, Json)>, v: Json, v': Json) {
    || v == v'
    || (v.Obj? && v'.Obj? && v.members.Keys == v'.members.Keys
        && forall k | k in v.members :: Alike(sub, v.members[k], v'.members[k]))
  }

  ghost predicate SeqAlike(sub: iset<(Json, Json)>, v: Json, v': Json) {
    || v == v'
    || (v.Arr? && v'.Arr? && |v.items| == |v'.items|
        && forall i | 0 <= i < |v.items| :: Alike(sub, v.items[i], v'.items[i]))
  }

  ghost predicate SingleAlike(sub: iset<(Json, Json)>, v: Json, v': Json) {
    Alike(sub, v, v') && (if v.Arr? || v'.Arr? then SeqAlike(sub, v, v') else true)
  }

  ghost predicate KeyAlike(sub: iset<(Json, Json)>, key: string, v: Json, v': Json) {
    if key == "properties" then MapAlike(sub, v, v')
    else if TreatmentOf(key).AsArray? then SeqAlike(sub, v, v')
    else if key in SINGLE then SingleAlike(sub, v, v')
    else key == "$ref" ==> v == v'
  }

  ghost predicate SameKeyword(sub: iset<(Json, Json)>, key: string, m: map<string, Json>, m': map<string, Json>) {
    (key in m <==> key in m') && (key in m && key in m' ==> KeyAlike(sub, key, m[key], m'[key]))
  }

  ghost predicate SameKeywords(sub: iset<(Json, Json)>, m: map<string, Json>, m': map<string, Json>) {
    && Others(m) == Others(m')
    && forall key | Spelled(key) :: SameKeyword(sub, key, m, m')
  }

  lemma SameShape(sub: iset<(Json, Json)>, m: map<string, Json>, m': map<string, Json>)
    requires SameKeywords(sub, m, m')
    ensures ShapeOf(m) == ShapeOf(m')
  {
    Treatments();
    assert SameKeyword(sub, "properties", m, m') && SameKeyword(sub, "prefixItems", m, m') && SameKeyword(sub, "items", m, m');
  }

  lemma SameProperties(sub: iset<(Json, Json)>, m: map<string, Json>, m': map<string, Json>, inst: Json)
    requires SameKeywords(sub, m, m')
    ensures PropertiesHold(m, sub, inst) <==> PropertiesHold(m', sub, inst)
  {
    Treatments();
    assert SameKeyword(sub, "properties", m, m');
    if "properties" in m && m["properties"].Obj? && m["properties"] != m'["properties"] {
      var p, p' := m["properties"].members, m'["properties"].members;
      assert p.Keys == p'.Keys;
      forall k | k in p ensures Alike(sub, p[k], p'[k]) {}
      assert forall k :: k in p <==> k in p';
    }
  }

  lemma SamePositions(sub: iset<(Json, Json)>, v: Json, v': Json, inst: Json)
    requires SeqAlike(sub, v, v')
    ensures PositionsHold(v, sub, inst) <==> PositionsHold(v', sub, inst)
  {
    if v.Arr? && v != v' {
      forall i | 0 <= i < |v.items| ensures Alike(sub, v.items[i], v'.items[i]) {}
    }
  }

  lemma SameItems(sub: iset<(Json, Json)>, m: map<string, Json>, m': map<string, Json>, inst: Json)
    requires SameKeywords(sub, m, m')
    ensures ItemsHold(m, sub, inst) <==> ItemsHold(m', sub, inst)
    ensures PrefixHolds(m, sub, inst) <==> PrefixHolds(m', sub, inst)
  {
    Treatments();
    SameShape(sub, m, m');
    assert SameKeyword(sub, "items", m, m') && SameKeyword(sub, "prefixItems", m, m');
    if "prefixItems" in m { SamePositions(sub, m["prefixItems"], m'["prefixItems"], inst); }
    if "items" in m && m["items"].Arr? { SamePositions(sub, m["items"], m'["items"], inst); }
  }

  lemma SameAll(sub: iset<(Json, Json)>, m: map<string, Json>, m': map<string, Json>, inst: Json)
    requires SameKeywords(sub, m, m')
    ensures AllHold(m, sub, inst) <==> AllHold(m', sub, inst)
  {
    Treatments();
    assert SameKeyword(sub, "allOf", m, m');
    if "allOf" in m && m["allOf"].Arr? && m["allOf"] != m'["allOf"] {
      var s, s' := m["allOf"].items, m'["allOf"].items;
      assert forall i | 0 <= i < |s| :: Alike(sub, s[i], s'[i]);
    }
  }

  lemma SameAny(sub: iset<(Json, Json)>, m: map<string, Json>, m': map<string, Json>, inst: Json)
    requires SameKeywords(sub, m, m')
    ensures AnyHolds(m, sub, inst) <==> AnyHolds(m', sub, inst)
  {
    Treatments();
    assert SameKeyword(sub, "anyOf", m, m');
    if "anyOf" in m && m["anyOf"].Arr? && m["anyOf"] != m'["anyOf"] {
      var s, s' := m["anyOf"].items, m'["anyOf"].items;
      assert forall i | 0 <= i < |s| :: Alike(sub, s[i], s'[i]);
      assert forall i | 0 <= i < |s| :: (s[i], inst) in sub <==> (s'[i], inst) in sub;
    }
  }

  lemma SameOne(sub: iset<(Json, Json)>, m: map<string, Json>, m': map<string, Json>, inst: Json)
    requires SameKeywords(sub, m, m')
    ensures OneHolds(m, sub, inst) <==> OneHolds(m', sub, inst)
  {
    Treatments();
    assert SameKeyword(sub, "oneOf", m, m');
    if "oneOf" in m && m["oneOf"].Arr? && m["oneOf"] != m'["oneOf"] {
      var s, s' := m["oneOf"].items, m'["oneOf"].items;
      assert forall i | 0 <= i < |s| :: Alike(sub, s[i], s'[i]);
      assert forall i | 0 <= i < |s| :: (s[i], inst) in sub <==> (s'[i], inst) in sub;
    }
  }

  lemma SameConditions(sub: iset<(Json, Json)>, m: map<string, Json>, m': map<string, Json>, inst: Json)
    requires SameKeywords(sub, m, m')
    ensures ConditionsHold(m, sub, inst) <==> ConditionsHold(m', sub, inst)
  {
    Treatments();
    assert SameKeyword(sub, "if", m, m') && SameKeyword(sub, "then", m, m');
    assert SameKeyword(sub, "else", m, m') && SameKeyword(sub, "not", m, m');
  }

  /** Schemas that agree keyword by keyword accept the same instances. */
  lemma SameMeaning(leaf: Leaf, sub: iset<(Json, Json)>, root: Json, s: Json, s': Json, inst: Json)
    requires s.Obj? && s'.Obj? && SameKeywords(sub, s.members, s'.members)
    ensures Meets(leaf, sub, root, s, inst) <==> Meets(leaf, sub, root, s', inst)
  {
    var m, m' := s.members, s'.members;
    SameShape(sub, m, m');
    SameProperties(sub, m, m', inst);
    SameItems(sub, m, m', inst);
    SameAll(sub, m, m', inst);
    SameAny(sub, m, m', inst);
    SameOne(sub, m, m', inst);
    SameConditions(sub, m, m', inst);
    Treatments();
    assert SameKeyword(sub, "$ref", m, m');
  }

  // ---------------------------------------------------------------- pruning under a reading

  /** What is known of the schemas a keyword holds. */
  ghost predicate BelowAlike(a: iset<(Json, Json)>, key: string, v: Json) {
    && (v.Arr? ==> Alike(a, v, PruneArray(v)) && forall i | 0 <= i < |v.items| :: PrunesAlike(a, v.items[i]))
    && (v.Obj? && key in SINGLE && SafeSingle(v) ==> Alike(a, v, PruneMembers(v)))
    && (v.Obj? && key == "properties" ==> forall k | k in v.members :: PrunesAlike(a, v.members[k]))
  }

  ghost predicate PrunesAlike(a: iset<(Json, Json)>, t: Json) {
    Safe(t) ==> Alike(a, t, Prune(t))
  }

  lemma ArraysAlike(a: iset<(Json, Json)>, v: Json)
    requires v.Arr? && Alike(a, v, PruneArray(v))
    requires forall i | 0 <= i < |v.items| :: Safe(v.items[i]) && PrunesAlike(a, v.items[i])
    ensures SeqAlike(a, v, PruneArray(v)) && SingleAlike(a, v, PruneArray(v))
  {
    var v' := PruneArray(v);
    forall i | 0 <= i < |v.items| ensures Alike(a, v.items[i], v'.items[i]) { assert PrunesAlike(a, v.items[i]); }
  }

  lemma PrunedMember(a: iset<(Json, Json)>, key: string, v: Json)
    requires Spelled(key) && !TreatmentOf(key).AsIs? && SafeMember(key, v) && BelowAlike(a, key, v)
    ensures KeyAlike(a, key, v, PruneMember(TreatmentOf(key), v))
  {
    Treatments();
    if !v.Arr? && !v.Obj? {
      assert PruneMember(TreatmentOf(key), v) == v;
    } else if v.Arr? {
      ArraysAlike(a, v);
    } else if key == "properties" {
      forall k | k in v.members ensures Alike(a, v.members[k], PruneMembers(v).members[k]) {
        assert PrunesAlike(a, v.members[k]);
      }
    }
  }

  lemma PrunedKeyword(a: iset<(Json, Json)>, t: Json, key: string)
    requires t.Obj? && Safe(t) && Spelled(key)
    requires key in t.members && !TreatmentOf(key).AsIs? ==> BelowAlike(a, key, t.members[key])
    ensures SameKeyword(a, key, t.members, Prune(t).members)
  {
    KeptMember(t, key);
    SpelledStay(key);
    if key in t.members {
      if TreatmentOf(key).AsIs? { SameIsAlike(a, key, t.members[key]); } else { PrunedMember(a, key, t.members[key]); }
    }
  }

  lemma SameIsAlike(a: iset<(Json, Json)>, key: string, v: Json)
    ensures KeyAlike(a, key, v, v)
  {
  }

  lemma SinglesAlike(a: iset<(Json, Json)>, key: string, v: Json)
    requires key in SINGLE && v.Obj? && Alike(a, v, Prune(v))
    ensures KeyAlike(a, key, v, Prune(v))
  {
    Treatments();
    assert !Prune(v).Arr?;
  }

  /** A single schema whose members were pruned one by one. */
  lemma SingleKeyword(a: iset<(Json, Json)>, t: Json, key: string)
    requires t.Obj? && SafeSingle(t) && Spelled(key)
    requires key in t.members && key in SINGLE ==> PrunesAlike(a, t.members[key])
    ensures SameKeyword(a, key, t.members, PruneMembers(t).members)
  {
    SpelledStay(key);
    if key in t.members {
      var v := t.members[key];
      FixedPoints(v);
      if Clean(v) { SameIsAlike(a, key, v); } else { SinglesAlike(a, key, v); }
    }
  }

  lemma SingleOthers(t: Json)
    requires t.Obj? && SafeSingle(t)
    ensures Others(t.members) == Others(PruneMembers(t).members)
  {
    var m, m' := t.members, PruneMembers(t).members;
    forall k | k in m && !Annotation(k) && !Spelled(k) ensures m'[k] == m[k] { OtherUnchanged(t, k); }
    assert m.Keys == m'.Keys;
  }

  lemma OtherUnchanged(t: Json, k: string)
    requires t.Obj? && SafeSingle(t) && k in t.members && !Annotation(k) && !Spelled(k)
    ensures Prune(t.members[k]) == t.members[k]
  {
    Vocabulary(k);
    SingleIsSpelled(k);
    FixedPoints(t.members[k]);
  }

  lemma SingleIsSpelled(k: string)
    ensures k in SINGLE ==> Spelled(k) && TreatmentOf(k) == AsNested
  {
    Treatments();
  }

  /** Under any reading a safe schema accepts what its pruned form accepts, and so does a safe single schema
      whose members are pruned; arrays are not schemas and accept nothing. */
  lemma {:induction false} PrunedAlike(leaf: Leaf, ok: string -> bool, root: Json, a: iset<(Json, Json)>, t: Json)
    requires Reading(leaf, ok, root, a) && Refs(ok, t)
    ensures PrunesAlike(a, t)
    ensures t.Obj? && SafeSingle(t) ==> Alike(a, t, PruneMembers(t))
    decreases t, 2
  {
    if t.Obj? {
      PruneKeepsRefs(ok, t);
      forall key | key in t.members && !TreatmentOf(key).AsIs?
        ensures BelowAlike(a, key, t.members[key]) && (key in SINGLE ==> PrunesAlike(a, t.members[key]))
      {
        MemberAlike(leaf, ok, root, a, key, t.members[key]);
      }
      forall key ensures key in SINGLE ==> !TreatmentOf(key).AsIs? { SingleIsSpelled(key); }
      if Safe(t) { SafeAlike(leaf, ok, root, a, t); }
      if SafeSingle(t) { SingleAlikePruned(leaf, ok, root, a, t); }
    }
  }

  lemma {:induction false} MemberAlike(leaf: Leaf, ok: string -> bool, root: Json, a: iset<(Json, Json)>, key: string, v: Json)
    requires Reading(leaf, ok, root, a) && Refs(ok, v) && !TreatmentOf(key).AsIs?
    ensures BelowAlike(a, key, v) && (key in SINGLE ==> PrunesAlike(a, v))
    decreases v, 3
  {
    SingleIsSpelled(key);
    if v.Arr? {
      NoArrayAccepts(leaf, ok, root, a, v);
      forall i | 0 <= i < |v.items| ensures PrunesAlike(a, v.items[i]) { PrunedAlike(leaf, ok, root, a, v.items[i]); }
    } else if v.Obj? && key in SINGLE {
      PrunedAlike(leaf, ok, root, a, v);
    } else if v.Obj? {
      forall k | k in v.members ensures PrunesAlike(a, v.members[k]) { PrunedAlike(leaf, ok, root, a, v.members[k]); }
    }
  }

  lemma NoArrayAccepts(leaf: Leaf, ok: string -> bool, root: Json, a: iset<(Json, Json)>, v: Json)
    requires Reading(leaf, ok, root, a) && v.Arr? && Refs(ok, v)
    ensures Alike(a, v, PruneArray(v))
  {
    PruneKeepsRefs(ok, v);
    forall inst ensures (v, inst) !in a && (PruneArray(v), inst) !in a {
      assert !Meets(leaf, a, root, v, inst) && !Meets(leaf, a, root, PruneArray(v), inst);
    }
  }

  lemma SafeAlike(leaf: Leaf, ok: string -> bool, root: Json, a: iset<(Json, Json)>, t: Json)
    requires Reading(leaf, ok, root, a) && Refs(ok, t) && Refs(ok, Prune(t)) && t.Obj? && Safe(t)
    requires forall key | key in t.members && !TreatmentOf(key).AsIs? :: BelowAlike(a, key, t.members[key])
    ensures Alike(a, t, Prune(t))
  {
    KeepsOthers(t);
    forall key | Spelled(key) ensures SameKeyword(a, key, t.members, Prune(t).members) { PrunedKeyword(a, t, key); }
    forall inst ensures (t, inst) in a <==> (Prune(t), inst) in a {
      SameMeaning(leaf, a, root, t, Prune(t), inst);
    }
  }

  lemma SingleAlikePruned(leaf: Leaf, ok: string -> bool, root: Json, a: iset<(Json, Json)>, t: Json)
    requires Reading(leaf, ok, root, a) && Refs(ok, t) && Refs(ok, PruneMembers(t)) && t.Obj? && SafeSingle(t)
    requires forall key | key in t.members && key in SINGLE :: PrunesAlike(a, t.members[key])
    ensures Alike(a, t, PruneMembers(t))
  {
    SingleOthers(t);
    var t' := PruneMembers(t);
    forall key | Spelled(key) ensures SameKeyword(a, key, t.members, t'.members) { SingleKeyword(a, t, key); }
    forall inst ensures (t, inst) in a <==> (t', inst) in a {
      SameMeaning(leaf, a, root, t, t', inst);
    }
  }

  // ---------------------------------------------------------------- references

  /** Pruning does the schema at a position no harm in the role the position has. */
  predicate Kept(role: Role, d: Json) {
    match role
    case Schema => Safe(d)
    case Value(t) => d.Obj? && !t.AsIs? ==> SafeSingle(d)
  }

  /** A reference by position whose target, if there is one, survives pruning unharmed. */
  predicate Steady(root: Json, ref: string) {
    && Pointer(ref)
    && var d, fate := Walk(root, Tokens(ref)), Fate(Schema, root, Tokens(ref));
    && (d.Some? ==> fate.Some? && Kept(fate.value, d.value))
  }

  function SteadyIn(root: Json): string -> bool {
    ref => Steady(root, ref)
  }

  /** Every reference in the document, wherever it stands, is steady. An `$id` below the root would change what
      positions mean inside it, so there is none unless there are no references at all. */
  predicate Standalone(s: Json) {
    && Refs(SteadyIn(s), s)
    && (Refs(Never(), s) || (s.Obj? ==> forall k | k in s.members && k != "$id" :: Unnamed(s.members[k])))
  }

  lemma KeptAlike(leaf: Leaf, ok: string -> bool, root: Json, a: iset<(Json, Json)>, role: Role, d: Json)
    requires Reading(leaf, ok, root, a) && Refs(ok, d) && Kept(role, d)
    ensures Alike(a, d, PruneAs(role, d))
  {
    PrunedAlike(leaf, ok, root, a, d);
    if role.Value? {
      ValueBelow(role.treatment, d);
      if d.Arr? { NoArrayAccepts(leaf, ok, root, a, d); }
    }
  }

  lemma RootPruned(leaf: Leaf, base: Json, root: Json, a: iset<(Json, Json)>, t: Json, inst: Json)
    requires Reading(leaf, SteadyIn(root), base, a) && Refs(SteadyIn(root), root) && Refs(SteadyIn(root), t)
    ensures Meets(leaf, a, root, t, inst) <==> Meets(leaf, a, Prune(root), t, inst)
  {
    if t.Obj? && HasRef(t.members) {
      var ref := t.members["$ref"].text;
      assert Steady(root, ref);
      var path := Tokens(ref);
      WalkPruned(Schema, root, path);
      if Walk(root, path).Some? {
        WalkKeepsRefs(SteadyIn(root), root, path);
        KeptAlike(leaf, SteadyIn(root), base, a, Fate(Schema, root, path).value, Walk(root, path).value);
      }
    }
  }

  /** The equations of the schemas that refer like the document have the same solutions before and after. */
  lemma SameReadings(leaf: Leaf, s: Json, a: iset<(Json, Json)>)
    requires Refs(SteadyIn(s), s)
    ensures Reading(leaf, SteadyIn(s), s, a) <==> Reading(leaf, SteadyIn(s), Prune(s), a)
  {
    var ok := SteadyIn(s);
    if Reading(leaf, ok, s, a) {
      forall t, inst | Refs(ok, t) ensures (t, inst) in a <==> Meets(leaf, a, Prune(s), t, inst) {
        RootPruned(leaf, s, s, a, t, inst);
      }
    }
    if Reading(leaf, ok, Prune(s), a) {
      forall t, inst | Refs(ok, t) ensures (t, inst) in a <==> Meets(leaf, a, s, t, inst) {
        RootPruned(leaf, Prune(s), s, a, t, inst);
      }
    }
  }

  lemma SolvesIsReading(leaf: Leaf, ok: string -> bool, root: Json, a: iset<(Json, Json)>)
    requires Solves(leaf, root, a)
    ensures Reading(leaf, ok, root, a)
  {
  }

  // ---------------------------------------------------------------- the theorem

  /** The document `s` accepts under `a` what `s'` accepts under `b`. */
  ghost predicate SameVerdicts(s: Json, a: iset<(Json, Json)>, s': Json, b: iset<(Json, Json)>) {
    forall inst :: (s, inst) in a <==> (s', inst) in b
  }

  /** Some reading of the pruned document matches the reading `a` of `s`. */
  ghost predicate MatchedAfter(leaf: Leaf, s: Json, a: iset<(Json, Json)>) {
    exists b :: Solves(leaf, Prune(s), b) && SameVerdicts(s, a, Prune(s), b)
  }

  /** Some reading of `s` matches the reading `b` of the pruned document. */
  ghost predicate MatchedBefore(leaf: Leaf, s: Json, b: iset<(Json, Json)>) {
    exists a :: Solves(leaf, s, a) && SameVerdicts(s, a, Prune(s), b)
  }

  /** Pruning preserves meaning. To every reading of a safe schema that stands alone belongs a reading of its
      pruned form that accepts the same instances, and the other way round, whatever the remaining keywords mean
      and however the schema refers to itself. */
  lemma PruningPreservesMeaning(leaf: Leaf, s: Json, a: iset<(Json, Json)>)
    requires Structural(leaf) && Safe(s) && Standalone(s)
    ensures Solves(leaf, s, a) ==> MatchedAfter(leaf, s, a)
    ensures Solves(leaf, Prune(s), a) ==> MatchedBefore(leaf, s, a)
  {
    if Solves(leaf, s, a) { var _ := ReadingAfter(leaf, s, a); }
    if Solves(leaf, Prune(s), a) { var _ := ReadingBefore(leaf, s, a); }
  }

  lemma ReadingAfter(leaf: Leaf, s: Json, a: iset<(Json, Json)>) returns (b: iset<(Json, Json)>)
    requires Structural(leaf) && Safe(s) && Standalone(s) && Solves(leaf, s, a)
    ensures Solves(leaf, Prune(s), b) && SameVerdicts(s, a, Prune(s), b)
  {
    var ok := SteadyIn(s);
    SolvesIsReading(leaf, ok, s, a);
    SameReadings(leaf, s, a);
    PrunedAlike(leaf, ok, s, a, s);
    PruneKeepsRefs(ok, s);
    b := ReadingExtends(leaf, ok, Prune(s), a);
  }

  lemma ReadingBefore(leaf: Leaf, s: Json, b: iset<(Json, Json)>) returns (a: iset<(Json, Json)>)
    requires Structural(leaf) && Safe(s) && Standalone(s) && Solves(leaf, Prune(s), b)
    ensures Solves(leaf, s, a) && SameVerdicts(s, a, Prune(s), b)
  {
    var ok := SteadyIn(s);
    SolvesIsReading(leaf, ok, Prune(s), b);
    SameReadings(leaf, s, b);
    PrunedAlike(leaf, ok, s, b, s);
    PruneKeepsRefs(ok, s);
    a := ReadingExtends(leaf, ok, s, b);
  }

  /** Where the pruned document has one reading only, as guarded documents do, any two readings agree. */
  lemma MeaningIsTheSame(leaf: Leaf, s: Json, n: nat, a: iset<(Json, Json)>, b: iset<(Json, Json)>)
    requires Structural(leaf) && Safe(s) && Standalone(s) && Orderly(leaf, Prune(s), n) && Guarded(Prune(s), n)
    requires Solves(leaf, s, a) && Solves(leaf, Prune(s), b)
    ensures SameVerdicts(s, a, Prune(s), b)
  {
    var b' := ReadingAfter(leaf, s, a);
    forall inst ensures (Prune(s), inst) in b <==> (Prune(s), inst) in b' {
      ReadingIsUnique(leaf, Prune(s), n, b, b', Prune(s), inst);
    }
  }

  // ---------------------------------------------------------------- single schemas

  /** A schema without other keywords constrains nothing beyond what is spelled out. */
  ghost predicate Sane(leaf: Leaf) {
    forall shape, sub, inst :: leaf(map[], shape, sub, inst)
  }

  /** References to the whole document, or to nothing. */
  function Local(root: Json): string -> bool {
    ref => Pointer(ref) && (ref == "#" || Walk(root, Tokens(ref)).None?)
  }

  /** The single schema refers to the document around it at most, and bears no `$id` if it refers at all. */
  predicate Fits(root: Json, t: Json) {
    Refs(Local(root), t) && (Refs(Never(), t) || Unnamed(t))
  }

  /** The reading goes on to fit the pruned document, in which the schema accepts what it accepted before. */
  ghost predicate KeepsMeaning(leaf: Leaf, s: Json, a: iset<(Json, Json)>) {
    Reading(leaf, Local(s), Prune(s), a) && Alike(a, s, Prune(s))
  }

  /** A document that applies the single schema `t` by one of the five keywords. */
  function Wrap(key: string, t: Json): Json
    requires key in SINGLE
  {
    if key == "items" then Obj(map["items" := t])
    else if key == "not" then Obj(map["not" := t])
    else if key == "if" then Obj(map["if" := t, "else" := Bool(false)])
    else if key == "then" then Obj(map["if" := Bool(true), "then" := t])
    else Obj(map["if" := Bool(false), "else" := t])
  }

  lemma WrapKeys(key: string, t: Json)
    requires key in SINGLE
    ensures var m := Wrap(key, t).members;
      && m.Keys <= SINGLE && key in m && m[key] == t
      && (forall k | k in m && k != key :: m[k].Bool?)
      && Others(m) == map[] && ShapeOf(m).names == {}
      && forall k | k in {"properties", "$ref", "anyOf", "oneOf", "allOf", "prefixItems", "$defs", "definitions"} :: k !in m
  {
    forall k | k in SINGLE ensures Spelled(k) { SingleIsSpelled(k); }
    Treatments();
  }

  /** What the wrapped document demands. */
  ghost predicate WrapHolds(a: iset<(Json, Json)>, key: string, t: Json, inst: Json) {
    if key == "items" then inst.Arr? ==> forall i | 0 <= i < |inst.items| :: (t, inst.items[i]) in a
    else if key == "not" then (t, inst) !in a
    else (t, inst) in a
  }

  lemma BoolAccepts(leaf: Leaf, ok: string -> bool, root: Json, a: iset<(Json, Json)>, b: bool, inst: Json)
    requires Reading(leaf, ok, root, a)
    ensures (Bool(b), inst) in a <==> b
  {
    assert Refs(ok, Bool(b));
  }

  lemma WrapRefs(ok: string -> bool, key: string, t: Json)
    requires key in SINGLE && Refs(ok, t)
    ensures Refs(ok, Wrap(key, t))
  {
    var m := Wrap(key, t).members;
    WrapKeys(key, t);
    forall k | k in m ensures Refs(ok, m[k]) { assert k != key ==> m[k].Bool?; }
  }

  lemma WrapMeans(leaf: Leaf, ok: string -> bool, root: Json, a: iset<(Json, Json)>, key: string, t: Json, inst: Json)
    requires Sane(leaf) && Reading(leaf, ok, root, a) && key in SINGLE && t.Obj? && Refs(ok, t)
    ensures (Wrap(key, t), inst) in a <==> WrapHolds(a, key, t, inst)
  {
    var m := Wrap(key, t).members;
    WrapKeys(key, t);
    WrapRefs(ok, key, t);
    BoolAccepts(leaf, ok, root, a, true, inst);
    BoolAccepts(leaf, ok, root, a, false, inst);
    WrapConditions(a, key, t, inst);
    assert Count(m, "prefixItems") == 0;
    assert leaf(Others(m), ShapeOf(m), a, inst);
  }

  lemma WrapConditions(a: iset<(Json, Json)>, key: string, t: Json, inst: Json)
    requires key in SINGLE && t.Obj? && (Bool(true), inst) in a && (Bool(false), inst) !in a
    ensures var m := Wrap(key, t).members;
      ItemsHold(m, a, inst) && ConditionsHold(m, a, inst) <==> WrapHolds(a, key, t, inst)
  {
    var m := Wrap(key, t).members;
    WrapKeys(key, t);
    assert "items"[1] == 't' && "if"[1] == 'f' && |"not"| == 3 && "then"[0] == 't' && "else"[0] == 'e';
  }

  lemma WrapAlike(leaf: Leaf, ok: string -> bool, root: Json, a: iset<(Json, Json)>, key: string, t: Json, t': Json)
    requires Sane(leaf) && Reading(leaf, ok, root, a) && key in SINGLE && t.Obj? && Refs(ok, t) && t'.Obj? && Refs(ok, t')
    ensures Alike(a, Wrap(key, t), Wrap(key, t')) <==> Alike(a, t, t')
  {
    forall inst
      ensures (Wrap(key, t), inst) in a <==> WrapHolds(a, key, t, inst)
      ensures (Wrap(key, t'), inst) in a <==> WrapHolds(a, key, t', inst)
    {
      WrapMeans(leaf, ok, root, a, key, t, inst);
      WrapMeans(leaf, ok, root, a, key, t', inst);
    }
    if Alike(a, Wrap(key, t), Wrap(key, t')) {
      forall inst ensures (t, inst) in a <==> (t', inst) in a {
        var one := if key == "items" then Arr([inst]) else inst;
        assert (Wrap(key, t), one) in a <==> (Wrap(key, t'), one) in a;
        assert key == "items" ==> one.items[0] == inst;
      }
    }
  }

  lemma WrapSwap(key: string, t: Json, t': Json)
    requires key in SINGLE
    ensures Wrap(key, t').members == Wrap(key, t).members[key := t']
  {
  }

  lemma WrapMember(key: string, t: Json, k: string)
    requires key in SINGLE && t.Obj? && k in Wrap(key, t).members
    ensures !Removable(k) && PruneMember(TreatmentOf(k), Wrap(key, t).members[k]) ==
            if k == key then PruneMembers(t) else Wrap(key, t).members[k]
  {
    WrapKeys(key, t);
    SingleIsSpelled(k);
    SpelledStay(k);
  }

  lemma WrapPruned(key: string, t: Json)
    requires key in SINGLE && t.Obj?
    ensures Prune(Wrap(key, t)) == Wrap(key, PruneMembers(t))
  {
    var m := Wrap(key, t).members;
    WrapSwap(key, t, PruneMembers(t));
    assert key in m by { WrapKeys(key, t); }
    forall k | k in m ensures !Removable(k) && PruneMember(TreatmentOf(k), m[k]) == m[key := PruneMembers(t)][k] {
      WrapMember(key, t, k);
    }
    assert Prune(Wrap(key, t)).members == m[key := PruneMembers(t)];
  }

  /** Such references do not tell the document from its pruned form if the two accept the same. */
  lemma LocalTargets(leaf: Leaf, s: Json, a: iset<(Json, Json)>, t: Json, inst: Json)
    requires Alike(a, s, Prune(s)) && Refs(Local(s), t)
    ensures Meets(leaf, a, s, t, inst) <==> Meets(leaf, a, Prune(s), t, inst)
  {
    if t.Obj? && HasRef(t.members) {
      var ref := t.members["$ref"].text;
      assert Local(s)(ref);
      if ref != "#" {
        NeverAdds(s);
        WalkWithin(Prune(s), s, Tokens(ref));
      }
    }
  }

  /** A document keeps its meaning if and only if its single schema does when its members are pruned. */
  lemma SingleExactly(leaf: Leaf, key: string, t: Json, a: iset<(Json, Json)>)
    requires Sane(leaf) && key in SINGLE && t.Obj? && Fits(Wrap(key, t), t) && Reading(leaf, Local(Wrap(key, t)), Wrap(key, t), a)
    ensures KeepsMeaning(leaf, Wrap(key, t), a) <==> Alike(a, t, PruneMembers(t))
  {
    var s, t' := Wrap(key, t), PruneMembers(t);
    PruneKeepsRefs(Local(s), t);
    WrapAlike(leaf, Local(s), s, a, key, t, t');
    WrapPruned(key, t);
    if Alike(a, s, Prune(s)) {
      forall u, inst | Refs(Local(s), u) ensures (u, inst) in a <==> Meets(leaf, a, Prune(s), u, inst) {
        LocalTargets(leaf, s, a, u, inst);
      }
    }
  }

  // ---------------------------------------------------------------- properties

  /** Objects with the given properties. */
  function Objects(properties: map<string, Json>): Json {
    Obj(map["properties" := Obj(properties)])
  }

  ghost predicate AcceptsAll(a: iset<(Json, Json)>, s: Json) {
    forall inst :: (s, inst) in a
  }

  lemma ObjectsKeys(p: map<string, Json>)
    ensures var m := Objects(p).members;
      && Others(m) == map[] && ShapeOf(m) == Shape(p.Keys, 0, 0)
      && forall k | k in {"$ref", "$id", "items", "anyOf", "oneOf", "allOf", "prefixItems", "not", "if", "then", "else"} :: k !in m
  {
    Treatments();
    assert "properties"[1] == 'r' && "prefixItems"[2] == 'e' && "properties"[2] == 'o' && "items"[1] == 't';
  }

  lemma ObjectsMean(leaf: Leaf, ok: string -> bool, root: Json, a: iset<(Json, Json)>, p: map<string, Json>, inst: Json)
    requires Sane(leaf) && Reading(leaf, ok, root, a) && Refs(ok, Objects(p))
    ensures (Objects(p), inst) in a <==> (inst.Obj? ==> forall k | k in p && k in inst.members :: (p[k], inst.members[k]) in a)
  {
    ObjectsKeys(p);
    assert leaf(Others(Objects(p).members), ShapeOf(Objects(p).members), a, inst);
  }

  lemma ObjectsPruned(p: map<string, Json>)
    ensures Prune(Obj(p)).Obj? && PruneMembers(Objects(p)) == Objects(Prune(Obj(p)).members)
  {
    assert PruneMembers(Objects(p)).members == map["properties" := Prune(Obj(p))];
  }

  /** Every property survives: it is dropped but accepted everything, or accepts what it accepted before. */
  ghost predicate PropertiesSurvive(a: iset<(Json, Json)>, p: map<string, Json>) {
    forall k | k in p ::
      if Removable(k) then AcceptsAll(a, p[k]) else Alike(a, p[k], PruneMember(TreatmentOf(k), p[k]))
  }

  ghost predicate Holding(a: iset<(Json, Json)>, p: map<string, Json>, inst: Json) {
    inst.Obj? ==> forall k | k in p && k in inst.members :: (p[k], inst.members[k]) in a
  }

  lemma OneProperty(a: iset<(Json, Json)>, p: map<string, Json>, k: string, x: Json)
    ensures Holding(a, p, Obj(map[k := x])) <==> (k in p ==> (p[k], x) in a)
  {
    var one := Obj(map[k := x]);
    assert one.members[k] == x;
  }

  lemma SurvivalHolds(a: iset<(Json, Json)>, p: map<string, Json>, inst: Json)
    requires PropertiesSurvive(a, p)
    ensures Holding(a, p, inst) <==> Holding(a, Prune(Obj(p)).members, inst)
  {
  }

  lemma PropertiesAlike(leaf: Leaf, ok: string -> bool, root: Json, a: iset<(Json, Json)>, p: map<string, Json>)
    requires Sane(leaf) && Reading(leaf, ok, root, a) && Refs(ok, Objects(p)) && Refs(ok, Objects(Prune(Obj(p)).members))
    ensures Alike(a, Objects(p), Objects(Prune(Obj(p)).members)) <==> PropertiesSurvive(a, p)
  {
    var q := Prune(Obj(p)).members;
    forall inst
      ensures (Objects(p), inst) in a <==> Holding(a, p, inst)
      ensures (Objects(q), inst) in a <==> Holding(a, q, inst)
    {
      ObjectsMean(leaf, ok, root, a, p, inst);
      ObjectsMean(leaf, ok, root, a, q, inst);
    }
    if PropertiesSurvive(a, p) {
      forall inst ensures Holding(a, p, inst) <==> Holding(a, q, inst) { SurvivalHolds(a, p, inst); }
    }
    if Alike(a, Objects(p), Objects(q)) { AlikeSurvive(a, p); }
  }

  lemma AlikeSurvive(a: iset<(Json, Json)>, p: map<string, Json>)
    requires forall inst :: Holding(a, p, inst) <==> Holding(a, Prune(Obj(p)).members, inst)
    ensures PropertiesSurvive(a, p)
  {
    var q := Prune(Obj(p)).members;
    forall k, x | k in p ensures if Removable(k) then (p[k], x) in a else ((p[k], x) in a <==> (q[k], x) in a) {
      OneProperty(a, p, k, x);
      OneProperty(a, q, k, x);
      assert Holding(a, p, Obj(map[k := x])) <==> Holding(a, q, Obj(map[k := x]));
    }
  }

  /** Properties under a single schema. The document keeps its meaning if and only if every property with the
      name of a removed keyword accepts everything, and every property with the name of a keyword that holds
      schemas accepts the same after its schema was pruned as that keyword's value. All other properties are
      left as they are. */
  lemma PropertiesExactly(leaf: Leaf, key: string, p: map<string, Json>, a: iset<(Json, Json)>)
    requires Sane(leaf) && key in SINGLE && Fits(Wrap(key, Objects(p)), Objects(p))
    requires Reading(leaf, Local(Wrap(key, Objects(p))), Wrap(key, Objects(p)), a)
    ensures KeepsMeaning(leaf, Wrap(key, Objects(p)), a) <==> PropertiesSurvive(a, p)
    ensures forall k | k in p && !Removable(k) && TreatmentOf(k).AsIs? :: PruneMember(TreatmentOf(k), p[k]) == p[k]
  {
    PlainStay(p);
    PropertiesKept(leaf, key, p, Objects(p), a);
  }

  lemma PlainStay(p: map<string, Json>)
    ensures forall k | k in p && !Removable(k) && TreatmentOf(k).AsIs? :: PruneMember(TreatmentOf(k), p[k]) == p[k]
  {
  }

  lemma PropertiesKept(leaf: Leaf, key: string, p: map<string, Json>, t: Json, a: iset<(Json, Json)>)
    requires Sane(leaf) && key in SINGLE && t == Objects(p) && Fits(Wrap(key, t), t)
    requires Reading(leaf, Local(Wrap(key, t)), Wrap(key, t), a)
    ensures KeepsMeaning(leaf, Wrap(key, t), a) <==> PropertiesSurvive(a, p)
  {
    SingleExactly(leaf, key, t, a);
    ObjectsExactly(leaf, Local(Wrap(key, t)), Wrap(key, t), a, p);
  }

  lemma ObjectsExactly(leaf: Leaf, ok: string -> bool, root: Json, a: iset<(Json, Json)>, p: map<string, Json>)
    requires Sane(leaf) && Reading(leaf, ok, root, a) && Refs(ok, Objects(p))
    ensures Alike(a, Objects(p), PruneMembers(Objects(p))) <==> PropertiesSurvive(a, p)
  {
    ObjectsPruned(p);
    PruneKeepsRefs(ok, Objects(p));
    PropertiesAlike(leaf, ok, root, a, p);
  }

  // ---------------------------------------------------------------- constants

  /** `const` means equality. */
  ghost predicate KnowsConst(leaf: Leaf) {
    forall v, shape, sub, inst :: leaf(map["const" := v], shape, sub, inst) <==> inst == v
  }

  function Constant(v: Json): Json {
    Obj(map["const" := v])
  }

  lemma ConstantMeans(leaf: Leaf, root: Json, a: iset<(Json, Json)>, v: Json, inst: Json)
    requires KnowsConst(leaf) && Solves(leaf, root, a)
    ensures (Constant(v), inst) in a <==> inst == v
  {
    var m := Constant(v).members;
    ConstIsOther();
    assert Others(m) == map["const" := v];
    assert leaf(map["const" := v], ShapeOf(m), a, inst) <==> inst == v;
  }

  lemma ConstIsOther()
    ensures !Removable("const") && !Spelled("const")
    ensures forall k | Spelled(k) :: k != "const"
    ensures "$id" != "const"
  {
    Treatments();
    assert "const"[0] == 'c' && "const"[1] == 'o' && "const"[2] == 'n' && "const"[3] == 's';
    assert "contentMediaType"[3] == 't' && "contentEncoding"[3] == 't';
  }

  lemma {:induction false} AllRefs(v: Json)
    ensures Refs(Always(), v)
  {
    match v
    case Obj(m) => forall k | k in m ensures Refs(Always(), m[k]) { AllRefs(m[k]); }
    case Arr(s) => forall i | 0 <= i < |s| ensures Refs(Always(), s[i]) { AllRefs(s[i]); }
    case _ =>
  }

  lemma WrapSolved(leaf: Leaf, root: Json, a: iset<(Json, Json)>, key: string, t: Json, inst: Json)
    requires Sane(leaf) && Solves(leaf, root, a) && key in SINGLE && t.Obj?
    ensures (Wrap(key, t), inst) in a <==> WrapHolds(a, key, t, inst)
  {
    AllRefs(t);
    SolvesIsReading(leaf, Always(), root, a);
    WrapMeans(leaf, Always(), root, a, key, t, inst);
  }

  lemma ConstantWrapped(leaf: Leaf, root: Json, a: iset<(Json, Json)>, key: string, v: Json, x: Json)
    requires Sane(leaf) && KnowsConst(leaf) && Solves(leaf, root, a) && key in SINGLE
    ensures var one := if key == "items" then Arr([x]) else x;
      (Wrap(key, Constant(v)), one) in a <==> (if key == "not" then x != v else x == v)
  {
    var one := if key == "items" then Arr([x]) else x;
    WrapSolved(leaf, root, a, key, Constant(v), one);
    ConstantMeans(leaf, root, a, v, x);
    assert key == "items" ==> one.items[0] == x;
  }

  /** A constant under a single schema keeps its meaning if and only if there is nothing to prune in its value. */
  lemma ConstantExactly(leaf: Leaf, key: string, v: Json, a: iset<(Json, Json)>, b: iset<(Json, Json)>)
    requires Sane(leaf) && KnowsConst(leaf) && key in SINGLE
    requires Solves(leaf, Wrap(key, Constant(v)), a) && Solves(leaf, Prune(Wrap(key, Constant(v))), b)
    ensures SameVerdicts(Wrap(key, Constant(v)), a, Prune(Wrap(key, Constant(v))), b) <==> Clean(v)
  {
    var s := Wrap(key, Constant(v));
    ConstantPruned(key, v);
    FixedPoints(v);
    if Clean(v) {
      forall inst ensures (s, inst) in a <==> (Prune(s), inst) in b { ConstantSame(leaf, s, a, b, key, v, inst); }
    } else {
      ConstantWrapped(leaf, s, a, key, v, v);
      ConstantWrapped(leaf, Prune(s), b, key, Prune(v), v);
    }
  }

  lemma ConstantPruned(key: string, v: Json)
    requires key in SINGLE
    ensures Prune(Wrap(key, Constant(v))) == Wrap(key, Constant(Prune(v)))
  {
    WrapPruned(key, Constant(v));
    assert PruneMembers(Constant(v)).members == map["const" := Prune(v)];
  }

  lemma ConstantSame(leaf: Leaf, s: Json, a: iset<(Json, Json)>, b: iset<(Json, Json)>, key: string, v: Json, inst: Json)
    requires Sane(leaf) && KnowsConst(leaf) && key in SINGLE && s == Wrap(key, Constant(v)) == Prune(s)
    requires Solves(leaf, s, a) && Solves(leaf, s, b)
    ensures (s, inst) in a <==> (s, inst) in b
  {
    WrapSolved(leaf, s, a, key, Constant(v), inst);
    WrapSolved(leaf, s, b, key, Constant(v), inst);
    forall x ensures (Constant(v), x) in a <==> (Constant(v), x) in b {
      ConstantMeans(leaf, s, a, v, x);
      ConstantMeans(leaf, s, b, v, x);
    }
  }

  // ---------------------------------------------------------------- failing inputs

  lemma ObjectsSolved(leaf: Leaf, root: Json, a: iset<(Json, Json)>, p: map<string, Json>, item: Json)
    requires Sane(leaf) && Solves(leaf, root, a)
    ensures (Objects(p), item) in a <==> Holding(a, p, item)
    ensures (Wrap("items", Objects(p)), Arr([item])) in a <==> Holding(a, p, item)
  {
    AllRefs(Objects(p));
    SolvesIsReading(leaf, Always(), root, a);
    ObjectsMean(leaf, Always(), root, a, p, item);
    assert Arr([item]).items[0] == item;
    WrapSolved(leaf, root, a, "items", Objects(p), Arr([item]));
  }

  /** An item property called "title" that no item may have: the pruned schema lets it in. */
  lemma TitlePropertyLost(leaf: Leaf, p: map<string, Json>, item: Json, a: iset<(Json, Json)>, b: iset<(Json, Json)>)
    requires p == map["title" := Bool(false)] && item.Obj? && "title" in item.members
    requires Sane(leaf) && Solves(leaf, Wrap("items", Objects(p)), a) && Solves(leaf, Prune(Wrap("items", Objects(p))), b)
    ensures (Wrap("items", Objects(p)), Arr([item])) !in a && (Prune(Wrap("items", Objects(p))), Arr([item])) in b
  {
    var s := Wrap("items", Objects(p));
    TitlePruned(p);
    ObjectsSolved(leaf, s, a, p, item);
    SolvesIsReading(leaf, Always(), s, a);
    BoolAccepts(leaf, Always(), s, a, false, item.members["title"]);
    ObjectsSolved(leaf, Prune(s), b, map[], item);
  }

  lemma TitlePruned(p: map<string, Json>)
    requires p.Keys == {"title"}
    ensures Prune(Wrap("items", Objects(p))) == Wrap("items", Objects(map[]))
  {
    assert "title" in REMOVED && Prune(Obj(p)).members == map[];
    ObjectsPruned(p);
    WrapPruned("items", Objects(p));
  }

  /** A property called "title" that accepts everything is no loss. */
  lemma HarmlessTitle(leaf: Leaf, p: map<string, Json>, a: iset<(Json, Json)>)
    requires p == map["title" := Bool(true)] && Sane(leaf)
    requires Reading(leaf, Local(Wrap("items", Objects(p))), Wrap("items", Objects(p)), a)
    ensures KeepsMeaning(leaf, Wrap("items", Objects(p)), a)
  {
    var s := Wrap("items", Objects(p));
    assert "title" in REMOVED;
    BooleansFit(s, p);
    forall inst ensures (Bool(true), inst) in a { BoolAccepts(leaf, Local(s), s, a, true, inst); }
    assert PropertiesSurvive(a, p);
    PropertiesExactly(leaf, "items", p, a);
  }

  lemma BooleansFit(root: Json, p: map<string, Json>)
    requires forall k | k in p :: p[k].Bool?
    ensures Fits(root, Objects(p))
  {
    ObjectsKeys(p);
    forall ok: string -> bool ensures Refs(ok, Obj(p)) {}
  }

  /** A constant item with a member called "title": the pruned schema refuses it. */
  lemma ConstantTitleLost(leaf: Leaf, v: Json, a: iset<(Json, Json)>, b: iset<(Json, Json)>)
    requires Sane(leaf) && KnowsConst(leaf) && v == Obj(map["title" := Str("a")])
    requires Solves(leaf, Wrap("items", Constant(v)), a) && Solves(leaf, Prune(Wrap("items", Constant(v))), b)
    ensures (Wrap("items", Constant(v)), Arr([v])) in a && (Prune(Wrap("items", Constant(v))), Arr([v])) !in b
  {
    var s := Wrap("items", Constant(v));
    ConstantPruned("items", v);
    assert "title" in REMOVED && "title" in v.members;
    ConstantWrapped(leaf, s, a, "items", v, v);
    ConstantWrapped(leaf, Prune(s), b, "items", Prune(v), v);
  }

  // ---------------------------------------------------------------- lost references

  /** A document whose own reference vanishes accepts nothing after pruning. So it keeps its meaning if and only
      if nothing met both the target and the keywords beside the reference. */
  lemma LostReferenceExactly(leaf: Leaf, s: Json, a: iset<(Json, Json)>, b: iset<(Json, Json)>)
    requires s.Obj? && HasRef(s.members) && Vanishes(s, s.members["$ref"].text)
    requires Solves(leaf, s, a) && Solves(leaf, Prune(s), b)
    ensures SameVerdicts(s, a, Prune(s), b) <==>
            forall inst :: !((Resolve(s, s.members["$ref"].text).value, inst) in a && MeetsOwn(leaf, a, s.members, inst))
  {
    var ref := s.members["$ref"].text;
    Treatments();
    KeptMember(s, "$ref");
    VanishesExactly(s, ref);
    forall inst ensures (Prune(s), inst) !in b {
      assert !ReferenceHolds(Prune(s).members, b, Prune(s), inst);
    }
    forall inst ensures (s, inst) in a <==> (Resolve(s, ref).value, inst) in a && MeetsOwn(leaf, a, s.members, inst) {
      assert Meets(leaf, a, s, s, inst) <==> MeetsOwn(leaf, a, s.members, inst) && ReferenceHolds(s.members, a, s, inst);
    }
  }
}
