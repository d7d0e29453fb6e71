/** Readings: which verdicts a schema looks at, when a partial reading extends to a whole one, and when a
    document has exactly one. */
module SchemaReadings {
  import opened Options
  import opened SchemaModel
  import opened SchemaShape

  // ---------------------------------------------------------------- what a schema looks at

  /** `c` is applied to members or items of the instance. */
  ghost predicate Applied(m: map<string, Json>, c: Json) {
    || ("properties" in m && m["properties"].Obj? && exists k :: k in m["properties"].members && c == m["properties"].members[k])
    || ("items" in m && (c == m["items"] || (m["items"].Arr? && c in m["items"].items)))
    || ("prefixItems" in m && m["prefixItems"].Arr? && c in m["prefixItems"].items)
  }

  /** `c` is applied to the instance itself. */
  ghost predicate InPlace(m: map<string, Json>, c: Json) {
    || (exists key :: key in {"allOf", "anyOf", "oneOf"} && key in m && m[key].Arr? && c in m[key].items)
    || (exists key :: key in {"not", "if", "then", "else"} && key in m && c == m[key])
  }

  /** A member or item of the instance. */
  ghost predicate Piece(i: Json, inst: Json) {
    || (inst.Obj? && exists k :: k in inst.members && i == inst.members[k])
    || (inst.Arr? && i in inst.items)
  }

  lemma PieceIsSmaller(i: Json, inst: Json)
    requires Piece(i, inst)
    ensures i < inst
  {
    if inst.Arr? {
      var k :| 0 <= k < |inst.items| && inst.items[k] == i;
      assert inst.items[k] < inst;
    }
  }

  /** Two sets of verdicts that agree on all that the spelled-out keywords look at. */
  ghost predicate AgreeBelow(a: iset<(Json, Json)>, b: iset<(Json, Json)>, m: map<string, Json>, inst: Json) {
    && (forall c, i | Applied(m, c) && Piece(i, inst) :: (c, i) in a <==> (c, i) in b)
    && (forall c | InPlace(m, c) :: (c, inst) in a <==> (c, inst) in b)
  }

  lemma AgreeProperties(a: iset<(Json, Json)>, b: iset<(Json, Json)>, m: map<string, Json>, inst: Json)
    requires AgreeBelow(a, b, m, inst)
    ensures PropertiesHold(m, a, inst) <==> PropertiesHold(m, b, inst)
  {
    if "properties" in m && m["properties"].Obj? && inst.Obj? {
      var p := m["properties"].members;
      forall k | k in p && k in inst.members ensures (p[k], inst.members[k]) in a <==> (p[k], inst.members[k]) in b {
        assert Applied(m, p[k]) && Piece(inst.members[k], inst);
      }
    }
  }

  lemma AgreePositions(a: iset<(Json, Json)>, b: iset<(Json, Json)>, m: map<string, Json>, key: string, inst: Json)
    requires AgreeBelow(a, b, m, inst) && key in {"items", "prefixItems"} && key in m
    ensures PositionsHold(m[key], a, inst) <==> PositionsHold(m[key], b, inst)
  {
    if m[key].Arr? && inst.Arr? {
      var s := m[key].items;
      forall i | 0 <= i < |s| && i < |inst.items| ensures (s[i], inst.items[i]) in a <==> (s[i], inst.items[i]) in b {
        assert Applied(m, s[i]) && Piece(inst.items[i], inst);
      }
    }
  }

  lemma AgreeItems(a: iset<(Json, Json)>, b: iset<(Json, Json)>, m: map<string, Json>, inst: Json)
    requires AgreeBelow(a, b, m, inst)
    ensures ItemsHold(m, a, inst) <==> ItemsHold(m, b, inst)
    ensures PrefixHolds(m, a, inst) <==> PrefixHolds(m, b, inst)
  {
    if "items" in m {
      AgreePositions(a, b, m, "items", inst);
      assert Applied(m, m["items"]);
      if inst.Arr? { forall i | 0 <= i < |inst.items| ensures Piece(inst.items[i], inst) {} }
    }
    if "prefixItems" in m { AgreePositions(a, b, m, "prefixItems", inst); }
  }

  lemma AgreeChoices(a: iset<(Json, Json)>, b: iset<(Json, Json)>, m: map<string, Json>, inst: Json, key: string)
    requires AgreeBelow(a, b, m, inst) && key in {"allOf", "anyOf", "oneOf"} && key in m && m[key].Arr?
    ensures forall i | 0 <= i < |m[key].items| :: (m[key].items[i], inst) in a <==> (m[key].items[i], inst) in b
  {
    forall i | 0 <= i < |m[key].items| ensures InPlace(m, m[key].items[i]) {}
  }

  lemma AgreeAllAny(a: iset<(Json, Json)>, b: iset<(Json, Json)>, m: map<string, Json>, inst: Json)
    requires AgreeBelow(a, b, m, inst)
    ensures AllHold(m, a, inst) <==> AllHold(m, b, inst)
    ensures AnyHolds(m, a, inst) <==> AnyHolds(m, b, inst)
  {
    if "allOf" in m && m["allOf"].Arr? { AgreeChoices(a, b, m, inst, "allOf"); }
    if "anyOf" in m && m["anyOf"].Arr? { AgreeChoices(a, b, m, inst, "anyOf"); }
  }

  lemma AgreeOne(a: iset<(Json, Json)>, b: iset<(Json, Json)>, m: map<string, Json>, inst: Json)
    requires AgreeBelow(a, b, m, inst)
    ensures OneHolds(m, a, inst) <==> OneHolds(m, b, inst)
  {
    if "oneOf" in m && m["oneOf"].Arr? { AgreeChoices(a, b, m, inst, "oneOf"); }
  }

  lemma AgreeConditions(a: iset<(Json, Json)>, b: iset<(Json, Json)>, m: map<string, Json>, inst: Json)
    requires AgreeBelow(a, b, m, inst)
    ensures ConditionsHold(m, a, inst) <==> ConditionsHold(m, b, inst)
  {
    forall key | key in {"not", "if", "then", "else"} && key in m ensures (m[key], inst) in a <==> (m[key], inst) in b {
      assert InPlace(m, m[key]);
    }
  }

  lemma MeetsOwnLocally(leaf: Leaf, a: iset<(Json, Json)>, b: iset<(Json, Json)>, m: map<string, Json>, inst: Json)
    requires AgreeBelow(a, b, m, inst)
    requires leaf(Others(m), ShapeOf(m), a, inst) == leaf(Others(m), ShapeOf(m), b, inst)
    ensures MeetsOwn(leaf, a, m, inst) <==> MeetsOwn(leaf, b, m, inst)
  {
    AgreeProperties(a, b, m, inst);
    AgreeItems(a, b, m, inst);
    AgreeAllAny(a, b, m, inst);
    AgreeOne(a, b, m, inst);
    AgreeConditions(a, b, m, inst);
  }

  /** The target of a schema's own reference. */
  ghost function TargetOf(root: Json, m: map<string, Json>): Option<Json> {
    if HasRef(m) then Resolve(root, m["$ref"].text) else None
  }

  /** What a schema demands depends only on what its keywords look at and on the target of its reference. */
  lemma MeetsLocally(leaf: Leaf, a: iset<(Json, Json)>, b: iset<(Json, Json)>, root: Json, t: Json, inst: Json)
    requires t.Obj? ==> AgreeBelow(a, b, t.members, inst)
    requires t.Obj? ==> leaf(Others(t.members), ShapeOf(t.members), a, inst) == leaf(Others(t.members), ShapeOf(t.members), b, inst)
    requires t.Obj? && TargetOf(root, t.members).Some? ==>
               ((TargetOf(root, t.members).value, inst) in a <==> (TargetOf(root, t.members).value, inst) in b)
    ensures Meets(leaf, a, root, t, inst) <==> Meets(leaf, b, root, t, inst)
  {
    if t.Obj? { MeetsOwnLocally(leaf, a, b, t.members, inst); }
  }

  // ---------------------------------------------------------------- parts of a tree

  /** `c` is a proper part of `t`. */
  ghost predicate Inside(c: Json, t: Json)
    decreases t
  {
    match t
    case Obj(m) => exists k :: k in m && (c == m[k] || Inside(c, m[k]))
    case Arr(s) => exists i :: 0 <= i < |s| && (c == s[i] || Inside(c, s[i]))
    case _ => false
  }

  lemma {:induction false} InsideIsSmaller(c: Json, t: Json)
    requires Inside(c, t)
    ensures c < t
    decreases t
  {
    match t
    case Obj(m) =>
      var k :| k in m && (c == m[k] || Inside(c, m[k]));
      assert m[k] < t;
      if c != m[k] { InsideIsSmaller(c, m[k]); }
    case Arr(s) =>
      var i :| 0 <= i < |s| && (c == s[i] || Inside(c, s[i]));
      assert s[i] < t;
      if c != s[i] { InsideIsSmaller(c, s[i]); }
  }

  lemma {:induction false} InsideKeepsRefs(ok: string -> bool, c: Json, t: Json)
    requires Inside(c, t) && Refs(ok, t)
    ensures Refs(ok, c)
    decreases t
  {
    match t
    case Obj(m) =>
      var k :| k in m && (c == m[k] || Inside(c, m[k]));
      if c != m[k] { InsideKeepsRefs(ok, c, m[k]); }
    case Arr(s) =>
      var i :| 0 <= i < |s| && (c == s[i] || Inside(c, s[i]));
      if c != s[i] { InsideKeepsRefs(ok, c, s[i]); }
  }

  lemma MemberPartsInside(m: map<string, Json>, key: string, c: Json)
    requires key in m && (c == m[key] || Inside(c, m[key]))
    ensures Inside(c, Obj(m))
  {
  }

  /** What the spelled-out keywords apply are parts of the schema. */
  lemma HeldInside(m: map<string, Json>, c: Json)
    requires Applied(m, c) || InPlace(m, c)
    ensures Inside(c, Obj(m))
  {
    if "properties" in m && m["properties"].Obj? && exists k :: k in m["properties"].members && c == m["properties"].members[k] {
      MemberPartsInside(m, "properties", c);
    } else if "items" in m && (c == m["items"] || (m["items"].Arr? && c in m["items"].items)) {
      MemberPartsInside(m, "items", c);
    } else if "prefixItems" in m && m["prefixItems"].Arr? && c in m["prefixItems"].items {
      MemberPartsInside(m, "prefixItems", c);
    } else if key :| key in {"allOf", "anyOf", "oneOf"} && key in m && m[key].Arr? && c in m[key].items {
      MemberPartsInside(m, key, c);
    } else {
      var key :| key in {"not", "if", "then", "else"} && key in m && c == m[key];
      MemberPartsInside(m, key, c);
    }
  }

  // ---------------------------------------------------------------- extending a reading

  ghost predicate AgreeInside(a: iset<(Json, Json)>, b: iset<(Json, Json)>, m: map<string, Json>) {
    forall c, i | Inside(c, Obj(m)) :: (c, i) in a <==> (c, i) in b
  }

  /** The remaining keywords, too, apply parts of the schema only. */
  ghost predicate Structural(leaf: Leaf) {
    forall m, a, b, inst | AgreeInside(a, b, m) :: leaf(Others(m), ShapeOf(m), a, inst) == leaf(Others(m), ShapeOf(m), b, inst)
  }

  /** The verdicts of `a` where it has some, worked out from the parts elsewhere. */
  ghost predicate Extended(leaf: Leaf, ok: string -> bool, root: Json, a: iset<(Json, Json)>, t: Json, inst: Json)
    decreases t
  {
    if Refs(ok, t) then (t, inst) in a else Meets(leaf, ExtendedBelow(leaf, ok, root, a, t), root, t, inst)
  }

  ghost function ExtendedBelow(leaf: Leaf, ok: string -> bool, root: Json, a: iset<(Json, Json)>, t: Json): iset<(Json, Json)>
    decreases t, 0
  {
    iset p: (Json, Json) | (Refs(ok, p.0) && p in a) || (p.0 < t && Extended(leaf, ok, root, a, p.0, p.1))
  }

  ghost function Extension(leaf: Leaf, ok: string -> bool, root: Json, a: iset<(Json, Json)>): iset<(Json, Json)> {
    iset p: (Json, Json) | Extended(leaf, ok, root, a, p.0, p.1)
  }

  /** Two sets of verdicts that agree on the allowed schemas and on the parts of `t`. */
  lemma MeetsFromParts(leaf: Leaf, ok: string -> bool, root: Json, a: iset<(Json, Json)>, b: iset<(Json, Json)>, t: Json, inst: Json)
    requires Structural(leaf) && Refs(ok, root)
    requires forall c, i | Refs(ok, c) || Inside(c, t) :: (c, i) in a <==> (c, i) in b
    ensures Meets(leaf, a, root, t, inst) <==> Meets(leaf, b, root, t, inst)
  {
    if t.Obj? {
      var m := t.members;
      forall c | Applied(m, c) || InPlace(m, c) ensures Inside(c, t) { HeldInside(m, c); }
      assert AgreeBelow(a, b, m, inst);
      assert AgreeInside(a, b, m);
      if TargetOf(root, m).Some? { TargetKeepsRefs(ok, root, m["$ref"].text); }
      MeetsLocally(leaf, a, b, root, t, inst);
    }
  }

  lemma ExtensionSolves(leaf: Leaf, ok: string -> bool, root: Json, a: iset<(Json, Json)>, t: Json, inst: Json)
    requires Structural(leaf) && Refs(ok, root) && Reading(leaf, ok, root, a)
    ensures var b := Extension(leaf, ok, root, a); (t, inst) in b <==> Meets(leaf, b, root, t, inst)
  {
    var b := Extension(leaf, ok, root, a);
    if Refs(ok, t) {
      forall c, i | Refs(ok, c) || Inside(c, t) ensures (c, i) in a <==> (c, i) in b {
        if Inside(c, t) { InsideKeepsRefs(ok, c, t); }
      }
      MeetsFromParts(leaf, ok, root, a, b, t, inst);
    } else {
      var below := ExtendedBelow(leaf, ok, root, a, t);
      forall c, i | Refs(ok, c) || Inside(c, t) ensures (c, i) in below <==> (c, i) in b {
        if Inside(c, t) { InsideIsSmaller(c, t); }
      }
      MeetsFromParts(leaf, ok, root, below, b, t, inst);
    }
  }

  /** A reading of the schemas that refer like the document extends to a reading of all schemas. */
  lemma ReadingExtends(leaf: Leaf, ok: string -> bool, root: Json, a: iset<(Json, Json)>)
    returns (b: iset<(Json, Json)>)
    requires Structural(leaf) && Refs(ok, root) && Reading(leaf, ok, root, a)
    ensures Solves(leaf, root, b)
    ensures forall t, inst | Refs(ok, t) :: (t, inst) in b <==> (t, inst) in a
  {
    b := Extension(leaf, ok, root, a);
    forall t, inst ensures (t, inst) in b <==> Meets(leaf, b, root, t, inst) { ExtensionSolves(leaf, ok, root, a, t, inst); }
  }

  // ---------------------------------------------------------------- documents with one reading

  /** Following references in place from `t`, at most `n` follow one another. */
  ghost predicate Settles(root: Json, t: Json, n: nat)
    decreases n, t
  {
    t.Obj? ==>
      && (forall c | c < t && InPlace(t.members, c) :: Settles(root, c, n))
      && (TargetOf(root, t.members).Some? ==> n > 0 && Settles(root, TargetOf(root, t.members).value, n - 1))
  }

  /** No more than `n` references follow one another in place, from whatever target one starts. References
      under keywords that go down into the instance may be as recursive as they like. */
  ghost predicate Guarded(root: Json, n: nat) {
    forall ref | Resolve(root, ref).Some? :: Settles(root, Resolve(root, ref).value, n)
  }

  lemma {:induction false} SettlesLonger(root: Json, t: Json, n: nat, n': nat)
    requires Settles(root, t, n) && n <= n'
    ensures Settles(root, t, n')
    decreases n, t
  {
    if t.Obj? {
      forall c | c < t && InPlace(t.members, c) ensures Settles(root, c, n') { SettlesLonger(root, c, n, n'); }
      var d := TargetOf(root, t.members);
      if d.Some? {
        assert Settles(root, d.value, n - 1);
        SettlesLonger(root, d.value, n - 1, n' - 1);
      }
    }
  }

  lemma {:induction false} EverythingSettles(root: Json, n: nat, t: Json)
    requires Guarded(root, n)
    ensures Settles(root, t, n + 1)
    decreases t
  {
    if t.Obj? {
      forall c | c < t && InPlace(t.members, c) ensures Settles(root, c, n + 1) { EverythingSettles(root, n, c); }
    }
  }

  ghost function LeastFrom(root: Json, t: Json, k: nat, n: nat): nat
    decreases n - k
  {
    if k >= n || Settles(root, t, k) then k else LeastFrom(root, t, k + 1, n)
  }

  /** The least number of references in place. */
  ghost function Rank(root: Json, n: nat, t: Json): nat {
    LeastFrom(root, t, 0, n + 1)
  }

  lemma {:induction false} LeastIsLeast(root: Json, t: Json, k: nat, n: nat)
    requires k <= n && Settles(root, t, n) && forall j: nat | j < k :: !Settles(root, t, j)
    ensures var r := LeastFrom(root, t, k, n); Settles(root, t, r) && forall j: nat | Settles(root, t, j) :: r <= j
    decreases n - k
  {
    if k >= n || Settles(root, t, k) {
    } else {
      LeastIsLeast(root, t, k + 1, n);
    }
  }

  /** Ranks do not grow in place, and fall along a reference. */
  lemma RankFalls(root: Json, n: nat, t: Json, c: Json)
    requires Guarded(root, n) && t.Obj?
    ensures InPlace(t.members, c) ==> c < t && Rank(root, n, c) <= Rank(root, n, t)
    ensures TargetOf(root, t.members) == Some(c) ==> Rank(root, n, c) < Rank(root, n, t)
  {
    EverythingSettles(root, n, t);
    EverythingSettles(root, n, c);
    LeastIsLeast(root, t, 0, n + 1);
    LeastIsLeast(root, c, 0, n + 1);
    if InPlace(t.members, c) {
      HeldInside(t.members, c);
      InsideIsSmaller(c, t);
    }
  }

  /** `(c, i)` can be decided before `(t, inst)`. */
  ghost predicate Before(root: Json, n: nat, c: Json, i: Json, t: Json, inst: Json) {
    || i < inst
    || (i == inst && (Rank(root, n, c) < Rank(root, n, t) || (Rank(root, n, c) == Rank(root, n, t) && c < t)))
  }

  ghost predicate AgreeBefore(root: Json, n: nat, a: iset<(Json, Json)>, b: iset<(Json, Json)>, t: Json, inst: Json) {
    forall c, i | Before(root, n, c, i, t, inst) :: (c, i) in a <==> (c, i) in b
  }

  ghost predicate AgreeOnSmaller(a: iset<(Json, Json)>, b: iset<(Json, Json)>, inst: Json) {
    forall c, i | i < inst :: (c, i) in a <==> (c, i) in b
  }

  /** The remaining keywords apply schemas to parts of the instance only. */
  ghost predicate Descending(leaf: Leaf) {
    forall others, shape, a, b, inst | AgreeOnSmaller(a, b, inst) :: leaf(others, shape, a, inst) == leaf(others, shape, b, inst)
  }

  /** More generally, they look only at what can be decided before. */
  ghost predicate Orderly(leaf: Leaf, root: Json, n: nat) {
    forall m, a, b, inst | AgreeBefore(root, n, a, b, Obj(m), inst) ::
      leaf(Others(m), ShapeOf(m), a, inst) == leaf(Others(m), ShapeOf(m), b, inst)
  }

  lemma DescendingIsOrderly(leaf: Leaf, root: Json, n: nat)
    requires Descending(leaf)
    ensures Orderly(leaf, root, n)
  {
    forall m, a, b, inst | AgreeBefore(root, n, a, b, Obj(m), inst)
      ensures leaf(Others(m), ShapeOf(m), a, inst) == leaf(Others(m), ShapeOf(m), b, inst)
    {
      forall c, i | i < inst ensures (c, i) in a <==> (c, i) in b { assert Before(root, n, c, i, Obj(m), inst); }
      assert AgreeOnSmaller(a, b, inst);
    }
  }

  lemma MeetsFromBefore(leaf: Leaf, root: Json, n: nat, a: iset<(Json, Json)>, b: iset<(Json, Json)>, t: Json, inst: Json)
    requires Orderly(leaf, root, n) && Guarded(root, n) && AgreeBefore(root, n, a, b, t, inst)
    ensures Meets(leaf, a, root, t, inst) <==> Meets(leaf, b, root, t, inst)
  {
    if t.Obj? {
      var m := t.members;
      forall c, i | Applied(m, c) && Piece(i, inst) ensures (c, i) in a <==> (c, i) in b {
        PieceIsSmaller(i, inst);
        assert Before(root, n, c, i, t, inst);
      }
      forall c | InPlace(m, c) ensures (c, inst) in a <==> (c, inst) in b {
        RankFalls(root, n, t, c);
        assert Before(root, n, c, inst, t, inst);
      }
      assert AgreeBefore(root, n, a, b, Obj(m), inst);
      if TargetOf(root, m).Some? {
        var d := TargetOf(root, m).value;
        RankFalls(root, n, t, d);
        assert Before(root, n, d, inst, t, inst);
      }
      MeetsLocally(leaf, a, b, root, t, inst);
    }
  }

  ghost predicate Verdict(leaf: Leaf, root: Json, n: nat, t: Json, inst: Json)
    decreases inst, Rank(root, n, t), t
  {
    Meets(leaf, VerdictsBefore(leaf, root, n, t, inst), root, t, inst)
  }

  ghost function VerdictsBefore(leaf: Leaf, root: Json, n: nat, t: Json, inst: Json): iset<(Json, Json)>
    decreases inst, Rank(root, n, t), t, 0
  {
    iset p: (Json, Json) | Before(root, n, p.0, p.1, t, inst) && Verdict(leaf, root, n, p.0, p.1)
  }

  /** A guarded document has a reading. */
  lemma ReadingExists(leaf: Leaf, root: Json, n: nat) returns (a: iset<(Json, Json)>)
    requires Orderly(leaf, root, n) && Guarded(root, n)
    ensures Solves(leaf, root, a)
  {
    a := iset p: (Json, Json) | Verdict(leaf, root, n, p.0, p.1);
    forall t, inst ensures (t, inst) in a <==> Meets(leaf, a, root, t, inst) {
      var before := VerdictsBefore(leaf, root, n, t, inst);
      assert AgreeBefore(root, n, before, a, t, inst);
      MeetsFromBefore(leaf, root, n, before, a, t, inst);
    }
  }

  /** And only one. */
  lemma {:induction false} ReadingIsUnique(leaf: Leaf, root: Json, n: nat, a: iset<(Json, Json)>, b: iset<(Json, Json)>, t: Json, inst: Json)
    requires Orderly(leaf, root, n) && Guarded(root, n) && Solves(leaf, root, a) && Solves(leaf, root, b)
    ensures (t, inst) in a <==> (t, inst) in b
    decreases inst, Rank(root, n, t), t
  {
    forall c, i | Before(root, n, c, i, t, inst) ensures (c, i) in a <==> (c, i) in b {
      ReadingIsUnique(leaf, root, n, a, b, c, i);
    }
    MeetsFromBefore(leaf, root, n, a, b, t, inst);
  }

  // ---------------------------------------------------------------- settled documents

  /** A tree without references settles at once. */
  lemma {:induction false} RefFreeSettles(root: Json, t: Json)
    requires Refs(Never(), t)
    ensures Settles(root, t, 0)
    decreases t
  {
    if t.Obj? {
      assert !HasRef(t.members);
      forall c | c < t && InPlace(t.members, c) ensures Settles(root, c, 0) {
        HeldInside(t.members, c);
        InsideKeepsRefs(Never(), c, t);
        RefFreeSettles(root, c);
      }
    }
  }

  /** So does a document without references. */
  lemma RefFreeGuarded(root: Json)
    requires Refs(Never(), root)
    ensures Guarded(root, 0)
  {
    forall ref | Resolve(root, ref).Some? ensures Settles(root, Resolve(root, ref).value, 0) {
      TargetKeepsRefs(Never(), root, ref);
      RefFreeSettles(root, Resolve(root, ref).value);
    }
  }
}
