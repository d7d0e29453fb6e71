/** Tool lists and the guard around the language model that shortens them
    (internal/mcp/optimize.go, internal/middleware/optimizer.go). */
module ToolModel {
  import opened Options

  datatype Tool = Tool(name: string, description: string, schema: string)

  /** Bytes of a character in UTF-8. */
  function Width(c: char): nat {
    if c < 0x80 as char then 1 else if c < 0x800 as char then 2 else if c < 0x10000 as char then 3 else 4
  }

  /** The length of a Go string. */
  function Bytes(text: string): nat {
    if text == [] then 0 else Bytes(text[..|text| - 1]) + Width(text[|text| - 1])
  }

  /** The encoding of a character (section 3 of RFC 3629): a leading byte that tells how many follow, and bytes of six
      bits each. */
  function Utf8(c: char): seq<nat> {
    var n := c as int;
    if n <= 127 then [n]
    else if n <= 2047 then [192 + n / 64, 128 + n % 64]
    else if n <= 65535 then [224 + n / 4096, 128 + n / 64 % 64, 128 + n % 64]
    else [240 + n / 262144, 128 + n / 4096 % 64, 128 + n / 64 % 64, 128 + n % 64]
  }

  function Encoded(text: string): seq<nat> {
    if text == [] then [] else Encoded(text[..|text| - 1]) + Utf8(text[|text| - 1])
  }

  /** Sizes are counted in bytes of that encoding. */
  lemma {:induction false} BytesAreEncoded(text: string)
    ensures Bytes(text) == |Encoded(text)|
  {
    if text == [] {
    } else {
      BytesAreEncoded(text[..|text| - 1]);
    }
  }

  function Size(t: Tool): nat {
    Bytes(t.description) + Bytes(t.schema)
  }

  function Weight(ts: seq<Tool>): nat {
    if ts == [] then 0 else Weight(ts[..|ts| - 1]) + Size(ts[|ts| - 1])
  }

  function Joined(parts: seq<seq<Tool>>): seq<Tool> {
    if parts == [] then [] else Joined(parts[..|parts| - 1]) + parts[|parts| - 1]
  }

  function PruneTool(t: Tool, prune: string -> string): Tool {
    Tool(t.name, t.description, prune(t.schema))
  }

  function Names(ts: seq<Tool>): seq<string> {
    seq(|ts|, i requires 0 <= i < |ts| => ts[i].name)
  }

  ghost predicate Distinct(names: seq<string>) {
    forall i, j | 0 <= i < j < |names| :: names[i] != names[j]
  }

  /** Name and description are those of the original, and the schema is its schema pruned. */
  predicate IsPruned(t: Tool, original: Tool, prune: string -> string) {
    t.name == original.name && t.description == original.description && t.schema == prune(original.schema)
  }

  /** Fewer bytes of description and schema than the pruned original has. */
  predicate IsSmaller(t: Tool, original: Tool, prune: string -> string) {
    Bytes(t.description) + Bytes(t.schema) < Bytes(original.description) + Bytes(prune(original.schema))
  }

  /** `out` answers for `tools`: the names agree one to one, and each tool is the pruned original of that
      name or strictly smaller than it. */
  ghost predicate Guarded(tools: seq<Tool>, out: seq<Tool>, prune: string -> string) {
    && Distinct(Names(tools))
    && multiset(Names(out)) == multiset(Names(tools))
    && forall i, j | 0 <= i < |out| && 0 <= j < |tools| && out[i].name == tools[j].name ::
         IsPruned(out[i], tools[j], prune) || IsSmaller(out[i], tools[j], prune)
  }

  /** The last tool of that name. */
  function Lookup(ts: seq<Tool>, name: string): Option<Tool> {
    if ts == [] then None
    else if ts[|ts| - 1].name == name then Some(ts[|ts| - 1]) else Lookup(ts[..|ts| - 1], name)
  }

  // ---------------------------------------------------------------- names

  ghost function NameSet(ts: seq<Tool>): set<string> {
    set i | 0 <= i < |ts| :: ts[i].name
  }

  lemma {:induction false} FewNames(ts: seq<Tool>)
    ensures |NameSet(ts)| <= |ts|
    ensures |NameSet(ts)| == |ts| ==> Distinct(Names(ts))
  {
    if ts == [] {
    } else {
      var init, last := ts[..|ts| - 1], ts[|ts| - 1];
      FewNames(init);
      assert NameSet(ts) == NameSet(init) + {last.name};
      if |NameSet(ts)| == |ts| {
        assert last.name !in NameSet(init);
        forall i, j | 0 <= i < j < |ts| ensures Names(ts)[i] != Names(ts)[j] {
          assert init[i].name in NameSet(init);
          if j < |init| { assert Names(init)[i] != Names(init)[j]; }
        }
      }
    }
  }

  lemma {:induction false} DistinctNames(ts: seq<Tool>)
    requires Distinct(Names(ts))
    ensures |NameSet(ts)| == |ts|
    ensures multiset(Names(ts)) == multiset(NameSet(ts))
  {
    if ts == [] {
    } else {
      var init, last := ts[..|ts| - 1], ts[|ts| - 1];
      assert Names(ts) == Names(init) + [last.name];
      assert forall i | 0 <= i < |init| :: Names(ts)[i] == init[i].name;
      DistinctNames(init);
      assert NameSet(ts) == NameSet(init) + {last.name};
      forall i | 0 <= i < |init| ensures init[i].name != last.name {
        assert Names(ts)[i] == init[i].name && Names(ts)[|init|] == last.name;
      }
      assert last.name !in NameSet(init);
    }
  }

  lemma SubsetOfSameSize(a: set<string>, b: set<string>)
    requires a <= b && |a| >= |b|
    ensures a == b
  {
    assert b == a + (b - a);
  }

  /** As many tools as asked for, all known and none twice: then the names are a permutation, and those
      asked for were distinct. */
  lemma Pigeonhole(tools: seq<Tool>, out: seq<Tool>)
    requires |out| == |tools| && Distinct(Names(out)) && NameSet(out) <= NameSet(tools)
    ensures Distinct(Names(tools)) && multiset(Names(out)) == multiset(Names(tools))
  {
    DistinctNames(out);
    FewNames(tools);
    SubsetOfSameSize(NameSet(out), NameSet(tools));
    DistinctNames(tools);
  }

  lemma {:induction false} LookupFinds(ts: seq<Tool>, name: string)
    ensures Lookup(ts, name).None? <==> name !in NameSet(ts)
    ensures Lookup(ts, name).Some? ==> Lookup(ts, name).value in ts && Lookup(ts, name).value.name == name
  {
    if ts == [] {
    } else {
      LookupFinds(ts[..|ts| - 1], name);
      assert NameSet(ts) == NameSet(ts[..|ts| - 1]) + {ts[|ts| - 1].name};
    }
  }

  lemma {:induction false} LookupUnique(ts: seq<Tool>, j: nat)
    requires Distinct(Names(ts)) && j < |ts|
    ensures Lookup(ts, ts[j].name) == Some(ts[j])
    decreases |ts|
  {
    if j < |ts| - 1 {
      var init := ts[..|ts| - 1];
      assert Names(ts)[j] != Names(ts)[|ts| - 1];
      assert forall i | 0 <= i < |init| :: Names(init)[i] == Names(ts)[i];
      LookupUnique(init, j);
    }
  }
}

/** Batching, collecting and checking the model's answers. */
module ToolOptimizer {
  import opened Options
  import opened ToolModel

  const BUDGET := 30000

  /** No batch is empty, only a batch of one exceeds the budget, and none could have taken the next tool. */
  ghost predicate Batched(batches: seq<seq<Tool>>, budget: int) {
    && (forall i | 0 <= i < |batches| :: Fits(batches[i], budget))
    && (forall i | 0 <= i < |batches| - 1 :: FullBefore(batches, i, budget))
  }

  ghost predicate Fits(batch: seq<Tool>, budget: int) {
    batch != [] && (Weight(batch) <= budget || |batch| == 1)
  }

  ghost predicate FullBefore(batches: seq<seq<Tool>>, i: nat, budget: int)
    requires i < |batches| - 1
  {
    Full(batches[i], batches[i + 1], budget)
  }

  ghost predicate Full(batch: seq<Tool>, next: seq<Tool>, budget: int) {
    next != [] ==> Weight(batch) + Size(next[0]) > budget
  }

  lemma Flush(batches: seq<seq<Tool>>, current: seq<Tool>, budget: int)
    requires Batched(batches, budget) && Fits(current, budget)
    requires batches != [] ==> Full(batches[|batches| - 1], current, budget)
    ensures Batched(batches + [current], budget)
    ensures Joined(batches + [current]) == Joined(batches) + current
  {
    JoinNext(batches, current);
    FlushBatched(batches, current, budget);
  }

  lemma JoinNext(batches: seq<seq<Tool>>, current: seq<Tool>)
    ensures Joined(batches + [current]) == Joined(batches) + current
  {
    assert (batches + [current])[..|batches|] == batches;
  }

  lemma FlushBatched(batches: seq<seq<Tool>>, current: seq<Tool>, budget: int)
    requires Batched(batches, budget) && Fits(current, budget)
    requires batches != [] ==> Full(batches[|batches| - 1], current, budget)
    ensures Batched(batches + [current], budget)
  {
    var all := batches + [current];
    forall i | 0 <= i < |all| - 1 ensures FullBefore(all, i, budget) {
      if i < |batches| - 1 { assert FullBefore(batches, i, budget); }
    }
  }

  lemma Grow(current: seq<Tool>, t: Tool)
    ensures Weight(current + [t]) == Weight(current) + Size(t)
  {
    assert (current + [t])[..|current|] == current;
  }

  /** Between two tools: `done` is spread over the finished batches and the current one. */
  ghost predicate Filling(done: seq<Tool>, batches: seq<seq<Tool>>, current: seq<Tool>, budget: int) {
    && Joined(batches) + current == done
    && Batched(batches, budget)
    && (current == [] ==> batches == [])
    && (current != [] ==> Fits(current, budget))
    && (batches != [] ==> Full(batches[|batches| - 1], current, budget))
  }

  /** The weight of a list is the sum of the sizes in it, however it is cut. */
  lemma {:induction false} WeightAdds(a: seq<Tool>, b: seq<Tool>)
    ensures Weight(a + b) == Weight(a) + Weight(b)
    ensures |b| == 1 ==> Weight(b) == Bytes(b[0].description) + Bytes(b[0].schema)
    decreases |b|
  {
    if b == [] {
      assert a + b == a;
    } else {
      WeightAdds(a, b[..|b| - 1]);
      assert (a + b)[..|a + b| - 1] == a + b[..|b| - 1];
    }
  }

  lemma Extend(done: seq<Tool>, batches: seq<seq<Tool>>, current: seq<Tool>, budget: int, t: Tool)
    requires Filling(done, batches, current, budget) && (current == [] || Weight(current) + Size(t) <= budget)
    ensures Filling(done + [t], batches, current + [t], budget)
  {
    Grow(current, t);
    assert Joined(batches) + (current + [t]) == (Joined(batches) + current) + [t];
  }

  lemma StartNext(done: seq<Tool>, batches: seq<seq<Tool>>, current: seq<Tool>, budget: int, t: Tool)
    requires Filling(done, batches, current, budget) && current != [] && Weight(current) + Size(t) > budget
    ensures Filling(done + [t], batches + [current], [t], budget)
  {
    Flush(batches, current, budget);
    assert Full(current, [t], budget);
    assert (batches + [current])[|batches|] == current;
  }

  /** The finished batches and the current one after a list of tools. */
  function Fill(tools: seq<Tool>, budget: int): (seq<seq<Tool>>, seq<Tool>) {
    if tools == [] then ([], [])
    else
      var (batches, current) := Fill(tools[..|tools| - 1], budget);
      var t := tools[|tools| - 1];
      if current != [] && Weight(current) + Size(t) > budget then (batches + [current], [t]) else (batches, current + [t])
  }

  function Batches(tools: seq<Tool>, budget: int): seq<seq<Tool>> {
    var (batches, current) := Fill(tools, budget);
    if current == [] then batches else batches + [current]
  }

  lemma FillNext(tools: seq<Tool>, t: Tool, budget: int)
    ensures var (batches, current) := Fill(tools, budget);
      Fill(tools + [t], budget) ==
        if current != [] && Weight(current) + Size(t) > budget then (batches + [current], [t]) else (batches, current + [t])
  {
    assert (tools + [t])[..|tools|] == tools;
  }

  ghost predicate Filled(tools: seq<Tool>, budget: int) {
    Filling(tools, Fill(tools, budget).0, Fill(tools, budget).1, budget)
  }

  lemma FilledNothing(tools: seq<Tool>, budget: int)
    requires tools == []
    ensures Filled(tools, budget)
  {
  }

  lemma FilledNext(tools: seq<Tool>, budget: int)
    requires tools != [] && Filled(tools[..|tools| - 1], budget)
    ensures Filled(tools, budget)
  {
    var init, t := tools[..|tools| - 1], tools[|tools| - 1];
    var (batches, current) := Fill(init, budget);
    assert tools == init + [t];
    if current != [] && Weight(current) + Size(t) > budget {
      StartNext(init, batches, current, budget, t);
    } else {
      Extend(init, batches, current, budget, t);
    }
  }

  lemma {:induction false} FillFills(tools: seq<Tool>, budget: int)
    ensures Filled(tools, budget)
  {
    if tools == [] {
      FilledNothing(tools, budget);
    } else {
      FillFills(tools[..|tools| - 1], budget);
      FilledNext(tools, budget);
    }
  }

  /** The batches make up the list, none is empty, only a batch of one exceeds the budget, and none could
      have taken the next tool. */
  lemma BatchesCover(tools: seq<Tool>, budget: int)
    ensures Joined(Batches(tools, budget)) == tools
    ensures Batched(Batches(tools, budget), budget)
  {
    FillFills(tools, budget);
    var (batches, current) := Fill(tools, budget);
    if current != [] { Flush(batches, current, budget); }
  }

  /** Cuts a list into consecutive batches, each as long as the budget allows. */
  method BatchBySize(tools: seq<Tool>, budget: int) returns (batches: seq<seq<Tool>>)
    ensures batches == Batches(tools, budget)
  {
    batches := [];
    var current: seq<Tool>, size := [], 0;
    for n := 0 to |tools|
      invariant (batches, current) == Fill(tools[..n], budget)
      invariant size == Weight(current)
    {
      var t := tools[n];
      assert tools[..n + 1] == tools[..n] + [t];
      FillNext(tools[..n], t, budget);
      if current != [] && size + Size(t) > budget {
        batches := batches + [current];
        current, size := [], 0;
        assert [] + [t] == [t];
      }
      Grow(current, t);
      current := current + [t];
      size := size + Size(t);
    }
    assert tools[..|tools|] == tools;
    if current != [] { batches := batches + [current]; }
  }

  ghost predicate Matches(tools: seq<Tool>, out: seq<Tool>) {
    |out| == |tools| && NameSet(out) <= NameSet(tools) && Distinct(Names(out))
  }

  /** The name check: as many as expected, each known, none repeated. */
  method CheckNames(tools: seq<Tool>, out: seq<Tool>) returns (ok: bool)
    ensures ok <==> Matches(tools, out)
  {
    if |out| != |tools| { return false; }
    var expected: set<string> := {};
    for i := 0 to |tools|
      invariant expected == NameSet(tools[..i])
    {
      assert NameSet(tools[..i + 1]) == NameSet(tools[..i]) + {tools[i].name} by {
        assert forall k | 0 <= k < i :: tools[..i + 1][k] == tools[..i][k];
      }
      expected := expected + {tools[i].name};
    }
    assert tools[..|tools|] == tools;
    var seen: set<string> := {};
    for i := 0 to |out|
      invariant forall k | 0 <= k < i :: out[k].name in expected && out[k].name in seen
      invariant forall x | x in seen :: exists k :: 0 <= k < i && out[k].name == x
      invariant forall j, k | 0 <= j < k < i :: out[j].name != out[k].name
    {
      if out[i].name !in expected {
        assert out[i].name in NameSet(out);
        return false;
      }
      if out[i].name in seen {
        var k :| 0 <= k < i && out[k].name == out[i].name;
        assert Names(out)[k] == Names(out)[i];
        return false;
      }
      seen := seen + {out[i].name};
    }
    assert forall j | 0 <= j < |out| :: Names(out)[j] == out[j].name;
    ok := true;
  }

  /** The answers to all batches, one after the other; none if a batch has no usable answer. */
  function Collect(batches: seq<seq<Tool>>, answer: (nat, seq<Tool>) -> Option<seq<Tool>>): Option<seq<Tool>> {
    if batches == [] then Some([])
    else
      var n := |batches| - 1;
      var before, last := Collect(batches[..n], answer), answer(n, batches[n]);
      if before.None? || last.None? then None else Some(before.value + last.value)
  }

  /** All batches are answered, with these answers. */
  ghost predicate Answered(batches: seq<seq<Tool>>, answer: (nat, seq<Tool>) -> Option<seq<Tool>>, parts: seq<seq<Tool>>) {
    |parts| == |batches| && forall i: nat | i < |batches| :: answer(i, batches[i]) == Some(parts[i])
  }

  /** There is a result exactly when every batch is answered, and it is the answers in the order of the batches. */
  lemma {:induction false} CollectExactly(batches: seq<seq<Tool>>, answer: (nat, seq<Tool>) -> Option<seq<Tool>>)
    ensures Collect(batches, answer).None? <==> exists i: nat :: i < |batches| && answer(i, batches[i]).None?
    ensures forall parts | Answered(batches, answer, parts) :: Collect(batches, answer) == Some(Joined(parts))
  {
    if batches == [] {
    } else {
      var n := |batches| - 1;
      var init := batches[..n];
      CollectExactly(init, answer);
      assert forall i: nat | i < n :: init[i] == batches[i];
      if i: nat :| i < |batches| && answer(i, batches[i]).None? && i < n { assert answer(i, init[i]).None?; }
      forall parts | Answered(batches, answer, parts) ensures Collect(batches, answer) == Some(Joined(parts)) {
        assert Answered(init, answer, parts[..n]);
        assert answer(n, batches[n]) == Some(parts[n]);
      }
    }
  }

  method AskAll(batches: seq<seq<Tool>>, answer: (nat, seq<Tool>) -> Option<seq<Tool>>) returns (r: Option<seq<Tool>>)
    ensures r == Collect(batches, answer)
  {
    var out := [];
    for i := 0 to |batches|
      invariant Collect(batches[..i], answer) == Some(out)
    {
      assert batches[..i + 1][..i] == batches[..i];
      var a := answer(i, batches[i]);
      if a.None? {
        NoneStays(batches, answer, i + 1);
        return None;
      }
      out := out + a.value;
    }
    assert batches[..|batches|] == batches;
    r := Some(out);
  }

  lemma {:induction false} NoneStays(batches: seq<seq<Tool>>, answer: (nat, seq<Tool>) -> Option<seq<Tool>>, i: nat)
    requires i <= |batches| && Collect(batches[..i], answer).None?
    ensures Collect(batches, answer).None?
    decreases |batches|
  {
    if i == |batches| {
      assert batches[..i] == batches;
    } else {
      assert batches[..|batches| - 1][..i] == batches[..i];
      NoneStays(batches[..|batches| - 1], answer, i);
    }
  }

  ghost predicate SmallerKept(pruned: seq<Tool>, answers: seq<Tool>, out: seq<Tool>) {
    && |out| == |answers|
    && forall i | 0 <= i < |out| ::
         var orig := Lookup(pruned, answers[i].name);
         orig.Some? && out[i] == if Size(answers[i]) >= Size(orig.value) then orig.value else answers[i]
  }

  /** Per-tool safety: an answer that is not strictly smaller gives way to the pruned original. */
  method KeepSmaller(pruned: seq<Tool>, answers: seq<Tool>) returns (out: seq<Tool>)
    requires NameSet(answers) <= NameSet(pruned)
    ensures SmallerKept(pruned, answers, out)
  {
    var byName: map<string, Tool> := map[];
    for i := 0 to |pruned|
      invariant forall name :: name in byName <==> Lookup(pruned[..i], name).Some?
      invariant forall name | name in byName :: Lookup(pruned[..i], name) == Some(byName[name])
    {
      assert pruned[..i + 1][..i] == pruned[..i];
      byName := byName[pruned[i].name := pruned[i]];
    }
    assert pruned[..|pruned|] == pruned;
    out := answers;
    for i := 0 to |answers|
      invariant |out| == |answers|
      invariant forall k | i <= k < |out| :: out[k] == answers[k]
      invariant forall k | 0 <= k < i ::
                  var orig := Lookup(pruned, answers[k].name);
                  && orig.Some?
                  && out[k] == if Size(answers[k]) >= Size(orig.value) then orig.value else answers[k]
    {
      LookupFinds(pruned, answers[i].name);
      assert answers[i].name in NameSet(answers);
      var orig := byName[answers[i].name];
      if Size(answers[i]) >= Size(orig) { out := out[i := orig]; }
    }
  }

  function PruneAll(tools: seq<Tool>, prune: string -> string): seq<Tool> {
    seq(|tools|, i requires 0 <= i < |tools| => PruneTool(tools[i], prune))
  }

  lemma SameNames(tools: seq<Tool>, prune: string -> string)
    ensures Names(PruneAll(tools, prune)) == Names(tools)
    ensures NameSet(PruneAll(tools, prune)) == NameSet(tools)
  {
    var p := PruneAll(tools, prune);
    assert forall i | 0 <= i < |tools| :: p[i].name == tools[i].name;
  }

  lemma GuardHolds(tools: seq<Tool>, prune: string -> string, answers: seq<Tool>, out: seq<Tool>)
    requires Matches(tools, answers) && SmallerKept(PruneAll(tools, prune), answers, out)
    ensures Guarded(tools, out, prune)
  {
    var pruned := PruneAll(tools, prune);
    SameNames(tools, prune);
    Pigeonhole(tools, answers);
    forall i | 0 <= i < |out| ensures out[i].name == answers[i].name { LookupFinds(pruned, answers[i].name); }
    assert Names(out) == Names(answers);
    forall i, j | 0 <= i < |out| && 0 <= j < |tools| && out[i].name == tools[j].name
      ensures IsPruned(out[i], tools[j], prune) || IsSmaller(out[i], tools[j], prune)
    {
      LookupUnique(pruned, j);
      assert pruned[j].name == answers[i].name;
    }
  }

  /** The whole optimization, for any pruning of schemas and whatever the model answers. It succeeds exactly
      when every batch is answered and the names match, and then the result is guarded. */
  method OptimizeTools(tools: seq<Tool>, prune: string -> string, available: bool,
                       answer: (nat, seq<Tool>) -> Option<seq<Tool>>)
    returns (r: Option<seq<Tool>>)
    ensures tools == [] || !available ==>
              r.Some? && |r.value| == |tools| && forall i | 0 <= i < |tools| :: IsPruned(r.value[i], tools[i], prune)
    ensures tools != [] && available ==>
              var answers := Collect(Batches(PruneAll(tools, prune), 30000), answer);
              && (r.Some? <==> answers.Some? && Matches(tools, answers.value))
              && (r.Some? ==> SmallerKept(PruneAll(tools, prune), answers.value, r.value) && Guarded(tools, r.value, prune))
  {
    var pruned := PruneAll(tools, prune);
    if tools == [] {
      assert pruned == tools;
      return Some(tools);
    }
    if !available { return Some(pruned); }
    var batches := BatchBySize(pruned, BUDGET);
    var answers := AskAll(batches, answer);
    if answers.None? { return None; }
    var ok := CheckNames(tools, answers.value);
    if !ok { return None; }
    SameNames(tools, prune);
    var out := KeepSmaller(pruned, answers.value);
    GuardHolds(tools, prune, answers.value, out);
    r := Some(out);
  }
}

/** Serving the optimized definitions in a tools/list response. */
module OptimizerResponse {
  import opened Options
  import opened ToolModel

  /** A decoded tools/list result: the tools and every sibling field. */
  datatype Listing = Listing(tools: seq<Tool>, siblings: map<string, string>)

  /** What the middleware finds out before it touches the result; `stored` is absent when the stored
      definitions do not parse. */
  datatype Lookups = Lookups(method_: string, enabled: bool, ready: bool, hash: string, stored: Option<seq<Tool>>)

  function Swapped(original: seq<Tool>, stored: seq<Tool>): (r: seq<Tool>)
    ensures |r| == |original|
  {
    seq(|original|, i requires 0 <= i < |original| =>
      var found := Lookup(stored, original[i].name);
      if found.Some? then found.value else original[i])
  }

  /** The client sees the same tools in the same order. */
  lemma SwapKeepsNames(original: seq<Tool>, stored: seq<Tool>)
    ensures Names(Swapped(original, stored)) == Names(original)
  {
    forall i | 0 <= i < |original| ensures Swapped(original, stored)[i].name == original[i].name {
      LookupFinds(stored, original[i].name);
    }
  }

  /** When the stored list was produced for the tools now listed, in whatever order, every tool served is
      the pruned live one or strictly smaller. */
  lemma ServedToolsAreGuarded(original: seq<Tool>, tools: seq<Tool>, stored: seq<Tool>, prune: string -> string, i: nat)
    requires Guarded(tools, stored, prune) && multiset(original) == multiset(tools) && i < |original|
    ensures var t := Swapped(original, stored)[i];
      && t.name == original[i].name
      && (IsPruned(t, original[i], prune) || IsSmaller(t, original[i], prune))
  {
    var name := original[i].name;
    assert original[i] in multiset(tools);
    var j :| 0 <= j < |tools| && tools[j] == original[i];
    assert Names(tools)[j] == name;
    assert name in multiset(Names(stored));
    var k :| 0 <= k < |stored| && Names(stored)[k] == name;
    assert stored[k].name in NameSet(stored);
    LookupFinds(stored, name);
    var h :| 0 <= h < |stored| && stored[h] == Lookup(stored, name).value;
  }

  class Response {
    var failed: bool
    var result: Option<Listing>

    constructor (failed: bool, result: Option<Listing>)
      ensures this.failed == failed && this.result == result
    {
      this.failed, this.result := failed, result;
    }
  }

  /** Replaces the tools of a tools/list response, or leaves the response alone. */
  method ProcessResponse(resp: Response, w: Lookups, hash: seq<Tool> -> string)
    modifies resp`result
    ensures resp.result ==
      var was := old(resp.result);
      if w.method_ == "tools/list" && w.enabled && w.ready && !resp.failed && was.Some?
         && hash(was.value.tools) == w.hash && w.stored.Some?
      then Some(Listing(Swapped(was.value.tools, w.stored.value), was.value.siblings))
      else was
    ensures resp.result.Some? <==> old(resp.result).Some?
    ensures resp.result.Some? ==>
              && Names(resp.result.value.tools) == Names(old(resp.result).value.tools)
              && resp.result.value.siblings == old(resp.result).value.siblings
  {
    if w.method_ != "tools/list" || !w.enabled || !w.ready { return; }
    if resp.failed || resp.result.None? { return; }
    var original := resp.result.value;
    if hash(original.tools) != w.hash { return; }
    if w.stored.None? { return; }
    var byName: map<string, Tool> := map[];
    var stored := w.stored.value;
    for i := 0 to |stored|
      invariant forall name :: name in byName <==> Lookup(stored[..i], name).Some?
      invariant forall name | name in byName :: Lookup(stored[..i], name) == Some(byName[name])
    {
      assert stored[..i + 1][..i] == stored[..i];
      byName := byName[stored[i].name := stored[i]];
    }
    assert stored[..|stored|] == stored;
    var tools := [];
    for i := 0 to |original.tools|
      invariant tools == Swapped(original.tools, stored)[..i]
    {
      var t := original.tools[i];
      tools := tools + [if t.name in byName then byName[t.name] else t];
    }
    SwapKeepsNames(original.tools, stored);
    assert tools == Swapped(original.tools, stored);
    resp.result := Some(original.(tools := tools));
  }
}
