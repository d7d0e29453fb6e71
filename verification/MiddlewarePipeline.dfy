/** Which middleware a server runs, and in what order (internal/store/middleware.go, internal/middleware/middleware.go). */
module MiddlewareConfigs {
  import opened Options

  /** A configuration row; without a server it is a global default. */
  datatype Row = Row(id: string, server: Option<string>, name: string, enabled: bool, config: string, priority: int)

  // ---------------------------------------------------------------- merging

  /** The last row of that name among the global ones, or among the server's own. */
  function Find(rows: seq<Row>, name: string, own: bool): Option<Row> {
    if rows == [] then None
    else
      var r := rows[|rows| - 1];
      if r.name == name && r.server.Some? == own then Some(r) else Find(rows[..|rows| - 1], name, own)
  }

  predicate Unset(config: string) {
    config == "" || config == "{}"
  }

  /** The server's own row wins and inherits the global configuration if it has none; otherwise an enabled
      global row applies. */
  function Effective(rows: seq<Row>, name: string): Option<Row> {
    var own, default := Find(rows, name, true), Find(rows, name, false);
    if own.Some? then
      Some(if Unset(own.value.config) && default.Some? then own.value.(config := default.value.config) else own.value)
    else if default.Some? && default.value.enabled then default
    else None
  }

  lemma {:induction false} FoundHasName(rows: seq<Row>, name: string, own: bool)
    ensures Find(rows, name, own).Some? ==> Find(rows, name, own).value.name == name && Find(rows, name, own).value in rows
  {
    if rows == [] {
    } else {
      FoundHasName(rows[..|rows| - 1], name, own);
    }
  }

  lemma EffectiveHasName(rows: seq<Row>, name: string)
    ensures Effective(rows, name).Some? ==> Effective(rows, name).value.name == name
  {
    FoundHasName(rows, name, true);
    FoundHasName(rows, name, false);
  }

  /** Row `i` is the last of its name among the global ones, or among the server's own. */
  ghost predicate IsLast(rows: seq<Row>, i: nat, name: string, own: bool) {
    && i < |rows| && rows[i].name == name && rows[i].server.Some? == own
    && forall k | i < k < |rows| :: !(rows[k].name == name && rows[k].server.Some? == own)
  }

  lemma {:induction false} FindsLast(rows: seq<Row>, name: string, own: bool, i: nat)
    requires IsLast(rows, i, name, own)
    ensures Find(rows, name, own) == Some(rows[i])
    decreases |rows|
  {
    var n := |rows| - 1;
    if i < n {
      var init := rows[..n];
      assert init[i] == rows[i] && forall k | i < k < n :: init[k] == rows[k];
      FindsLast(init, name, own, i);
    }
  }

  lemma {:induction false} FindsNone(rows: seq<Row>, name: string, own: bool)
    requires forall k | 0 <= k < |rows| :: !(rows[k].name == name && rows[k].server.Some? == own)
    ensures Find(rows, name, own).None?
  {
    if rows == [] {
    } else {
      FindsNone(rows[..|rows| - 1], name, own);
    }
  }

  /** What applies under a name. An own row applies, enabled or not, with the configuration of the global row if its own is
      empty or `{}` and there is a global row. Without one the global row applies if it is enabled. Otherwise nothing
      does. */
  lemma EffectiveExactly(rows: seq<Row>, name: string)
    ensures forall i: nat, g: nat | IsLast(rows, i, name, true) && IsLast(rows, g, name, false) ::
              Effective(rows, name) == Some(if rows[i].config in {"", "{}"} then rows[i].(config := rows[g].config) else rows[i])
    ensures forall i: nat | IsLast(rows, i, name, true) && (forall k | 0 <= k < |rows| && rows[k].name == name :: rows[k].server.Some?) ::
              Effective(rows, name) == Some(rows[i])
    ensures forall g: nat | IsLast(rows, g, name, false) && (forall k | 0 <= k < |rows| && rows[k].name == name :: rows[k].server.None?) ::
              Effective(rows, name) == if rows[g].enabled then Some(rows[g]) else None
    ensures (forall k | 0 <= k < |rows| :: rows[k].name != name) ==> Effective(rows, name).None?
  {
    forall i: nat, own | IsLast(rows, i, name, own) ensures Find(rows, name, own) == Some(rows[i]) { FindsLast(rows, name, own, i); }
    forall own | forall k | 0 <= k < |rows| :: !(rows[k].name == name && rows[k].server.Some? == own)
      ensures Find(rows, name, own).None?
    {
      FindsNone(rows, name, own);
    }
  }

  /** `m` holds exactly the rows `Find` finds. */
  ghost predicate Indexes(m: map<string, Row>, rows: seq<Row>, own: bool) {
    forall name :: (name in m <==> Find(rows, name, own).Some?)
                && (name in m ==> Find(rows, name, own) == Some(m[name]))
  }

  method Index(rows: seq<Row>) returns (globals: map<string, Row>, own: map<string, Row>)
    ensures Indexes(globals, rows, false) && Indexes(own, rows, true)
  {
    globals, own := map[], map[];
    for i := 0 to |rows|
      invariant Indexes(globals, rows[..i], false) && Indexes(own, rows[..i], true)
    {
      assert rows[..i + 1][..i] == rows[..i];
      if rows[i].server.Some? { own := own[rows[i].name := rows[i]]; } else { globals := globals[rows[i].name := rows[i]]; }
    }
    assert rows[..|rows|] == rows;
  }

  /** Every middleware that applies to the server, by name. */
  ghost predicate Merged(m: map<string, Row>, rows: seq<Row>) {
    forall name :: (name in m <==> Effective(rows, name).Some?) && (name in m ==> Effective(rows, name) == Some(m[name]))
  }

  method Merge(ghost rows: seq<Row>, globals: map<string, Row>, own: map<string, Row>) returns (merged: map<string, Row>)
    requires Indexes(globals, rows, false) && Indexes(own, rows, true)
    ensures Merged(merged, rows)
  {
    merged := map[];
    var todo := globals.Keys;
    while todo != {}
      invariant todo <= globals.Keys
      invariant forall name :: name in merged <==> name in globals && name !in todo && globals[name].enabled
      invariant forall name | name in merged :: merged[name] == globals[name]
      decreases |todo|
    {
      var name :| name in todo;
      if globals[name].enabled { merged := merged[name := globals[name]]; }
      todo := todo - {name};
    }
    todo := own.Keys;
    while todo != {}
      invariant todo <= own.Keys
      invariant forall name :: name in merged <==> (name in own && name !in todo) || (name in globals && globals[name].enabled)
      invariant forall name | name in merged :: merged[name] ==
                  if name in own && name !in todo then
                    if Unset(own[name].config) && name in globals then own[name].(config := globals[name].config) else own[name]
                  else if name in globals then globals[name] else merged[name]
      decreases |todo|
    {
      var name :| name in todo;
      var row := own[name];
      if Unset(row.config) && name in globals { row := row.(config := globals[name].config); }
      merged := merged[name := row];
      todo := todo - {name};
    }
  }

  // ---------------------------------------------------------------- sorting

  /** Puts `x` behind everything of its priority or a smaller one. */
  function Insert(s: seq<Row>, x: Row): seq<Row> {
    if s == [] || s[|s| - 1].priority <= x.priority then s + [x]
    else Insert(s[..|s| - 1], x) + [s[|s| - 1]]
  }

  function Sorted(s: seq<Row>): seq<Row> {
    if s == [] then [] else Insert(Sorted(s[..|s| - 1]), s[|s| - 1])
  }

  ghost predicate Ordered(s: seq<Row>) {
    forall i, j | 0 <= i < j < |s| :: s[i].priority <= s[j].priority
  }

  function OfPriority(s: seq<Row>, p: int): seq<Row> {
    if s == [] then []
    else OfPriority(s[..|s| - 1], p) + if s[|s| - 1].priority == p then [s[|s| - 1]] else []
  }

  lemma {:induction false} InsertKeeps(s: seq<Row>, x: Row)
    ensures multiset(Insert(s, x)) == multiset(s) + multiset{x}
    ensures |Insert(s, x)| == |s| + 1
  {
    if s != [] && s[|s| - 1].priority > x.priority {
      var init, last := s[..|s| - 1], s[|s| - 1];
      InsertKeeps(init, x);
      assert multiset(s) == multiset(init) + multiset{last} by { assert s == init + [last]; }
    }
  }

  ghost predicate AtMost(s: seq<Row>, p: int) {
    forall i | 0 <= i < |s| :: s[i].priority <= p
  }

  lemma OrderedAppend(s: seq<Row>, x: Row)
    requires Ordered(s) && AtMost(s, x.priority)
    ensures Ordered(s + [x])
  {
  }

  lemma {:induction false} InsertAtMost(s: seq<Row>, x: Row, p: int)
    requires AtMost(s, p) && x.priority <= p
    ensures AtMost(Insert(s, x), p)
  {
    if s != [] && s[|s| - 1].priority > x.priority { InsertAtMost(s[..|s| - 1], x, p); }
  }

  lemma {:induction false} InsertOrders(s: seq<Row>, x: Row)
    requires Ordered(s)
    ensures Ordered(Insert(s, x))
  {
    if s == [] || s[|s| - 1].priority <= x.priority {
      OrderedAppend(s, x);
    } else {
      var init, last := s[..|s| - 1], s[|s| - 1];
      InsertOrders(init, x);
      InsertAtMost(init, x, last.priority);
      OrderedAppend(Insert(init, x), last);
    }
  }

  lemma PriorityAppend(s: seq<Row>, x: Row, p: int)
    ensures OfPriority(s + [x], p) == OfPriority(s, p) + if x.priority == p then [x] else []
  {
    assert (s + [x])[..|s|] == s;
  }

  lemma {:induction false} InsertStable(s: seq<Row>, x: Row, p: int)
    requires Ordered(s)
    ensures OfPriority(Insert(s, x), p) == OfPriority(s, p) + if x.priority == p then [x] else []
  {
    if s == [] || s[|s| - 1].priority <= x.priority {
      PriorityAppend(s, x, p);
    } else {
      var init, last := s[..|s| - 1], s[|s| - 1];
      InsertStable(init, x, p);
      PriorityAppend(Insert(init, x), last, p);
    }
  }

  /** The sort orders by priority and keeps every row. */
  lemma {:induction false} SortedSorts(s: seq<Row>)
    ensures Ordered(Sorted(s)) && multiset(Sorted(s)) == multiset(s) && |Sorted(s)| == |s|
  {
    if s == [] {
    } else {
      var init, last := s[..|s| - 1], s[|s| - 1];
      SortedSorts(init);
      InsertOrders(Sorted(init), last);
      InsertKeeps(Sorted(init), last);
      assert multiset(s) == multiset(init) + multiset{last} by { assert s == init + [last]; }
    }
  }

  /** Rows of equal priority keep their order. */
  lemma {:induction false} SortedStable(s: seq<Row>, p: int)
    ensures OfPriority(Sorted(s), p) == OfPriority(s, p)
  {
    if s == [] {
    } else {
      var init, last := s[..|s| - 1], s[|s| - 1];
      SortedStable(init, p);
      SortedSorts(init);
      InsertStable(Sorted(init), last, p);
    }
  }

  /** Moving `x` one place to the left. */
  lemma InsertLeft(s: seq<Row>, j: nat, x: Row)
    requires 0 < j <= |s| && x.priority < s[j - 1].priority
    ensures Insert(s[..j], x) + s[j..] == Insert(s[..j - 1], x) + s[j - 1..]
  {
    assert s[..j][..j - 1] == s[..j - 1] && s[..j][j - 1] == s[j - 1];
    assert [s[j - 1]] + s[j..] == s[j - 1..];
  }

  /** The array while `x` is on its way left through the sorted part `s`, ahead of the unsorted `rest`. */
  ghost function Layout(s: seq<Row>, j: nat, x: Row, rest: seq<Row>): (a: seq<Row>)
    requires j <= |s|
    ensures |a| == |s| + 1 + |rest| && a[j] == x && (j > 0 ==> a[j - 1] == s[j - 1])
  {
    s[..j] + [x] + s[j..] + rest
  }

  lemma LayoutSwap(s: seq<Row>, j: nat, x: Row, rest: seq<Row>)
    requires 0 < j <= |s|
    ensures Layout(s, j, x, rest)[j := s[j - 1]][j - 1 := x] == Layout(s, j - 1, x, rest)
  {
  }

  lemma LayoutAtEnd(s: seq<Row>, x: Row, rest: seq<Row>)
    ensures Layout(s, |s|, x, rest) == s + ([x] + rest)
  {
    assert s[..|s|] == s && s[|s|..] == [];
  }

  lemma LayoutDone(s: seq<Row>, j: nat, x: Row, rest: seq<Row>)
    requires j <= |s| && (j > 0 ==> s[j - 1].priority <= x.priority) && Insert(s[..j], x) + s[j..] == Insert(s, x)
    ensures Layout(s, j, x, rest) == Insert(s, x) + rest
  {
    assert Insert(s[..j], x) == s[..j] + [x];
  }

  /** One round of the sort: the row at `|s|` moves left by swaps with its neighbour. */
  method SinkLeft(a: array<Row>, ghost s: seq<Row>, i: nat, ghost x: Row, ghost rest: seq<Row>)
    requires i == |s| && a[..] == Layout(s, i, x, rest)
    modifies a
    ensures a[..] == Insert(s, x) + rest
  {
    assert s[..i] == s && s[i..] == [];
    assert a.Length == |a[..]|;
    var j := i;
    while j > 0 && a[j].priority < a[j - 1].priority
      invariant 0 <= j <= i && a[..] == Layout(s, j, x, rest)
      invariant Insert(s[..j], x) + s[j..] == Insert(s, x)
    {
      assert a[j] == a[..][j] && a[j - 1] == a[..][j - 1];
      InsertLeft(s, j, x);
      LayoutSwap(s, j, x, rest);
      a[j], a[j - 1] := a[j - 1], a[j];
      j := j - 1;
    }
    assert j > 0 ==> a[j] == a[..][j] && a[j - 1] == a[..][j - 1];
    LayoutDone(s, j, x, rest);
  }

  /** The array after `i` rounds. */
  ghost function Rounds(was: seq<Row>, i: nat): seq<Row>
    requires i <= |was|
  {
    Sorted(was[..i]) + was[i..]
  }

  lemma NextRound(was: seq<Row>, i: nat)
    requires i < |was|
    ensures |Sorted(was[..i])| == i
    ensures Rounds(was, i) == Layout(Sorted(was[..i]), i, was[i], was[i + 1..])
    ensures Rounds(was, i + 1) == Insert(Sorted(was[..i]), was[i]) + was[i + 1..]
  {
    SortedSorts(was[..i]);
    assert was[i..] == [was[i]] + was[i + 1..];
    LayoutAtEnd(Sorted(was[..i]), was[i], was[i + 1..]);
    SortedNext(was, i);
  }

  lemma SortedNext(was: seq<Row>, i: nat)
    requires i < |was|
    ensures Sorted(was[..i + 1]) == Insert(Sorted(was[..i]), was[i])
  {
    assert was[..i + 1][..i] == was[..i];
  }

  lemma AllRounds(was: seq<Row>)
    ensures Rounds(was, 0) == was && Rounds(was, |was|) == Sorted(was)
  {
    assert was[..|was|] == was && was[|was|..] == [];
  }

  /** The insertion sort, in place. */
  method SortByPriority(a: array<Row>)
    modifies a
    ensures a[..] == Sorted(old(a[..]))
  {
    ghost var was := a[..];
    AllRounds(was);
    for i := 0 to a.Length
      invariant a[..] == Rounds(was, i)
    {
      NextRound(was, i);
      SinkLeft(a, Sorted(was[..i]), i, was[i], was[i + 1..]);
    }
  }

  // ---------------------------------------------------------------- the effective configuration

  ghost predicate EachOnce(configs: seq<Row>) {
    forall i, j | 0 <= i < j < |configs| :: configs[i].name != configs[j].name
  }

  /** Exactly the effective rows, one per name. */
  ghost predicate Resolves(configs: seq<Row>, rows: seq<Row>) {
    && EachOnce(configs)
    && (forall r | r in configs :: Effective(rows, r.name) == Some(r))
    && (forall name | Effective(rows, name).Some? :: Effective(rows, name).value in configs)
  }

  method Collect(merged: map<string, Row>, ghost rows: seq<Row>) returns (a: array<Row>)
    requires Merged(merged, rows)
    ensures fresh(a) && Resolves(a[..], rows)
  {
    var out: seq<Row> := [];
    var todo := merged.Keys;
    while todo != {}
      invariant todo <= merged.Keys
      invariant EachOnce(out)
      invariant forall r | r in out :: r.name in merged && merged[r.name] == r && r.name !in todo
      invariant forall name | name in merged && name !in todo :: merged[name] in out
      decreases |todo|
    {
      var name :| name in todo;
      EffectiveHasName(rows, name);
      out := out + [merged[name]];
      todo := todo - {name};
    }
    a := new Row[|out|](i requires 0 <= i < |out| => out[i]);
    assert a[..] == out;
  }

  lemma OrderIsFree(configs: seq<Row>, sorted: seq<Row>, rows: seq<Row>)
    requires Resolves(configs, rows) && multiset(sorted) == multiset(configs)
    ensures Resolves(sorted, rows)
  {
    assert forall r :: r in sorted <==> r in multiset(sorted);
    assert forall r :: r in configs <==> r in multiset(configs);
    forall i, j | 0 <= i < j < |sorted| ensures sorted[i].name != sorted[j].name {
      if sorted[i].name == sorted[j].name {
        assert sorted[i] in configs && sorted[j] in configs;
        TwiceInMultiset(sorted, i, j);
        OnceInMultiset(configs, sorted[i]);
      }
    }
  }

  lemma TwiceInMultiset(s: seq<Row>, i: nat, j: nat)
    requires i < j < |s| && s[i] == s[j]
    ensures multiset(s)[s[i]] >= 2
  {
    assert s == s[..j] + [s[j]] + s[j + 1..];
    assert s[i] in s[..j];
  }

  lemma {:induction false} OnceInMultiset(s: seq<Row>, r: Row)
    requires EachOnce(s)
    ensures multiset(s)[r] <= 1
  {
    if s == [] {
    } else {
      var init, last := s[..|s| - 1], s[|s| - 1];
      OnceInMultiset(init, r);
      assert s == init + [last];
      assert last !in init;
    }
  }

  /** The effective configuration of a server, ordered by priority, for any table of rows. */
  method GetForServer(rows: seq<Row>) returns (configs: array<Row>)
    ensures fresh(configs) && Resolves(configs[..], rows) && Ordered(configs[..])
  {
    var globals, own := Index(rows);
    var merged := Merge(rows, globals, own);
    configs := Collect(merged, rows);
    ghost var unsorted := configs[..];
    SortByPriority(configs);
    SortedSorts(unsorted);
    OrderIsFree(unsorted, configs[..], rows);
  }

  // ---------------------------------------------------------------- when is the order determined?

  /** What `GetForServer` may return. */
  ghost predicate Answers(c: seq<Row>, rows: seq<Row>) {
    Resolves(c, rows) && Ordered(c)
  }

  /** Two effective rows share a priority. */
  ghost predicate Tied(rows: seq<Row>, a: string, b: string) {
    && a != b && Effective(rows, a).Some? && Effective(rows, b).Some?
    && Effective(rows, a).value.priority == Effective(rows, b).value.priority
  }

  ghost predicate Strict(c: seq<Row>) {
    forall i, j | 0 <= i < j < |c| :: c[i].priority < c[j].priority
  }

  lemma UntiedIsStrict(c: seq<Row>, rows: seq<Row>)
    requires Answers(c, rows) && forall a, b :: !Tied(rows, a, b)
    ensures Strict(c)
  {
    forall i, j | 0 <= i < j < |c| ensures c[i].priority < c[j].priority {
      assert c[i] in c && c[j] in c;
      assert !Tied(rows, c[i].name, c[j].name);
    }
  }

  ghost predicate SameRows(c: seq<Row>, d: seq<Row>) {
    forall r :: r in c <==> r in d
  }

  lemma WithoutLast(c: seq<Row>, r: Row)
    requires Strict(c) && c != []
    ensures r in c[..|c| - 1] <==> r in c && r != c[|c| - 1]
  {
    assert c == c[..|c| - 1] + [c[|c| - 1]];
  }

  lemma LastOfBoth(c: seq<Row>, d: seq<Row>)
    requires Strict(c) && Strict(d) && SameRows(c, d) && c + d != []
    ensures c != [] && d != [] && c[|c| - 1] == d[|d| - 1]
    ensures SameRows(c[..|c| - 1], d[..|d| - 1])
  {
    var some := if c != [] then c[0] else d[0];
    assert some in c && some in d;
    var last := c[|c| - 1];
    assert last in d;
    var k :| 0 <= k < |d| && d[k] == last;
    assert d[|d| - 1] in c;
    var n :| 0 <= n < |c| && c[n] == d[|d| - 1];
    var front, front' := c[..|c| - 1], d[..|d| - 1];
    forall r ensures r in front <==> r in front' {
      WithoutLast(c, r);
      WithoutLast(d, r);
    }
  }

  lemma {:induction false} StrictIsUnique(c: seq<Row>, d: seq<Row>)
    requires Strict(c) && Strict(d) && SameRows(c, d)
    ensures c == d
  {
    if c + d == [] {
      assert |c| == 0 && |d| == 0;
    } else {
      LastOfBoth(c, d);
      StrictIsUnique(c[..|c| - 1], d[..|d| - 1]);
      assert c == c[..|c| - 1] + [c[|c| - 1]] && d == d[..|d| - 1] + [d[|d| - 1]];
    }
  }

  lemma AnswersShareRows(c: seq<Row>, d: seq<Row>, rows: seq<Row>)
    requires Resolves(c, rows) && Resolves(d, rows)
    ensures SameRows(c, d)
  {
  }

  /** Every table has an answer. */
  lemma SomeAnswer(rows: seq<Row>) returns (c: seq<Row>)
    ensures Answers(c, rows)
  {
    c := [];
    var names := set r | r in rows :: r.name;
    var todo := names;
    while todo != {}
      invariant todo <= names && EachOnce(c)
      invariant forall r | r in c :: Effective(rows, r.name) == Some(r) && r.name !in todo
      invariant forall name | name in names && name !in todo && Effective(rows, name).Some? :: Effective(rows, name).value in c
      decreases |todo|
    {
      var name :| name in todo;
      EffectiveHasName(rows, name);
      if Effective(rows, name).Some? { c := c + [Effective(rows, name).value]; }
      todo := todo - {name};
    }
    forall name | Effective(rows, name).Some? ensures name in names {
      FoundHasName(rows, name, true);
      FoundHasName(rows, name, false);
    }
    SortedSorts(c);
    OrderIsFree(c, Sorted(c), rows);
    c := Sorted(c);
  }

  function Swap(c: seq<Row>, i: nat, j: nat): seq<Row>
    requires i < j < |c|
  {
    c[i := c[j]][j := c[i]]
  }

  lemma SwapKeepsRows(c: seq<Row>, i: nat, j: nat)
    requires i < j < |c|
    ensures multiset(Swap(c, i, j)) == multiset(c)
  {
  }

  lemma SwapKeepsOrder(c: seq<Row>, i: nat, j: nat)
    requires Ordered(c) && i < j < |c| && c[i].priority == c[j].priority
    ensures Ordered(Swap(c, i, j))
  {
    var d := Swap(c, i, j);
    assert forall k | 0 <= k < |c| :: d[k].priority == c[k].priority;
  }

  /** Rows of equal priority may change places. */
  lemma SwapAnswers(c: seq<Row>, rows: seq<Row>, i: nat, j: nat)
    requires Answers(c, rows) && i < j < |c| && c[i].priority == c[j].priority
    ensures Answers(Swap(c, i, j), rows) && Swap(c, i, j) != c
  {
    SwapKeepsRows(c, i, j);
    SwapKeepsOrder(c, i, j);
    OrderIsFree(c, Swap(c, i, j), rows);
    assert c[i].name != c[j].name;
  }

  lemma TieMakesTwo(rows: seq<Row>, a: string, b: string) returns (c: seq<Row>, d: seq<Row>)
    requires Tied(rows, a, b)
    ensures Answers(c, rows) && Answers(d, rows) && c != d
  {
    c := SomeAnswer(rows);
    EffectiveHasName(rows, a);
    EffectiveHasName(rows, b);
    var i :| 0 <= i < |c| && c[i] == Effective(rows, a).value;
    var j :| 0 <= j < |c| && c[j] == Effective(rows, b).value;
    if i < j {
      SwapAnswers(c, rows, i, j);
      d := Swap(c, i, j);
    } else {
      SwapAnswers(c, rows, j, i);
      d := Swap(c, j, i);
    }
  }

  /** The table determines the answer if and only if no two effective rows share a priority; among rows that do,
      the order is that in which the merged map is walked. */
  lemma OneAnswerExactly(rows: seq<Row>)
    ensures (forall c, d | Answers(c, rows) && Answers(d, rows) :: c == d) <==> (forall a, b :: !Tied(rows, a, b))
  {
    if a, b :| Tied(rows, a, b) {
      var c, d := TieMakesTwo(rows, a, b);
    } else {
      forall c, d | Answers(c, rows) && Answers(d, rows) ensures c == d {
        UntiedIsStrict(c, rows);
        UntiedIsStrict(d, rows);
        AnswersShareRows(c, d, rows);
        StrictIsUnique(c, d);
      }
    }
  }

  /** Two global rows with one priority: the server may run them either way round. */
  lemma EitherWayRound()
    ensures var x, y := Row("1", None, "a", true, "{}", 10), Row("2", None, "b", true, "{}", 10);
      Answers([x, y], [x, y]) && Answers([y, x], [x, y])
  {
    var x, y := Row("1", None, "a", true, "{}", 10), Row("2", None, "b", true, "{}", 10);
    var rows := [x, y];
    assert rows[..1] == [x] && [x][..0] == [];
    assert x.name[0] != y.name[0];
    forall name ensures Effective(rows, name) == if name == "a" then Some(x) else if name == "b" then Some(y) else None {
      assert Find(rows[..1], name, true) == Find([], name, true);
      assert Find(rows, name, true) == Find(rows[..1], name, true);
      assert Find(rows[..1], name, false) == if name == "a" then Some(x) else Find([], name, false);
      assert Find(rows, name, false) == if name == "b" then Some(y) else Find(rows[..1], name, false);
    }
  }
}

/** The pipeline built from it. */
module MiddlewarePipeline {
  import opened Options
  import opened MiddlewareConfigs

  /** What a stage does with a message; absent means that it fails. */
  type Stage = string -> Option<string>

  datatype Middleware = Middleware(name: string, request: Stage, response: Stage)

  /** Enabled rows whose middleware can be made, in their order. */
  function Built(configs: seq<Row>, make: (string, string) -> Option<Middleware>): seq<Middleware> {
    if configs == [] then []
    else
      var r := configs[|configs| - 1];
      var m := if r.enabled then make(r.name, r.config) else None;
      Built(configs[..|configs| - 1], make) + if m.Some? then [m.value] else []
  }

  /** What a row contributes. */
  function Made(r: Row, make: (string, string) -> Option<Middleware>): Option<Middleware> {
    if r.enabled then make(r.name, r.config) else None
  }

  /** `built` are what the rows `at` contribute, in their order, and no other row contributes anything. */
  ghost predicate From(configs: seq<Row>, make: (string, string) -> Option<Middleware>, built: seq<Middleware>, at: seq<nat>) {
    && |at| == |built|
    && (forall i, j | 0 <= i < j < |at| :: at[i] < at[j])
    && (forall i | 0 <= i < |at| :: at[i] < |configs| && Made(configs[at[i]], make) == Some(built[i]))
    && (forall k | 0 <= k < |configs| && Made(configs[k], make).Some? :: k in at)
  }

  lemma FromSkip(configs: seq<Row>, make: (string, string) -> Option<Middleware>, built: seq<Middleware>, at: seq<nat>)
    requires configs != [] && From(configs[..|configs| - 1], make, built, at) && Made(configs[|configs| - 1], make).None?
    ensures From(configs, make, built, at)
  {
    var init := configs[..|configs| - 1];
    forall k | 0 <= k < |configs| && Made(configs[k], make).Some? ensures k in at { assert init[k] == configs[k]; }
    forall i | 0 <= i < |at| ensures Made(configs[at[i]], make) == Some(built[i]) { assert init[at[i]] == configs[at[i]]; }
  }

  lemma FromNext(configs: seq<Row>, make: (string, string) -> Option<Middleware>, built: seq<Middleware>, at: seq<nat>, m: Middleware)
    requires configs != [] && From(configs[..|configs| - 1], make, built, at) && Made(configs[|configs| - 1], make) == Some(m)
    ensures From(configs, make, built + [m], at + [|configs| - 1])
  {
    var n := |configs| - 1;
    var init, more := configs[..n], at + [n];
    assert more[|at|] == n;
    forall k | 0 <= k < |configs| && Made(configs[k], make).Some? ensures k in more {
      if k < n { assert init[k] == configs[k] && k in at; }
    }
    forall i | 0 <= i < |at| ensures Made(configs[at[i]], make) == Some(built[i]) { assert init[at[i]] == configs[at[i]]; }
  }

  /** The pipeline consists of the enabled, constructible rows and no others, in the order of the rows. */
  lemma {:induction false} BuiltFrom(configs: seq<Row>, make: (string, string) -> Option<Middleware>) returns (at: seq<nat>)
    ensures From(configs, make, Built(configs, make), at)
    decreases |configs|
  {
    at := [];
    if configs != [] {
      var n := |configs| - 1;
      var before := BuiltFrom(configs[..n], make);
      var built, m := Built(configs[..n], make), Made(configs[n], make);
      if m.Some? {
        FromNext(configs, make, built, before, m.value);
        assert Built(configs, make) == built + [m.value];
        at := before + [n];
      } else {
        FromSkip(configs, make, built, before);
        assert Built(configs, make) == built;
        at := before;
      }
    }
  }

  /** The message after all stages, if none fails. */
  function Through(stages: seq<Stage>, msg: string): Option<string> {
    if stages == [] then Some(msg)
    else
      var before := Through(stages[..|stages| - 1], msg);
      if before.None? then None else stages[|stages| - 1](before.value)
  }

  /** `msgs` are the messages between the stages. */
  ghost predicate Passes(stages: seq<Stage>, msgs: seq<string>) {
    |msgs| == |stages| + 1 && forall i {:trigger stages[i]} | 0 <= i < |stages| :: stages[i](msgs[i]) == Some(msgs[i + 1])
  }

  /** A message gets through exactly when each stage accepts what the stage before made of it, and comes out as the last
      stage made it. */
  lemma {:induction false} ThroughExactly(stages: seq<Stage>, msg: string) returns (msgs: seq<string>)
    ensures Through(stages, msg).Some? ==> Passes(stages, msgs) && msgs[0] == msg && Through(stages, msg) == Some(msgs[|stages|])
    ensures forall ms | Passes(stages, ms) && ms[0] == msg :: Through(stages, msg) == Some(ms[|stages|])
    decreases |stages|
  {
    if stages == [] {
      msgs := [msg];
    } else {
      var n := |stages| - 1;
      var init := stages[..n];
      assert forall i | 0 <= i < n :: init[i] == stages[i];
      msgs := ThroughExactly(init, msg);
      if Through(stages, msg).Some? {
        var more := msgs + [Through(stages, msg).value];
        forall i | 0 <= i < |stages| ensures stages[i](more[i]) == Some(more[i + 1]) {
          if i < n { assert init[i](msgs[i]) == Some(msgs[i + 1]); }
        }
        msgs := more;
      }
      forall ms | Passes(stages, ms) && ms[0] == msg ensures Through(stages, msg) == Some(ms[|stages|]) {
        var most := ms[..n + 1];
        forall i | 0 <= i < n ensures init[i](most[i]) == Some(most[i + 1]) { assert stages[i](ms[i]) == Some(ms[i + 1]); }
        assert Passes(init, most);
        assert stages[n](ms[n]) == Some(ms[n + 1]);
      }
    }
  }

  function Requests(ms: seq<Middleware>): seq<Stage> {
    seq(|ms|, i requires 0 <= i < |ms| => ms[i].request)
  }

  /** Responses pass the stages backwards. */
  function Responses(ms: seq<Middleware>): seq<Stage> {
    seq(|ms|, i requires 0 <= i < |ms| => ms[|ms| - 1 - i].response)
  }

  /** The stages run: all of them, or those up to and including the first that fails. */
  ghost predicate Ran(stages: seq<Stage>, msg: string, n: nat, r: Option<string>) {
    && n <= |stages|
    && r == Through(stages[..n], msg)
    && (r.Some? ==> n == |stages|)
    && (r.None? ==> n > 0 && Through(stages[..n - 1], msg).Some?)
  }

  lemma {:induction false} FailureStays(stages: seq<Stage>, msg: string, n: nat)
    requires n <= |stages| && Through(stages[..n], msg).None?
    ensures Through(stages, msg).None?
    decreases |stages|
  {
    if n == |stages| {
      assert stages[..n] == stages;
    } else {
      assert stages[..|stages| - 1][..n] == stages[..n];
      FailureStays(stages[..|stages| - 1], msg, n);
    }
  }

  /** However many stages ran, the outcome is that of the whole pipeline, and it determines how many. */
  lemma RanExactly(stages: seq<Stage>, msg: string, n: nat, r: Option<string>, k: nat)
    requires Ran(stages, msg, n, r)
    ensures r == Through(stages, msg)
    ensures k <= |stages| ==> (Through(stages[..k], msg).Some? <==> k < n || r.Some?)
  {
    if r.Some? {
      assert stages[..n] == stages;
      if k <= |stages| && Through(stages[..k], msg).None? { FailureStays(stages, msg, k); }
    } else {
      FailureStays(stages, msg, n);
      if k <= |stages| {
        if k < n && Through(stages[..k], msg).None? {
          assert stages[..n - 1][..k] == stages[..k];
          FailureStays(stages[..n - 1], msg, k);
        }
        if k >= n {
          assert stages[..k][..n] == stages[..n];
          FailureStays(stages[..k], msg, n);
        }
      }
    }
  }

  /** A request visits the middleware from first to last. */
  ghost predicate RequestPath(ms: seq<Middleware>, msgs: seq<string>) {
    |msgs| == |ms| + 1 && forall i {:trigger ms[i]} | 0 <= i < |ms| :: ms[i].request(msgs[i]) == Some(msgs[i + 1])
  }

  /** A response visits it from last to first. */
  ghost predicate ResponsePath(ms: seq<Middleware>, msgs: seq<string>) {
    |msgs| == |ms| + 1 && forall i {:trigger ms[i]} | 0 <= i < |ms| :: ms[i].response(msgs[|ms| - 1 - i]) == Some(msgs[|ms| - i])
  }

  lemma RequestGoesThrough(ms: seq<Middleware>, req: string, resp: string)
    ensures Through(Requests(ms), req) == Some(resp) <==> exists msgs :: RequestPath(ms, msgs) && msgs[0] == req && msgs[|ms|] == resp
  {
    var stages := Requests(ms);
    var path := ThroughExactly(stages, req);
    assert forall i | 0 <= i < |ms| :: stages[i] == ms[i].request;
    if Through(stages, req) == Some(resp) { assert RequestPath(ms, path); }
    if msgs :| RequestPath(ms, msgs) && msgs[0] == req && msgs[|ms|] == resp {
      forall i | 0 <= i < |stages| ensures stages[i](msgs[i]) == Some(msgs[i + 1]) { assert ms[i].request(msgs[i]) == Some(msgs[i + 1]); }
      assert Passes(stages, msgs);
    }
  }

  lemma ResponseGoesThrough(ms: seq<Middleware>, resp: string, out: string)
    ensures Through(Responses(ms), resp) == Some(out) <==> exists msgs :: ResponsePath(ms, msgs) && msgs[0] == resp && msgs[|ms|] == out
  {
    var stages, n := Responses(ms), |ms|;
    var path := ThroughExactly(stages, resp);
    assert forall i | 0 <= i < n :: stages[i] == ms[n - 1 - i].response;
    if Through(stages, resp) == Some(out) {
      forall i | 0 <= i < n ensures ms[i].response(path[n - 1 - i]) == Some(path[n - i]) {
        assert stages[n - 1 - i](path[n - 1 - i]) == Some(path[n - 1 - i + 1]);
      }
      assert ResponsePath(ms, path);
    }
    if msgs :| ResponsePath(ms, msgs) && msgs[0] == resp && msgs[|ms|] == out {
      forall i | 0 <= i < |stages| ensures stages[i](msgs[i]) == Some(msgs[i + 1]) {
        assert ms[n - 1 - i].response(msgs[n - 1 - (n - 1 - i)]) == Some(msgs[n - (n - 1 - i)]);
      }
      assert Passes(stages, msgs);
    }
  }

  lemma RequestResult(ms: seq<Middleware>, req: string, n: nat, r: Option<string>)
    requires Ran(Requests(ms), req, n, r)
    ensures forall out :: r == Some(out) <==> exists msgs :: RequestPath(ms, msgs) && msgs[0] == req && msgs[|ms|] == out
  {
    RanExactly(Requests(ms), req, n, r, 0);
    forall out ensures r == Some(out) <==> exists msgs :: RequestPath(ms, msgs) && msgs[0] == req && msgs[|ms|] == out {
      RequestGoesThrough(ms, req, out);
    }
  }

  lemma ResponseResult(ms: seq<Middleware>, resp: string, n: nat, r: Option<string>)
    requires Ran(Responses(ms), resp, n, r)
    ensures forall out :: r == Some(out) <==> exists msgs :: ResponsePath(ms, msgs) && msgs[0] == resp && msgs[|ms|] == out
  {
    RanExactly(Responses(ms), resp, n, r, 0);
    forall out ensures r == Some(out) <==> exists msgs :: ResponsePath(ms, msgs) && msgs[0] == resp && msgs[|ms|] == out {
      ResponseGoesThrough(ms, resp, out);
    }
  }

  class Pipeline {
    var middlewares: seq<Middleware>

    constructor ()
      ensures middlewares == []
    {
      middlewares := [];
    }

    method Add(m: Middleware)
      modifies this
      ensures middlewares == old(middlewares) + [m]
    {
      middlewares := middlewares + [m];
    }

    /** `n` counts the stages run. */
    method ProcessRequest(req: string) returns (r: Option<string>, n: nat)
      ensures Ran(Requests(middlewares), req, n, r)
      ensures forall out :: r == Some(out) <==>
                exists msgs :: RequestPath(middlewares, msgs) && msgs[0] == req && msgs[|middlewares|] == out
    {
      ghost var stages := Requests(middlewares);
      r, n := Some(req), 0;
      while n < |middlewares|
        invariant n <= |middlewares| && r.Some? && r == Through(stages[..n], req)
      {
        assert stages[..n + 1][..n] == stages[..n];
        r := middlewares[n].request(r.value);
        n := n + 1;
        if r.None? {
          RequestResult(middlewares, req, n, r);
          return;
        }
      }
      assert stages[..n] == stages;
      RequestResult(middlewares, req, n, r);
    }

    method ProcessResponse(resp: string) returns (r: Option<string>, n: nat)
      ensures Ran(Responses(middlewares), resp, n, r)
      ensures forall out :: r == Some(out) <==>
                exists msgs :: ResponsePath(middlewares, msgs) && msgs[0] == resp && msgs[|middlewares|] == out
    {
      ghost var stages := Responses(middlewares);
      r, n := Some(resp), 0;
      var i := |middlewares| - 1;
      while i >= 0
        invariant -1 <= i < |middlewares| && n == |middlewares| - 1 - i && r.Some? && r == Through(stages[..n], resp)
      {
        assert stages[..n + 1][..n] == stages[..n];
        r := middlewares[i].response(r.value);
        n, i := n + 1, i - 1;
        if r.None? {
          ResponseResult(middlewares, resp, n, r);
          return;
        }
      }
      assert stages[..n] == stages;
      ResponseResult(middlewares, resp, n, r);
    }
  }

  /** The pipeline of a server: the enabled, constructible rows of its configuration in their order. */
  method BuildPipeline(configs: seq<Row>, make: (string, string) -> Option<Middleware>) returns (p: Pipeline)
    ensures fresh(p) && p.middlewares == Built(configs, make)
  {
    p := new Pipeline();
    for i := 0 to |configs|
      invariant fresh(p) && p.middlewares == Built(configs[..i], make)
    {
      assert configs[..i + 1][..i] == configs[..i];
      if !configs[i].enabled { continue; }
      var m := make(configs[i].name, configs[i].config);
      if m.None? { continue; }
      p.Add(m.value);
    }
    assert configs[..|configs|] == configs;
  }
}
