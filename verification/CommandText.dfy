/** Text forms of the admin pages: white space as Go's strings.TrimSpace knows it. */
module Spaces {

  predicate White(c: char) {
    || '\t' <= c <= '\r' || c == ' ' || c == '\U{0085}' || c == '\U{00A0}' || c == '\U{1680}'
    || '\U{2000}' <= c <= '\U{200A}' || c == '\U{2028}' || c == '\U{2029}' || c == '\U{202F}' || c == '\U{205F}' || c == '\U{3000}'
  }

  function TrimLeft(s: string): string {
    if s != "" && White(s[0]) then TrimLeft(s[1..]) else s
  }

  function TrimRight(s: string): string {
    if s != "" && White(s[|s| - 1]) then TrimRight(s[..|s| - 1]) else s
  }

  function Trim(s: string): string {
    TrimRight(TrimLeft(s))
  }

  predicate Trimmed(s: string) {
    s == "" || (!White(s[0]) && !White(s[|s| - 1]))
  }

  lemma TrimmedStays(s: string)
    requires Trimmed(s)
    ensures Trim(s) == s
  {
  }

  predicate AllWhite(s: string) {
    forall i | 0 <= i < |s| :: White(s[i])
  }

  lemma {:induction false} TrimsLeft(l: string, t: string)
    requires AllWhite(l)
    ensures TrimLeft(l + t) == TrimLeft(t)
    decreases |l|
  {
    if l == "" {
      assert l + t == t;
    } else {
      assert White(l[0]) && (l + t)[1..] == l[1..] + t;
      TrimsLeft(l[1..], t);
    }
  }

  lemma {:induction false} TrimsRight(t: string, r: string)
    requires AllWhite(r)
    ensures TrimRight(t + r) == TrimRight(t)
    decreases |r|
  {
    if r == "" {
      assert t + r == t;
    } else {
      assert White(r[|r| - 1]) && (t + r)[..|t + r| - 1] == t + r[..|r| - 1];
      TrimsRight(t, r[..|r| - 1]);
    }
  }

  /** Trimming takes the white space around a text that neither starts nor ends with any, and nothing else. */
  lemma TrimIs(l: string, t: string, r: string)
    requires AllWhite(l) && AllWhite(r) && Trimmed(t)
    ensures Trim(l + t + r) == t
  {
    assert l + t + r == l + (t + r);
    TrimsLeft(l, t + r);
    if t == "" {
      assert t + r == r && r + "" == r;
      TrimsLeft(r, "");
    } else {
      assert TrimLeft(t + r) == t + r;
      TrimsRight(t, r);
    }
  }

  lemma {:induction false} LeftBefore(a: string, s: string)
    requires s != "" && !White(s[0])
    ensures TrimLeft(a + s) == TrimLeft(a) + s
    decreases |a|
  {
    if a == "" {
      assert a + s == s;
    } else if White(a[0]) {
      assert (a + s)[1..] == a[1..] + s;
      LeftBefore(a[1..], s);
    }
  }

  lemma {:induction false} RightBehind(s: string, b: string)
    requires s != "" && !White(s[|s| - 1])
    ensures TrimRight(s + b) == s + TrimRight(b)
    decreases |b|
  {
    if b == "" {
      assert s + b == s;
    } else if White(b[|b| - 1]) {
      assert (s + b)[..|s + b| - 1] == s + b[..|b| - 1];
      RightBehind(s, b[..|b| - 1]);
    }
  }

  lemma TrimLeftOnce(a: string)
    ensures Trim(TrimLeft(a)) == Trim(a)
  {
    LeftTrims(a);
  }

  lemma {:induction false} TrimRightOnce(b: string)
    ensures Trim(TrimRight(b)) == Trim(b)
    decreases |b|
  {
    if b != "" && White(b[|b| - 1]) {
      var init, r := b[..|b| - 1], [b[|b| - 1]];
      TrimRightOnce(init);
      assert b == init + r;
      TrimTail(init, r);
    }
  }

  lemma {:induction false} TrimTail(a: string, r: string)
    requires AllWhite(r)
    ensures Trim(a + r) == Trim(a)
    decreases |a|
  {
    if a == "" {
      assert a + r == r && r + "" == r;
      TrimsLeft(r, "");
    } else if White(a[0]) {
      assert (a + r)[1..] == a[1..] + r;
      TrimTail(a[1..], r);
    } else {
      TrimsRight(a, r);
    }
  }

  lemma {:induction false} RightCount(s: string, c: char)
    ensures multiset(TrimRight(s))[c] <= multiset(s)[c]
    ensures !White(c) ==> multiset(TrimRight(s))[c] == multiset(s)[c]
    ensures s != "" && White(s[|s| - 1]) && c == s[|s| - 1] ==> multiset(TrimRight(s))[c] < multiset(s)[c]
    decreases |s|
  {
    if s != "" && White(s[|s| - 1]) {
      RightCount(s[..|s| - 1], c);
      assert s == s[..|s| - 1] + [s[|s| - 1]];
    }
  }

  lemma {:induction false} LeftCount(s: string, c: char)
    ensures multiset(TrimLeft(s))[c] <= multiset(s)[c]
    ensures !White(c) ==> multiset(TrimLeft(s))[c] == multiset(s)[c]
    ensures s != "" && White(s[0]) && c == s[0] ==> multiset(TrimLeft(s))[c] < multiset(s)[c]
    decreases |s|
  {
    if s != "" && White(s[0]) {
      LeftCount(s[1..], c);
      assert s == [s[0]] + s[1..];
    }
  }

  lemma {:induction false} RightTrims(s: string)
    ensures TrimRight(s) <= s
    ensures TrimRight(s) != "" ==> !White(TrimRight(s)[|TrimRight(s)| - 1])
    decreases |s|
  {
    if s != "" && White(s[|s| - 1]) { RightTrims(s[..|s| - 1]); }
  }

  lemma {:induction false} LeftTrims(s: string)
    ensures |TrimLeft(s)| <= |s| && s[|s| - |TrimLeft(s)|..] == TrimLeft(s)
    ensures TrimLeft(s) != "" ==> !White(TrimLeft(s)[0])
    decreases |s|
  {
    if s != "" && White(s[0]) { LeftTrims(s[1..]); }
  }

  lemma TrimTrims(s: string)
    ensures Trimmed(Trim(s))
    ensures forall c | c in Trim(s) :: c in s
  {
    LeftTrims(s);
    RightTrims(TrimLeft(s));
    assert forall c | c in TrimLeft(s) :: c in s;
  }

  /** Trimming takes white space only, and takes an end that is white. */
  lemma TrimCount(s: string, c: char)
    ensures multiset(Trim(s))[c] <= multiset(s)[c]
    ensures !White(c) ==> multiset(Trim(s))[c] == multiset(s)[c]
    ensures s != "" && White(s[0]) && c == s[0] ==> multiset(Trim(s))[c] < multiset(s)[c]
    ensures s != "" && !White(s[0]) && White(s[|s| - 1]) && c == s[|s| - 1] ==> multiset(Trim(s))[c] < multiset(s)[c]
  {
    LeftCount(s, c);
    RightCount(TrimLeft(s), c);
  }
}

/** Command lines: joining quotes what has blanks, parsing undoes it where it can
    (internal/web/handlers.go, joinQuoted and parseCommand). */
module CommandText {
  import opened Spaces

  predicate Blank(c: char) {
    c == ' ' || c == '\t'
  }

  predicate QuoteMark(c: char) {
    c == '"' || c == '\''
  }

  // ---------------------------------------------------------------- printing

  predicate Spaced(a: string) {
    exists i :: 0 <= i < |a| && Blank(a[i])
  }

  function Part(a: string): string {
    if Spaced(a) then "\"" + a + "\"" else a
  }

  function Join(args: seq<string>): string {
    if args == [] then ""
    else if |args| == 1 then Part(args[0])
    else Join(args[..|args| - 1]) + " " + Part(args[|args| - 1])
  }

  // ---------------------------------------------------------------- parsing

  datatype Quote = NoQuote | In(mark: char)

  datatype Scanner = Scanner(args: seq<string>, current: string, quote: Quote)

  const START: Scanner := Scanner([], "", NoQuote)

  /** A quotation mark that opens or closes a quotation is dropped. */
  predicate Eats(s: Scanner, c: char) {
    if s.quote.In? then c == s.quote.mark else QuoteMark(c)
  }

  function Flushed(s: Scanner): Scanner {
    if s.current == "" then s else s.(args := s.args + [s.current], current := "")
  }

  function Step(s: Scanner, c: char): Scanner {
    if Eats(s, c) then s.(quote := if s.quote.In? then NoQuote else In(c))
    else if s.quote.NoQuote? && Blank(c) then Flushed(s)
    else s.(current := s.current + [c])
  }

  function Run(s: Scanner, text: string): Scanner {
    if text == "" then s else Step(Run(s, text[..|text| - 1]), text[|text| - 1])
  }

  function Parse(text: string): seq<string> {
    Flushed(Run(START, Trim(text))).args
  }

  // ---------------------------------------------------------------- runs

  lemma {:induction false} RunConcat(s: Scanner, a: string, b: string)
    ensures Run(s, a + b) == Run(Run(s, a), b)
    decreases |b|
  {
    if b == "" {
      assert a + b == a;
    } else {
      RunConcat(s, a, b[..|b| - 1]);
      assert (a + b)[..|a + b| - 1] == a + b[..|b| - 1];
    }
  }

  lemma RunOne(s: Scanner, c: char)
    ensures Run(s, [c]) == Step(s, c)
  {
    assert [c][..0] == "";
    assert Run(s, "") == s;
  }

  /** Characters that are neither eaten nor blank outside quotation pass through. */
  lemma {:induction false} RunPlain(s: Scanner, text: string)
    requires forall i | 0 <= i < |text| :: if s.quote.In? then text[i] != s.quote.mark else !QuoteMark(text[i]) && !Blank(text[i])
    ensures Run(s, text) == s.(current := s.current + text)
  {
    if text == "" {
    } else {
      RunPlain(s, text[..|text| - 1]);
      assert text == text[..|text| - 1] + [text[|text| - 1]];
    }
  }

  // ---------------------------------------------------------------- faithful printing

  predicate GoodArg(a: string) {
    a != "" && '"' !in a && (Spaced(a) || '\'' !in a)
  }

  /** What survives: arguments that are not empty and hold no double quotes, single quotes only beside a
      blank, and no other white space at either end of the line. */
  predicate Good(args: seq<string>) {
    && (forall i | 0 <= i < |args| :: GoodArg(args[i]))
    && (args != [] ==> GoodStart(args[0]) && GoodEnd(args[|args| - 1]))
  }

  predicate GoodStart(a: string) {
    Spaced(a) || (a != "" && !White(a[0]))
  }

  predicate GoodEnd(a: string) {
    Spaced(a) || (a != "" && !White(a[|a| - 1]))
  }

  lemma {:induction false} JoinEnds(args: seq<string>)
    requires args != [] && forall i | 0 <= i < |args| :: args[i] != ""
    ensures var line, last := Join(args), Part(args[|args| - 1]);
      line != "" && line[0] == Part(args[0])[0] && line[|line| - 1] == last[|last| - 1]
  {
    if |args| > 1 { JoinEnds(args[..|args| - 1]); }
  }

  lemma PartEnds(a: string)
    requires a != ""
    ensures var p := Part(a);
      && p != "" && !Blank(p[0]) && !Blank(p[|p| - 1])
      && (White(p[0]) <==> !GoodStart(a)) && (White(p[|p| - 1]) <==> !GoodEnd(a))
  {
    if Spaced(a) {
      assert Part(a)[0] == '"' && Part(a)[|Part(a)| - 1] == '"';
    }
  }

  lemma TrimmedEnds(line: string, a: string, b: string)
    requires a != "" && b != "" && line != "" && Part(a) != "" && Part(b) != ""
    requires line[0] == Part(a)[0] && line[|line| - 1] == Part(b)[|Part(b)| - 1]
    ensures Trimmed(line) <==> GoodStart(a) && GoodEnd(b)
  {
    PartEnds(a);
    PartEnds(b);
  }

  /** The line is trimmed exactly when its first and last arguments are. */
  lemma TrimmedLine(args: seq<string>)
    requires args != [] && forall i | 0 <= i < |args| :: args[i] != ""
    ensures Trimmed(Join(args)) <==> GoodStart(args[0]) && GoodEnd(args[|args| - 1])
  {
    JoinEnds(args);
    TrimmedEnds(Join(args), args[0], args[|args| - 1]);
  }

  lemma RunPart(s: Scanner, a: string)
    requires GoodArg(a) && s.current == "" && s.quote.NoQuote?
    ensures Run(s, Part(a)) == s.(current := a)
  {
    if Spaced(a) {
      var q := s.(quote := In('"'));
      RunOne(s, '"');
      RunPlain(q, a);
      RunConcat(s, "\"", a);
      RunConcat(s, "\"" + a, "\"");
      RunOne(q.(current := a), '"');
    } else {
      RunPlain(s, a);
    }
  }

  lemma {:induction false} RunJoin(args: seq<string>)
    requires args != [] && forall i | 0 <= i < |args| :: GoodArg(args[i])
    ensures Run(START, Join(args)) == Scanner(args[..|args| - 1], args[|args| - 1], NoQuote)
  {
    var init, last := args[..|args| - 1], args[|args| - 1];
    if |args| == 1 {
      RunPart(START, last);
    } else {
      RunJoin(init);
      assert init == init[..|init| - 1] + [init[|init| - 1]];
      var s := Scanner(init, "", NoQuote);
      RunOne(Run(START, Join(init)), ' ');
      RunConcat(START, Join(init), " ");
      RunConcat(START, Join(init) + " ", Part(last));
      RunPart(s, last);
    }
  }

  lemma GoodRoundTrips(args: seq<string>)
    requires Good(args)
    ensures Parse(Join(args)) == args
  {
    if args != [] {
      TrimmedLine(args);
      RunJoin(args);
    }
    TrimmedStays(Join(args));
  }

  // ---------------------------------------------------------------- counting characters

  function Flat(args: seq<string>): string {
    if args == [] then "" else Flat(args[..|args| - 1]) + args[|args| - 1]
  }

  function Seen(s: Scanner): string {
    Flat(s.args) + s.current
  }

  /** How often the mark `q` is eaten. */
  function Eaten(s: Scanner, text: string, q: char): nat {
    if text == "" then 0
    else
      var init, c := text[..|text| - 1], text[|text| - 1];
      Eaten(s, init, q) + if c == q && Eats(Run(s, init), c) then 1 else 0
  }

  lemma FlushSeen(s: Scanner)
    ensures Seen(Flushed(s)) == Seen(s)
  {
    if s.current != "" { assert (s.args + [s.current])[..|s.args|] == s.args; }
  }

  lemma StepSeen(s: Scanner, d: char, c: char)
    requires !Blank(c)
    ensures multiset(Seen(Step(s, d)))[c] + (if d == c && Eats(s, d) then 1 else 0) ==
            multiset(Seen(s))[c] + if d == c then 1 else 0
  {
    if Eats(s, d) {
    } else if s.quote.NoQuote? && Blank(d) {
      FlushSeen(s);
    } else {
      assert Seen(Step(s, d)) == Seen(s) + [d];
    }
  }

  lemma LastCount(text: string, c: char)
    requires text != ""
    ensures multiset(text)[c] == multiset(text[..|text| - 1])[c] + if text[|text| - 1] == c then 1 else 0
  {
    assert text == text[..|text| - 1] + [text[|text| - 1]];
  }

  /** Every character but blanks is either kept or an eaten mark. */
  lemma {:induction false} Conserved(s: Scanner, text: string, c: char)
    requires !Blank(c)
    ensures multiset(Seen(Run(s, text)))[c] + Eaten(s, text, c) == multiset(Seen(s))[c] + multiset(text)[c]
  {
    if text == "" {
    } else {
      var init, last := text[..|text| - 1], text[|text| - 1];
      Conserved(s, init, c);
      StepSeen(Run(s, init), last, c);
      LastCount(text, c);
    }
  }

  lemma {:induction false} JoinCount(args: seq<string>, c: char)
    requires !Blank(c) && c != '"'
    ensures multiset(Join(args))[c] == multiset(Flat(args))[c]
  {
    if |args| == 1 {
      assert Flat(args[..0]) == "";
      assert Flat(args) == args[0];
    } else if args != [] {
      JoinCount(args[..|args| - 1], c);
    }
  }

  lemma {:induction false} NoEmptyArgs(s: Scanner, text: string)
    requires "" !in s.args
    ensures "" !in Run(s, text).args
  {
    if text == "" {
    } else {
      NoEmptyArgs(s, text[..|text| - 1]);
    }
  }

  // ---------------------------------------------------------------- nothing else round-trips

  /** If no single quote is eaten, none is ever open, and no double quote is kept. */
  lemma {:induction false} NoSingleQuotes(text: string)
    requires Eaten(START, text, '\'') == 0
    ensures Run(START, text).quote in {NoQuote, In('"')}
    ensures '"' !in Seen(Run(START, text))
  {
    if text == "" {
    } else {
      var init, last := text[..|text| - 1], text[|text| - 1];
      NoSingleQuotes(init);
      var s := Run(START, init);
      FlushSeen(s);
      assert Seen(s.(current := s.current + [last])) == Seen(s) + [last];
    }
  }

  lemma {:induction false} EatenPrefix(s: Scanner, a: string, b: string, q: char)
    ensures Eaten(s, a, q) <= Eaten(s, a + b, q)
    decreases |b|
  {
    if b == "" {
      assert a + b == a;
    } else {
      EatenPrefix(s, a, b[..|b| - 1], q);
      assert (a + b)[..|a + b| - 1] == a + b[..|b| - 1];
    }
  }

  lemma {:induction false} InFlat(args: seq<string>, i: nat, c: char)
    requires i < |args| && c in args[i]
    ensures c in Flat(args)
  {
    if i < |args| - 1 {
      InFlat(args[..|args| - 1], i, c);
    }
  }

  /** A part met outside quotation leaves no quotation open, and if it is not quoted it has no single quote. */
  lemma {:induction false} UnquotedPart(before: string, a: string)
    requires Run(START, before).quote.NoQuote? && '"' !in a && Eaten(START, before + a, '\'') == 0 && !Spaced(a)
    ensures '\'' !in a && Run(START, before + a).quote.NoQuote?
    decreases |a|
  {
    if a == "" {
      assert before + a == before;
    } else {
      var init, last := a[..|a| - 1], a[|a| - 1];
      assert (before + a)[..|before + a| - 1] == before + init;
      assert before + a == before + init + [last];
      EatenPrefix(START, before + init, [last], '\'');
      assert forall i | 0 <= i < |init| :: init[i] == a[i];
      UnquotedPart(before, init);
      assert a == init + [last];
    }
  }

  lemma QuotedPart(before: string, a: string)
    requires Run(START, before).quote.NoQuote? && '"' !in a
    ensures Run(START, before + ("\"" + a + "\"")).quote.NoQuote?
  {
    var s := Run(START, before);
    RunConcat(START, before, "\"" + a + "\"");
    RunConcat(s, "\"", a);
    RunConcat(s, "\"" + a, "\"");
    RunOne(s, '"');
    var q := s.(quote := In('"'));
    RunPlain(q, a);
    RunOne(q.(current := q.current + a), '"');
  }

  lemma LastPart(before: string, a: string)
    requires Run(START, before).quote.NoQuote? && a != "" && '"' !in a && Eaten(START, before + Part(a), '\'') == 0
    ensures GoodArg(a) && Run(START, before + Part(a)).quote.NoQuote?
  {
    if Spaced(a) { QuotedPart(before, a); } else { UnquotedPart(before, a); }
  }

  lemma NextPart(before: string, a: string)
    requires Run(START, before).quote.NoQuote? && a != "" && '"' !in a
    requires Eaten(START, before + " " + Part(a), '\'') == 0
    ensures GoodArg(a) && Run(START, before + " " + Part(a)).quote.NoQuote?
  {
    RunConcat(START, before, " ");
    RunOne(Run(START, before), ' ');
    LastPart(before + " ", a);
  }

  lemma EatenBefore(before: string, part: string)
    requires Eaten(START, before + " " + part, '\'') == 0
    ensures Eaten(START, before, '\'') == 0
  {
    assert before + " " + part == before + (" " + part);
    EatenPrefix(START, before, " " + part, '\'');
  }

  lemma {:induction false} PartsAreGood(args: seq<string>)
    requires forall i | 0 <= i < |args| :: args[i] != "" && '"' !in args[i]
    requires Eaten(START, Join(args), '\'') == 0
    ensures Run(START, Join(args)).quote.NoQuote?
    ensures forall i | 0 <= i < |args| :: GoodArg(args[i])
  {
    if |args| == 1 {
      assert "" + Part(args[0]) == Part(args[0]);
      LastPart("", args[0]);
    } else if args != [] {
      var init, last := args[..|args| - 1], args[|args| - 1];
      EatenBefore(Join(init), Part(last));
      PartsAreGood(init);
      NextPart(Join(init), last);
    }
  }

  lemma KeptNothingLost(args: seq<string>, c: char)
    requires Parse(Join(args)) == args && !Blank(c) && c != '"'
    ensures multiset(Trim(Join(args)))[c] == multiset(Join(args))[c] + Eaten(START, Trim(Join(args)), c)
  {
    var text := Trim(Join(args));
    Conserved(START, text, c);
    FlushSeen(Run(START, text));
    assert Seen(Flushed(Run(START, text))) == Flat(args) + "";
    JoinCount(args, c);
  }

  lemma NoSingleEaten(args: seq<string>)
    requires Parse(Join(args)) == args
    ensures Eaten(START, Trim(Join(args)), '\'') == 0
  {
    KeptNothingLost(args, '\'');
    TrimCount(Join(args), '\'');
  }

  lemma NoDoubleQuotes(args: seq<string>)
    requires Parse(Join(args)) == args && Eaten(START, Trim(Join(args)), '\'') == 0
    ensures forall i | 0 <= i < |args| :: args[i] != "" && '"' !in args[i]
  {
    var text := Trim(Join(args));
    NoEmptyArgs(START, text);
    NoSingleQuotes(text);
    FlushSeen(Run(START, text));
    forall i | 0 <= i < |args| ensures args[i] != "" && '"' !in args[i] {
      if '"' in args[i] { InFlat(args, i, '"'); }
    }
  }

  lemma RoundTripsAreGood(args: seq<string>)
    requires Parse(Join(args)) == args
    ensures Good(args)
  {
    var line := Join(args);
    NoSingleEaten(args);
    NoDoubleQuotes(args);
    if args != [] {
      NotTrimmedLeft(args);
      NotTrimmedRight(args);
      TrimmedLine(args);
    }
    TrimmedStays(line);
    PartsAreGood(args);
  }

  /** Had trimming taken something, a character would be missing. */
  lemma NotTrimmedLeft(args: seq<string>)
    requires Parse(Join(args)) == args && args != [] && forall i | 0 <= i < |args| :: args[i] != "" && '"' !in args[i]
    ensures Join(args) != "" && !White(Join(args)[0])
  {
    JoinEnds(args);
    PartEnds(args[0]);
    var c := Join(args)[0];
    if White(c) {
      KeptNothingLost(args, c);
      TrimCount(Join(args), c);
    }
  }

  lemma NotTrimmedRight(args: seq<string>)
    requires Parse(Join(args)) == args && args != [] && forall i | 0 <= i < |args| :: args[i] != "" && '"' !in args[i]
    requires Join(args) != "" && !White(Join(args)[0])
    ensures !White(Join(args)[|Join(args)| - 1])
  {
    JoinEnds(args);
    PartEnds(args[|args| - 1]);
    var c := Join(args)[|Join(args)| - 1];
    if White(c) {
      KeptNothingLost(args, c);
      TrimCount(Join(args), c);
    }
  }

  /** Printing and parsing round-trip exactly for the good argument lists. */
  lemma RoundTripExactly(args: seq<string>)
    ensures Parse(Join(args)) == args <==> Good(args)
  {
    if Good(args) { GoodRoundTrips(args); }
    if Parse(Join(args)) == args { RoundTripsAreGood(args); }
  }

  /** Arguments that do not come back even alone. */
  lemma LoneArgumentLost(a: string)
    requires !(GoodArg(a) && GoodStart(a) && GoodEnd(a))
    ensures Parse(Join([a])) != [a]
  {
    RoundTripExactly([a]);
    assert [a][0] == a;
  }

  /** For instance one with an apostrophe. */
  lemma ApostropheLost(a: string)
    requires a == "it's"
    ensures Parse(Join([a])) != [a]
  {
    assert a[2] == '\'' && !Spaced(a);
    LoneArgumentLost(a);
  }

  /** Single quotes group as double quotes do, and either kind may stand inside the other. */
  lemma QuotedTogether(a: string, mark: char)
    requires QuoteMark(mark) && mark !in a && a != ""
    ensures Parse([mark] + a + [mark]) == [a]
  {
    var line, inside := [mark] + a + [mark], Scanner([], "", In(mark));
    TrimmedStays(line);
    RunConcat(START, [mark] + a, [mark]);
    RunConcat(START, [mark], a);
    RunOne(START, mark);
    RunPlain(inside, a);
    assert "" + a == a;
    RunOne(Scanner([], a, In(mark)), mark);
  }

  // ---------------------------------------------------------------- the loops

  method JoinQuoted(args: seq<string>) returns (text: string)
    ensures text == Join(args)
  {
    text := "";
    for i := 0 to |args|
      invariant text == Join(args[..i])
    {
      assert args[..i + 1][..i] == args[..i];
      var part := args[i];
      if Spaced(part) { part := "\"" + part + "\""; }
      text := if i == 0 then part else text + " " + part;
    }
    assert args[..|args|] == args;
  }

  method ParseCommand(text: string) returns (args: seq<string>)
    ensures args == Parse(text)
  {
    var trimmed := Trim(text);
    args := [];
    var current, quote := "", NoQuote;
    for i := 0 to |trimmed|
      invariant Scanner(args, current, quote) == Run(START, trimmed[..i])
    {
      assert trimmed[..i + 1][..i] == trimmed[..i];
      var c := trimmed[i];
      if quote.In? {
        if c == quote.mark { quote := NoQuote; } else { current := current + [c]; }
      } else if c == '"' || c == '\'' {
        quote := In(c);
      } else if c == ' ' || c == '\t' {
        if |current| > 0 { args, current := args + [current], ""; }
      } else {
        current := current + [c];
      }
    }
    assert trimmed[..|trimmed|] == trimmed;
    if |current| > 0 { args := args + [current]; }
  }
}
