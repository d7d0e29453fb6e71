/** Environment variables as text, one `key=value` per line (internal/web/handlers.go, envToText and parseEnvVars). */
module EnvText {
  import opened Spaces

  // ---------------------------------------------------------------- lines

  /** Splitting at newlines; there is always at least one line. */
  function Split(text: string): (lines: seq<string>)
    ensures lines != []
  {
    if text == "" then [""]
    else
      var lines, c := Split(text[..|text| - 1]), text[|text| - 1];
      if c == '\n' then lines + [""] else lines[..|lines| - 1] + [lines[|lines| - 1] + [c]]
  }

  function Unlines(lines: seq<string>): string {
    if lines == [] then ""
    else if |lines| == 1 then lines[0]
    else Unlines(lines[..|lines| - 1]) + "\n" + lines[|lines| - 1]
  }

  function Lengthened(lines: seq<string>, more: string): seq<string>
    requires lines != []
  {
    lines[..|lines| - 1] + [lines[|lines| - 1] + more]
  }

  lemma LengthenedTwice(lines: seq<string>, a: string, b: string)
    requires lines != []
    ensures Lengthened(Lengthened(lines, a), b) == Lengthened(lines, a + b)
  {
    var once, last := Lengthened(lines, a), lines[|lines| - 1];
    assert once[..|once| - 1] == lines[..|lines| - 1];
    assert last + a + b == last + (a + b);
  }

  lemma SplitOne(text: string, c: char)
    requires c != '\n'
    ensures Split(text + [c]) == Lengthened(Split(text), [c])
  {
    assert (text + [c])[..|text|] == text;
  }

  lemma {:induction false} SplitAppend(text: string, line: string)
    requires '\n' !in line
    ensures Split(text + line) == Lengthened(Split(text), line)
    decreases |line|
  {
    if line == "" {
      assert text + line == text && Split(text)[|Split(text)| - 1] + line == Split(text)[|Split(text)| - 1];
    } else {
      var init, c := line[..|line| - 1], line[|line| - 1];
      assert c in line && line == init + [c] && text + line == text + init + [c];
      SplitAppend(text, init);
      SplitOne(text + init, c);
      LengthenedTwice(Split(text), init, [c]);
    }
  }

  lemma SplitNext(text: string, line: string)
    requires '\n' !in line
    ensures Split(text + "\n" + line) == Split(text) + [line]
  {
    var broken := text + "\n";
    assert broken[..|broken| - 1] == text;
    var so := Split(broken);
    assert so == Split(text) + [""];
    assert so[..|so| - 1] == Split(text) && so[|so| - 1] + line == line;
    SplitAppend(broken, line);
  }

  lemma SplitSingle(line: string)
    requires '\n' !in line
    ensures Split(line) == [line]
  {
    SplitAppend("", line);
    assert "" + line == line;
  }

  lemma {:induction false} SplitUnlines(lines: seq<string>)
    requires lines != [] && forall i | 0 <= i < |lines| :: '\n' !in lines[i]
    ensures Split(Unlines(lines)) == lines
  {
    var init, last := lines[..|lines| - 1], lines[|lines| - 1];
    assert lines == init + [last];
    if |lines| == 1 {
      SplitSingle(last);
    } else {
      SplitUnlines(init);
      SplitNext(Unlines(init), last);
    }
  }

  lemma {:induction false} LinesHaveNoBreaks(text: string)
    ensures forall i | 0 <= i < |Split(text)| :: '\n' !in Split(text)[i]
  {
    if text == "" {
    } else {
      LinesHaveNoBreaks(text[..|text| - 1]);
    }
  }

  // ---------------------------------------------------------------- one line

  function Find(s: string, c: char): (i: nat)
    ensures i <= |s| && (i < |s| ==> s[i] == c) && forall k | 0 <= k < i :: s[k] != c
  {
    if s == "" || s[0] == c then 0 else 1 + Find(s[1..], c)
  }

  datatype Entry = Nothing | Pair(key: string, value: string)

  function ParseLine(raw: string): Entry {
    var line := Trim(raw);
    var i := Find(line, '=');
    if line == "" || line[0] == '#' || i == |line| then Nothing
    else Pair(Trim(line[..i]), Trim(line[i + 1..]))
  }

  function Read(lines: seq<string>): map<string, string> {
    if lines == [] then map[]
    else
      var env, e := Read(lines[..|lines| - 1]), ParseLine(lines[|lines| - 1]);
      if e.Pair? then env[e.key := e.value] else env
  }

  function Parse(text: string): map<string, string> {
    Read(Split(text))
  }

  predicate GoodKey(k: string) {
    Trimmed(k) && '=' !in k && '\n' !in k && (k == "" || k[0] != '#')
  }

  predicate GoodValue(v: string) {
    Trimmed(v) && '\n' !in v
  }

  predicate Good(env: map<string, string>) {
    forall k | k in env :: GoodKey(k) && GoodValue(env[k])
  }

  lemma ParsedLineIsGood(raw: string)
    requires '\n' !in raw
    ensures var e := ParseLine(raw); e.Pair? ==> GoodKey(e.key) && GoodValue(e.value)
  {
    var line := Trim(raw);
    TrimTrims(raw);
    var i := Find(line, '=');
    if line != "" && line[0] != '#' && i < |line| {
      TrimTrims(line[..i]);
      TrimTrims(line[i + 1..]);
      KeyStart(line[..i]);
    }
  }

  /** Trimming a text that starts solid keeps its start. */
  lemma KeyStart(s: string)
    requires s == "" || !White(s[0])
    ensures Trim(s) == "" || Trim(s)[0] == s[0]
  {
    RightTrims(s);
  }

  lemma GoodLineParses(k: string, v: string)
    requires GoodKey(k) && GoodValue(v)
    ensures ParseLine(k + "=" + v) == Pair(k, v)
  {
    var line := k + "=" + v;
    assert line[|k|] == '=';
    assert Trimmed(line) by {
      assert k != "" ==> line[0] == k[0];
      assert v != "" ==> line[|line| - 1] == v[|v| - 1];
    }
    TrimmedStays(line);
    FindAt(line, |k|, '=');
    assert line[..|k|] == k && line[|k| + 1..] == v;
    TrimmedStays(k);
    TrimmedStays(v);
    assert line[0] == if k == "" then '=' else k[0];
  }

  lemma FindAt(s: string, i: nat, c: char)
    requires i < |s| && s[i] == c && forall k | 0 <= k < i :: s[k] != c
    ensures Find(s, c) == i
  {
  }

  // ---------------------------------------------------------------- the whole text

  /** The keys in some order, each once; the program sorts them. */
  ghost predicate Enumerates(keys: seq<string>, env: map<string, string>) {
    && (forall k :: k in env <==> k in keys)
    && (forall i, j | 0 <= i < j < |keys| :: keys[i] != keys[j])
  }

  function Lines(keys: seq<string>, env: map<string, string>): seq<string>
    requires forall i | 0 <= i < |keys| :: keys[i] in env
  {
    seq(|keys|, i requires 0 <= i < |keys| => keys[i] + "=" + env[keys[i]])
  }

  function ToText(keys: seq<string>, env: map<string, string>): string
    requires forall i | 0 <= i < |keys| :: keys[i] in env
  {
    Unlines(Lines(keys, env))
  }

  /** The map read so far is `env` on the keys printed so far. */
  ghost predicate Agrees(read: map<string, string>, keys: seq<string>, env: map<string, string>) {
    forall k :: (k in read <==> k in keys) && (k in read && k in env ==> read[k] == env[k])
  }

  lemma AgreesNext(read: map<string, string>, keys: seq<string>, env: map<string, string>, k: string)
    requires Agrees(read, keys, env) && k in env
    ensures Agrees(read[k := env[k]], keys + [k], env)
  {
  }

  lemma ReadNext(lines: seq<string>, k: string, v: string)
    requires GoodKey(k) && GoodValue(v)
    ensures Read(lines + [k + "=" + v]) == Read(lines)[k := v]
  {
    assert (lines + [k + "=" + v])[..|lines|] == lines;
    GoodLineParses(k, v);
  }

  lemma {:induction false} ReadLines(keys: seq<string>, env: map<string, string>)
    requires Good(env) && forall i | 0 <= i < |keys| :: keys[i] in env
    ensures Agrees(Read(Lines(keys, env)), keys, env)
  {
    if keys == [] {
    } else {
      var init, k := keys[..|keys| - 1], keys[|keys| - 1];
      ReadLines(init, env);
      assert keys == init + [k];
      assert Lines(keys, env) == Lines(init, env) + [k + "=" + env[k]];
      ReadNext(Lines(init, env), k, env[k]);
      AgreesNext(Read(Lines(init, env)), init, env, k);
    }
  }

  lemma PrintedParses(keys: seq<string>, env: map<string, string>)
    requires Good(env) && forall i | 0 <= i < |keys| :: keys[i] in env
    ensures Agrees(Parse(ToText(keys, env)), keys, env)
  {
    var lines := Lines(keys, env);
    if keys == [] {
      BlankText();
    } else {
      forall i | 0 <= i < |lines| ensures '\n' !in lines[i] { assert GoodKey(keys[i]) && GoodValue(env[keys[i]]); }
      SplitUnlines(lines);
      ReadLines(keys, env);
    }
  }

  lemma GoodRoundTrips(keys: seq<string>, env: map<string, string>)
    requires Enumerates(keys, env) && Good(env) && forall i | 0 <= i < |keys| :: keys[i] in env
    ensures Parse(ToText(keys, env)) == env
  {
    PrintedParses(keys, env);
    var read := Parse(ToText(keys, env));
    assert forall k :: k in read <==> k in env;
  }

  lemma BlankText()
    ensures Parse("") == map[]
  {
    assert [""][..0] == [];
    assert Read([]) == map[];
    assert ParseLine("") == Nothing;
  }

  /** Whatever is typed, what is read is good. */
  lemma {:induction false} ReadIsGood(lines: seq<string>)
    requires forall i | 0 <= i < |lines| :: '\n' !in lines[i]
    ensures Good(Read(lines))
  {
    if lines == [] {
    } else {
      ReadIsGood(lines[..|lines| - 1]);
      ParsedLineIsGood(lines[|lines| - 1]);
    }
  }

  /** Printing and parsing round-trip exactly for good maps, in whatever order the keys are printed; and
      parsing yields nothing but good maps. */
  lemma RoundTripExactly(keys: seq<string>, env: map<string, string>)
    requires Enumerates(keys, env)
    ensures (forall i | 0 <= i < |keys| :: keys[i] in env) && (Parse(ToText(keys, env)) == env <==> Good(env))
  {
    forall i | 0 <= i < |keys| ensures keys[i] in env { assert keys[i] in keys; }
    if Good(env) { GoodRoundTrips(keys, env); }
    ParsedIsGood(ToText(keys, env));
  }

  lemma ParsedIsGood(text: string)
    ensures Good(Parse(text))
  {
    LinesHaveNoBreaks(text);
    ReadIsGood(Split(text));
  }

  /** Variables that do not come back: an equals sign in the name, a name like a comment, a value with a
      blank at its end. */
  lemma VariablesLost()
    ensures Parse(ToText(["a=b"], map["a=b" := "c"])) != map["a=b" := "c"]
    ensures Parse(ToText(["#a"], map["#a" := "c"])) != map["#a" := "c"]
    ensures Parse(ToText(["a"], map["a" := "c "])) != map["a" := "c "]
  {
    RoundTripExactly(["a=b"], map["a=b" := "c"]);
    RoundTripExactly(["#a"], map["#a" := "c"]);
    RoundTripExactly(["a"], map["a" := "c "]);
    assert "a=b"[1] == '=' && "a=b" in map["a=b" := "c"];
    assert "#a"[0] == '#' && "#a" in map["#a" := "c"];
    assert "c "[1] == ' ' && "a" in map["a" := "c "];
  }

  // ---------------------------------------------------------------- what a line says

  lemma TrimAround(a: string, b: string)
    ensures Trim(a + "=" + b) == TrimLeft(a) + "=" + TrimRight(b)
  {
    var rest, front := "=" + b, TrimLeft(a) + "=";
    assert a + "=" + b == a + rest;
    LeftBefore(a, rest);
    assert TrimLeft(a) + rest == front + b;
    RightBehind(front, b);
  }

  lemma FirstEquals(front: string, rest: string, line: string)
    requires '=' !in front && line == front + "=" + rest
    ensures Find(line, '=') == |front| && line[..|front|] == front && line[|front| + 1..] == rest
  {
    forall i | 0 <= i < |front| ensures line[i] != '=' { assert line[i] == front[i] && front[i] in front; }
    FindAt(line, |front|, '=');
  }

  /** A line with an equals sign sets the trimmed text before the first one to the trimmed text after it, unless it is
      a comment. */
  lemma LineSets(a: string, b: string)
    requires '=' !in a && (TrimLeft(a) != "" ==> TrimLeft(a)[0] != '#')
    ensures ParseLine(a + "=" + b) == Pair(Trim(a), Trim(b))
  {
    var line := Trim(a + "=" + b);
    TrimAround(a, b);
    LeftTrims(a);
    FirstEquals(TrimLeft(a), TrimRight(b), line);
    TrimLeftOnce(a);
    TrimRightOnce(b);
  }

  /** A blank line, a comment, and a line without an equals sign set nothing. */
  lemma LineSetsNothing(l: string, t: string, r: string)
    requires AllWhite(l) && AllWhite(r) && Trimmed(t) && (t == "" || t[0] == '#' || '=' !in t)
    ensures ParseLine(l + t + r).Nothing?
  {
    TrimIs(l, t, r);
  }

  predicate Sets(line: string, k: string) {
    ParseLine(line).Pair? && ParseLine(line).key == k
  }

  /** Of several lines that set a name, the last counts. */
  lemma {:induction false} LastLineCounts(lines: seq<string>, k: string, i: nat)
    requires i < |lines| && Sets(lines[i], k) && forall j | i < j < |lines| :: !Sets(lines[j], k)
    ensures k in Read(lines) && Read(lines)[k] == ParseLine(lines[i]).value
    decreases |lines|
  {
    var n := |lines| - 1;
    if i < n {
      var init := lines[..n];
      assert init[i] == lines[i] && forall j | i < j < n :: init[j] == lines[j];
      LastLineCounts(init, k, i);
      assert !Sets(lines[n], k);
    }
  }

  /** And a name that no line sets is not there. */
  lemma {:induction false} NothingElse(lines: seq<string>, k: string)
    requires forall i | 0 <= i < |lines| :: !Sets(lines[i], k)
    ensures k !in Read(lines)
  {
    if lines == [] {
    } else {
      NothingElse(lines[..|lines| - 1], k);
      assert !Sets(lines[|lines| - 1], k);
    }
  }

  // ---------------------------------------------------------------- the loops

  method EnvToText(keys: seq<string>, env: map<string, string>) returns (text: string)
    requires Enumerates(keys, env)
    ensures (forall i | 0 <= i < |keys| :: keys[i] in env) && text == ToText(keys, env)
  {
    forall i | 0 <= i < |keys| ensures keys[i] in env { assert keys[i] in keys; }
    var lines := [];
    for i := 0 to |keys|
      invariant lines == Lines(keys, env)[..i]
    {
      lines := lines + [keys[i] + "=" + env[keys[i]]];
    }
    assert lines == Lines(keys, env);
    text := Unlines(lines);
  }

  lemma ReadOneMore(lines: seq<string>, n: nat)
    requires n < |lines|
    ensures var env, e := Read(lines[..n]), ParseLine(lines[n]);
      Read(lines[..n + 1]) == if e.Pair? then env[e.key := e.value] else env
  {
    assert lines[..n + 1][..n] == lines[..n];
  }

  method ParseEnvVars(text: string) returns (env: map<string, string>)
    ensures env == Parse(text)
  {
    env := map[];
    var lines := Split(text);
    for n := 0 to |lines|
      invariant env == Read(lines[..n])
    {
      ReadOneMore(lines, n);
      var line := Trim(lines[n]);
      if line == "" || line[0] == '#' { continue; }
      var i := Find(line, '=');
      if i < |line| { env := env[Trim(line[..i]) := Trim(line[i + 1..])]; }
    }
    assert lines[..|lines|] == lines;
  }
}
