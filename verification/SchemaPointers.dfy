/** JSON pointers, read and written (sections 3 and 4 of RFC 6901). */
module SchemaPointers {
  import opened Options
  import opened SchemaModel

  // ---------------------------------------------------------------- tokens

  lemma {:induction false} CutWord(word: string)
    requires '/' !in word
    ensures Cut(word) == [word]
  {
    if word == "" {
    } else {
      CutWord(word[1..]);
      assert word == [word[0]] + word[1..];
    }
  }

  lemma {:induction false} CutSlash(word: string, rest: string)
    requires '/' !in word
    ensures Cut(word + "/" + rest) == [word] + Cut(rest)
  {
    var text := word + "/" + rest;
    if word == "" {
      assert text[1..] == rest;
    } else {
      assert text[1..] == word[1..] + "/" + rest;
      CutSlash(word[1..], rest);
      assert word == [word[0]] + word[1..];
    }
  }

  lemma {:induction false} UnescapeWord(word: string)
    requires '~' !in word
    ensures Unescape(word) == word
  {
    if |word| < 2 {
    } else {
      UnescapeWord(word[1..]);
      assert word == [word[0]] + word[1..];
    }
  }

  // ---------------------------------------------------------------- writing

  /** How a character is written in a token. */
  function Written(c: char): string {
    if c == '~' then "~0" else if c == '/' then "~1" else [c]
  }

  function Escape(name: string): string {
    if name == "" then "" else Written(name[0]) + Escape(name[1..])
  }

  function EscapeAll(names: seq<string>): (r: seq<string>)
    ensures |r| == |names|
  {
    seq(|names|, i requires 0 <= i < |names| => Escape(names[i]))
  }

  function Slashed(words: seq<string>): string
    requires words != []
  {
    if |words| == 1 then words[0] else words[0] + "/" + Slashed(words[1..])
  }

  function PointerTo(names: seq<string>): string {
    if names == [] then "#" else "#/" + Slashed(EscapeAll(names))
  }

  lemma {:induction false} EscapeHidesSlashes(name: string)
    ensures '/' !in Escape(name)
    ensures '%' !in name ==> '%' !in Escape(name)
  {
    if name == "" {
    } else {
      EscapeHidesSlashes(name[1..]);
    }
  }

  lemma {:induction false} UnescapeEscape(name: string)
    ensures Unescape(Escape(name)) == name
  {
    if name == "" {
    } else {
      var rest := Escape(name[1..]);
      UnescapeEscape(name[1..]);
      if name[0] == '~' || name[0] == '/' {
        assert Escape(name)[2..] == rest;
      } else if rest == "" {
        assert Escape(name) == [name[0]] && name[1..] == "";
      } else {
        assert Escape(name)[1..] == rest;
      }
      assert name == [name[0]] + name[1..];
    }
  }

  lemma {:induction false} CutSlashed(words: seq<string>)
    requires words != [] && forall i | 0 <= i < |words| :: '/' !in words[i]
    ensures Cut(Slashed(words)) == words
  {
    if |words| == 1 {
      CutWord(words[0]);
    } else {
      CutSlashed(words[1..]);
      CutSlash(words[0], Slashed(words[1..]));
      assert words == [words[0]] + words[1..];
    }
  }

  lemma {:induction false} SlashedIsPlain(words: seq<string>)
    requires words != [] && forall i | 0 <= i < |words| :: '%' !in words[i]
    ensures '%' !in Slashed(words)
  {
    if |words| > 1 { SlashedIsPlain(words[1..]); }
  }

  lemma UnescapeEach(names: seq<string>)
    ensures UnescapeAll(EscapeAll(names)) == names
  {
    forall i | 0 <= i < |names| ensures Unescape(Escape(names[i])) == names[i] { UnescapeEscape(names[i]); }
  }

  /** Reading undoes writing, for any names without a percent sign. */
  lemma PointerRoundTrip(names: seq<string>)
    requires forall i | 0 <= i < |names| :: '%' !in names[i]
    ensures Pointer(PointerTo(names)) && Tokens(PointerTo(names)) == names
  {
    if names != [] {
      var words := EscapeAll(names);
      forall i | 0 <= i < |words| ensures '/' !in words[i] && '%' !in words[i] { EscapeHidesSlashes(names[i]); }
      CutSlashed(words);
      SlashedIsPlain(words);
      UnescapeEach(names);
      assert PointerTo(names)[2..] == Slashed(words);
    }
  }

  // ---------------------------------------------------------------- array indices

  function DigitOf(d: nat): char
    requires d < 10
  {
    "0123456789"[d]
  }

  /** A number as it is written. */
  function Decimal(n: nat): string {
    if n < 10 then [DigitOf(n)] else Decimal(n / 10) + [DigitOf(n % 10)]
  }

  lemma DigitsAre(c: char)
    ensures Digit(c) <==> c in "0123456789"
    ensures forall d: nat | d < 10 :: Digit(DigitOf(d)) && (DigitOf(d) - '0') as int == d && (DigitOf(d) == '0' <==> d == 0)
  {
    assert "0123456789" == ['0', '1', '2', '3', '4', '5', '6', '7', '8', '9'];
  }

  ghost predicate AllDigits(s: string) {
    forall i | 0 <= i < |s| :: Digit(s[i])
  }

  lemma {:induction false} DecimalIsIndex(n: nat)
    ensures AllDigits(Decimal(n)) && Decimal(n) != "" && Number(Decimal(n)) == n
    ensures Decimal(n)[0] == '0' <==> n == 0
    ensures n < 10 ==> |Decimal(n)| == 1
  {
    DigitsAre('0');
    if n < 10 {
      assert Decimal(n)[..0] == "" && Number("") == 0;
    } else {
      DecimalIsIndex(n / 10);
      assert Decimal(n)[..|Decimal(n)| - 1] == Decimal(n / 10);
    }
  }

  lemma NumberNext(init: string, last: char)
    requires AllDigits(init) && Digit(last)
    ensures AllDigits(init + [last]) && Number(init + [last]) == 10 * Number(init) + (last - '0') as int
  {
    var token := init + [last];
    assert token[..|init|] == init && token[|init|] == last;
  }

  lemma {:induction false} NumberIsWritten(token: string)
    requires token != "" && AllDigits(token) && (token[0] != '0' || |token| == 1)
    ensures token == Decimal(Number(token))
    ensures token[0] != '0' ==> Number(token) > 0
    decreases |token|
  {
    var n := |token| - 1;
    var init, last := token[..n], token[n];
    DigitBack(last);
    NumberNext(init, last);
    assert token == init + [last];
    if n == 0 {
      assert init == "" && Number(init) == 0;
    } else {
      NumberIsWritten(init);
      NextDigit(Number(init), last);
    }
  }

  lemma DigitBack(c: char)
    requires Digit(c)
    ensures (c - '0') as int < 10 && DigitOf((c - '0') as int) == c
    ensures c != '0' ==> (c - '0') as int > 0
  {
    DigitsAre(c);
  }

  lemma NextDigit(m: nat, last: char)
    requires m > 0 && Digit(last)
    ensures Decimal(10 * m + (last - '0') as int) == Decimal(m) + [last]
  {
    DigitBack(last);
    var d := (last - '0') as int;
    assert (10 * m + d) / 10 == m && (10 * m + d) % 10 == d;
  }

  /** A token is an index exactly when it is a number as it is written. */
  lemma IndexExactly(token: string, n: nat)
    ensures Index(token) == Some(n) <==> token == Decimal(n)
  {
    DecimalIsIndex(n);
    if Index(token).Some? { NumberIsWritten(token); }
  }

  /** Such a token names that item of an array, if there is one, and any other token names none. */
  lemma ItemsByIndex(s: seq<Json>, token: string)
    ensures forall n: nat | token == Decimal(n) :: Enter(Arr(s), token) == if n < |s| then Some(s[n]) else None
    ensures (forall n: nat :: token != Decimal(n)) ==> Enter(Arr(s), token).None?
  {
    forall n: nat ensures Index(token) == Some(n) <==> token == Decimal(n) { IndexExactly(token, n); }
  }
}
