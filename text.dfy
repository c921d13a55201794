/** The pieces of Python's `str` behaviour the seating core relies on:
    `str.split()` with no separator, `str.lower()`, the ordering `<` on
    strings (used by the ordering of `Person`) and `int()` on a token. */
module Text {
  import opened Wrappers

  /** Python's `str.isspace()`: the characters `str.split()` splits on. */
  predicate IsSpace(c: char)
  {
    ('\t' <= c <= '\r') || ('\U{1C}' <= c <= ' ') ||
    c == '\U{85}' || c == '\U{A0}' || c == '\U{1680}' ||
    ('\U{2000}' <= c <= '\U{200A}') || c == '\U{2028}' || c == '\U{2029}' ||
    c == '\U{202F}' || c == '\U{205F}' || c == '\U{3000}'
  }

  predicate NoSpace(s: string)
  {
    forall k :: 0 <= k < |s| ==> !IsSpace(s[k])
  }

  predicate AllSpace(s: string)
  {
    forall k :: 0 <= k < |s| ==> IsSpace(s[k])
  }

  /** The longest prefix of `s` that holds no white space. */
  function Token(s: string): (t: string)
    ensures |t| <= |s| && t == s[..|t|] && NoSpace(t)
    ensures |t| < |s| ==> IsSpace(s[|t|])
  {
    if s == [] || IsSpace(s[0]) then [] else [s[0]] + Token(s[1..])
  }

  /** `s.split()`: the maximal runs of non-white-space characters, in order. */
  function SplitWhitespace(s: string): (tokens: seq<string>)
    ensures forall k :: 0 <= k < |tokens| ==> tokens[k] != [] && NoSpace(tokens[k])
    ensures AllSpace(s) ==> tokens == []
    ensures s != [] && NoSpace(s) ==> tokens == [s]
    decreases |s|
  {
    if s == [] then []
    else if IsSpace(s[0]) then SplitWhitespace(s[1..])
    else
      var t := Token(s);
      assert NoSpace(s) ==> t == s[..|s|] == s;
      [t] + SplitWhitespace(s[|t|..])
  }

  /** White space in front of a text is skipped. */
  lemma {:induction false} SplitSkipsSpace(w: string, s: string)
    requires AllSpace(w)
    ensures SplitWhitespace(w + s) == SplitWhitespace(s)
  {
    if w == [] {
      assert w + s == s;
    } else {
      assert IsSpace(w[0]) && (w + s)[0] == w[0] && (w + s)[1..] == w[1..] + s;
      assert SplitWhitespace(w + s) == SplitWhitespace(w[1..] + s);
      SplitSkipsSpace(w[1..], s);
    }
  }

  /** A word followed by a run of white space (of any length and of any
      white-space characters) is one token, and splitting goes on after it. */
  lemma SplitTakesToken(t: string, w: string, s: string)
    requires t != [] && NoSpace(t)
    requires w != [] && AllSpace(w)
    ensures SplitWhitespace(t + w + s) == [t] + SplitWhitespace(s)
  {
    var x := t + (w + s);
    assert t + w + s == x;
    TokenOfPrefix(t, w + s);
    assert x[|t|..] == w + s;
    SplitSkipsSpace(w, s);
  }

  /** The characters of `s` that are not white space, in order. */
  function NonSpaceChars(s: string): (r: string)
    ensures |r| <= |s| && NoSpace(r)
  {
    if s == [] then []
    else (if IsSpace(s[0]) then [] else [s[0]]) + NonSpaceChars(s[1..])
  }

  /** The tokens written one after the other. */
  function Glued(tokens: seq<string>): string
  {
    if tokens == [] then [] else tokens[0] + Glued(tokens[1..])
  }

  lemma {:induction false} NonSpaceCharsAppend(t: string, rest: string)
    requires NoSpace(t)
    ensures NonSpaceChars(t + rest) == t + NonSpaceChars(rest)
  {
    if t == [] {
      assert t + rest == rest;
    } else {
      assert !IsSpace(t[0]) && (t + rest)[0] == t[0] && (t + rest)[1..] == t[1..] + rest;
      assert NonSpaceChars(t + rest) == [t[0]] + NonSpaceChars(t[1..] + rest);
      NonSpaceCharsAppend(t[1..], rest);
      assert t == [t[0]] + t[1..];
    }
  }

  /** Splitting loses nothing but white space: the tokens, glued together,
      are exactly the characters of the text that are not white space. */
  lemma {:induction false} SplitKeepsText(s: string)
    ensures Glued(SplitWhitespace(s)) == NonSpaceChars(s)
    decreases |s|
  {
    if s != [] {
      if IsSpace(s[0]) {
        SplitKeepsText(s[1..]);
      } else {
        var t := Token(s);
        assert s == t + s[|t|..];
        NonSpaceCharsAppend(t, s[|t|..]);
        SplitKeepsText(s[|t|..]);
        assert ([t] + SplitWhitespace(s[|t|..]))[1..] == SplitWhitespace(s[|t|..]);
      }
    }
  }

  /** `" ".join(tokens)` */
  function JoinSpaced(tokens: seq<string>): string
  {
    if tokens == [] then []
    else if |tokens| == 1 then tokens[0]
    else tokens[0] + " " + JoinSpaced(tokens[1..])
  }

  lemma {:induction false} TokenOfPrefix(t: string, rest: string)
    requires NoSpace(t)
    requires rest == [] || IsSpace(rest[0])
    ensures Token(t + rest) == t
    decreases |t|
  {
    if t != [] {
      assert (t + rest)[1..] == t[1..] + rest;
      TokenOfPrefix(t[1..], rest);
    }
  }

  /** Splitting undoes joining with single spaces, whenever the pieces are
      non-empty and hold no white space: the tokens `split()` returns are
      exactly the words between the spaces. */
  lemma {:induction false} SplitJoinRoundTrip(tokens: seq<string>)
    requires forall k :: 0 <= k < |tokens| ==> tokens[k] != [] && NoSpace(tokens[k])
    ensures SplitWhitespace(JoinSpaced(tokens)) == tokens
  {
    if |tokens| == 1 {
      TokenOfPrefix(tokens[0], []);
      assert tokens[0] + [] == tokens[0];
      assert tokens[0][|tokens[0]|..] == [];
    } else if |tokens| > 1 {
      var t, rest := tokens[0], " " + JoinSpaced(tokens[1..]);
      assert JoinSpaced(tokens) == t + rest;
      TokenOfPrefix(t, rest);
      assert (t + rest)[|t|..] == rest;
      assert rest[1..] == JoinSpaced(tokens[1..]);
      SplitJoinRoundTrip(tokens[1..]);
      assert [t] + tokens[1..] == tokens;
    }
  }

  /** `str.lower()` on the ASCII and Latin-1 upper-case letters (the
      Finnish Ä, Ö and Å included); every other character is kept. */
  function LowerChar(c: char): (d: char)
    ensures 'A' <= c <= 'Z' ==> d as int == c as int + 32
    ensures '\U{C0}' <= c <= '\U{DE}' && c != '\U{D7}' ==> d as int == c as int + 32
    ensures c == '\U{D7}' ==> d == c
    ensures !('A' <= c <= 'Z') && !('\U{C0}' <= c <= '\U{DE}') ==> d == c
  {
    if 'A' <= c <= 'Z' || ('\U{C0}' <= c <= '\U{DE}' && c != '\U{D7}')
    then (c as int + 32) as char
    else c
  }

  function Lower(s: string): (r: string)
    ensures |r| == |s|
    ensures forall k :: 0 <= k < |s| ==> r[k] == LowerChar(s[k])
    ensures forall k :: 0 <= k < |r| ==> LowerChar(r[k]) == r[k]
  {
    seq(|s|, k requires 0 <= k < |s| => LowerChar(s[k]))
  }

  /** Python's `<` on `str`: code point by code point, a proper prefix first. */
  predicate StrLess(a: string, b: string)
    ensures StrLess(a, b) ==> a != b
    ensures |a| <= |b| && a == b[..|a|] ==> (StrLess(a, b) <==> |a| < |b|)
  {
    if a == [] then b != []
    else if b == [] then false
    else if a[0] != b[0] then a[0] < b[0]
    else StrLess(a[1..], b[1..])
  }

  lemma {:induction false} StrLessIrreflexive(a: string)
    ensures !StrLess(a, a)
  {
    if a != [] { StrLessIrreflexive(a[1..]); }
  }

  lemma {:induction false} StrLessTransitive(a: string, b: string, c: string)
    requires StrLess(a, b) && StrLess(b, c)
    ensures StrLess(a, c)
  {
    if a != [] && b != [] && c != [] && a[0] == b[0] && b[0] == c[0] {
      StrLessTransitive(a[1..], b[1..], c[1..]);
    }
  }

  /** Any two different strings are ordered one way or the other. */
  lemma {:induction false} StrLessTotal(a: string, b: string)
    requires a != b
    ensures StrLess(a, b) || StrLess(b, a)
  {
    if a != [] && b != [] && a[0] == b[0] {
      assert a == [a[0]] + a[1..] && b == [b[0]] + b[1..];
      StrLessTotal(a[1..], b[1..]);
    }
  }

  lemma {:induction false} StrLessAsymmetric(a: string, b: string)
    requires StrLess(a, b)
    ensures !StrLess(b, a)
  {
    if a != [] && b != [] && a[0] == b[0] {
      StrLessAsymmetric(a[1..], b[1..]);
    }
  }

  predicate IsDigit(c: char) { '0' <= c <= '9' }

  predicate AllDigits(s: string)
  {
    forall k :: 0 <= k < |s| ==> IsDigit(s[k])
  }

  /** The decimal value of a string of ASCII digits (leading zeros allowed). */
  function DigitsValue(s: string): nat
    requires AllDigits(s)
  {
    if s == [] then 0
    else DigitsValue(s[..|s| - 1]) * 10 + (s[|s| - 1] as int - '0' as int)
  }

  /** The canonical decimal rendering of a natural number. */
  function ShowNat(n: nat): (s: string)
    ensures s != [] && AllDigits(s)
  {
    if n < 10 then [('0' as int + n) as char]
    else ShowNat(n / 10) + [('0' as int + n % 10) as char]
  }

  /** `int(token)` for a token of an optional sign followed by ASCII digits;
      `None` stands for the `ValueError` Python raises on an invalid literal. */
  function ParseInt(token: string): (r: Option<int>)
    ensures r.Some? <==> (token != [] && ((token[0] == '+' || token[0] == '-') ==>
                          |token| > 1 && AllDigits(token[1..])) &&
                          ((token[0] != '+' && token[0] != '-') ==> AllDigits(token)))
  {
    if token == [] then None
    else if token[0] == '+' || token[0] == '-' then
      var digits := token[1..];
      if digits != [] && AllDigits(digits) then
        Some(if token[0] == '-' then -(DigitsValue(digits) as int) else DigitsValue(digits) as int)
      else None
    else if AllDigits(token) then Some(DigitsValue(token))
    else None
  }

  lemma {:induction false} DigitsShowRoundTrip(n: nat)
    ensures DigitsValue(ShowNat(n)) == n
  {
    if n >= 10 {
      var s := ShowNat(n);
      assert s[..|s| - 1] == ShowNat(n / 10);
      DigitsShowRoundTrip(n / 10);
    }
  }

  /** Parsing reads back the decimal rendering of every integer, signed or not. */
  lemma ParseShowRoundTrip(n: nat)
    ensures ParseInt(ShowNat(n)) == Some(n)
    ensures ParseInt("-" + ShowNat(n)) == Some(-(n as int))
    ensures ParseInt("+" + ShowNat(n)) == Some(n)
  {
    DigitsShowRoundTrip(n);
    var s := ShowNat(n);
    assert ('0' as int + 0) as char != '+';
    assert s[0] != '+' && s[0] != '-';
    assert ("-" + s)[1..] == s;
    assert ("+" + s)[1..] == s;
  }
}
