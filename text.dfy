/**
 * String primitives the tutor code relies on, stated over `seq<char>`:
 * Python's `str.strip`, `str.lower`, `str.split`, `in`, `' '.join` and
 * slicing, JavaScript's `String.prototype.trim`, and decimal rendering of
 * status codes. Whitespace is a parameter so that the Python and the
 * JavaScript notions of it can both be expressed.
 */
module Text {

  /** Characters Python's `str.isspace` accepts, restricted to ASCII. */
  const PyWhitespace: set<char> :=
    {'\t', '\n', '\U{B}', '\U{C}', '\r', '\U{1C}', '\U{1D}', '\U{1E}', '\U{1F}', ' '}

  /** ECMAScript WhiteSpace and LineTerminator code points, which `trim` removes. */
  const JsWhitespace: set<char> :=
    {'\t', '\n', '\U{B}', '\U{C}', '\r', ' ', '\U{A0}', '\U{1680}',
     '\U{2000}', '\U{2001}', '\U{2002}', '\U{2003}', '\U{2004}', '\U{2005}',
     '\U{2006}', '\U{2007}', '\U{2008}', '\U{2009}', '\U{200A}',
     '\U{2028}', '\U{2029}', '\U{202F}', '\U{205F}', '\U{3000}', '\U{FEFF}'}

  predicate AllIn(s: string, ws: set<char>) {
    forall i :: 0 <= i < |s| ==> s[i] in ws
  }

  /** One character of an all-whitespace string, for proofs that look at a position only when it exists. */
  lemma AllInAt(s: string, ws: set<char>, i: int)
    ensures AllIn(s, ws) && 0 <= i < |s| ==> s[i] in ws
  {
  }

  predicate NoneIn(s: string, ws: set<char>) {
    forall i :: 0 <= i < |s| ==> s[i] !in ws
  }

  /** Concatenation regrouped, for proofs that build a string piece by piece. */
  lemma Assoc<T>(a: seq<T>, b: seq<T>, c: seq<T>)
    ensures a + (b + c) == a + b + c
  {
  }

  /** `x` cut at `n`, with the first piece taken off the front of `x + y + z`. */
  lemma Regroup<T>(x: seq<T>, y: seq<T>, z: seq<T>, n: nat)
    requires n <= |x|
    ensures x == x[..n] + x[n..] && x + y + z == x[..n] + (x[n..] + y + z)
  {
  }

  // ---------------------------------------------------------------- strip

  /** Drops leading whitespace: what is dropped is all whitespace, and what remains does not start with it. */
  function StripStart(s: string, ws: set<char>): (r: string)
    ensures |r| <= |s| && r == s[|s| - |r|..]
    ensures AllIn(s[..|s| - |r|], ws)
    ensures r == [] || r[0] !in ws
  {
    if |s| > 0 && s[0] in ws then
      var r := StripStart(s[1..], ws);
      var dropped, rest := s[..|s| - |r|], s[1..][..|s| - 1 - |r|];
      assert forall i :: 1 <= i < |dropped| ==> dropped[i] == rest[i - 1];
      r
    else s
  }

  /** Drops trailing whitespace: what is dropped is all whitespace, and what remains does not end with it. */
  function StripEnd(s: string, ws: set<char>): (r: string)
    ensures |r| <= |s| && r == s[..|r|]
    ensures AllIn(s[|r|..], ws)
    ensures r == [] || r[|r| - 1] !in ws
  {
    if |s| > 0 && s[|s| - 1] in ws then
      var r := StripEnd(s[..|s| - 1], ws);
      var dropped, rest := s[|r|..], s[..|s| - 1][|r|..];
      assert forall i :: 0 <= i < |rest| ==> dropped[i] == rest[i];
      r
    else s
  }

  /** `r` is `s` with the whitespace prefix `s[..a]` and a whitespace suffix removed. */
  predicate Trims(s: string, r: string, a: int, ws: set<char>) {
    0 <= a <= |s| - |r| && s[a..a + |r|] == r && AllIn(s[..a], ws) && AllIn(s[a + |r|..], ws)
  }

  /** Python `s.strip()` / JavaScript `s.trim()`, depending on `ws`. */
  function Strip(s: string, ws: set<char>): (r: string)
    ensures exists a :: Trims(s, r, a, ws)
    ensures r == [] || (r[0] !in ws && r[|r| - 1] !in ws)
  {
    TrimsOf(s, StripStart(s, ws), StripEnd(StripStart(s, ws), ws), ws);
    StripEnds(s, ws);
    StripEnd(StripStart(s, ws), ws)
  }

  /** A whitespace prefix and then a whitespace suffix removed: together, a trim. */
  lemma TrimsOf(s: string, t: string, r: string, ws: set<char>)
    requires |t| <= |s| && t == s[|s| - |t|..] && AllIn(s[..|s| - |t|], ws)
    requires |r| <= |t| && r == t[..|r|] && AllIn(t[|r|..], ws)
    ensures Trims(s, r, |s| - |t|, ws)
  {
    PrefixOfSuffix(s, t, r);
  }

  lemma StripEnds(s: string, ws: set<char>)
    ensures var r := StripEnd(StripStart(s, ws), ws);
      r == [] || (r[0] !in ws && r[|r| - 1] !in ws)
  {
    var t := StripStart(s, ws);
    var r := StripEnd(t, ws);
    assert r != [] ==> r[0] == t[0];
  }

  /** A prefix `r` of a suffix `t` of `s`, and what follows it, located in `s`. */
  lemma PrefixOfSuffix<T>(s: seq<T>, t: seq<T>, r: seq<T>)
    requires |t| <= |s| && t == s[|s| - |t|..] && |r| <= |t| && r == t[..|r|]
    ensures s[|s| - |t|..|s| - |t| + |r|] == r
    ensures s[|s| - |t| + |r|..] == t[|r|..]
  {
  }

  /** Stripping is empty exactly when the whole string is whitespace. */
  lemma StripEmptyIff(s: string, ws: set<char>)
    ensures Strip(s, ws) == [] <==> AllIn(s, ws)
  {
    var r := Strip(s, ws);
    var a :| Trims(s, r, a, ws);
    if r == [] {
      forall i | 0 <= i < |s| ensures s[i] in ws {
        if i < a { assert s[..a][i] == s[i]; } else { assert s[a..][i - a] == s[i]; }
      }
    } else {
      assert s[a] == r[0];
    }
  }

  /** A string that neither starts nor ends with whitespace is its own strip. */
  lemma StripNoop(s: string, ws: set<char>)
    requires s == [] || (s[0] !in ws && s[|s| - 1] !in ws)
    ensures Strip(s, ws) == s
  {
  }

  /** Stripping twice is stripping once. */
  lemma StripIdempotent(s: string, ws: set<char>)
    ensures Strip(Strip(s, ws), ws) == Strip(s, ws)
  {
  }

  // ---------------------------------------------------------------- case

  /** Python `str.lower` on one character, ASCII letters only. */
  function LowerChar(c: char): char {
    if 'A' <= c <= 'Z' then (c as int + 32) as char else c
  }

  function Lower(s: string): (r: string)
    ensures |r| == |s|
    ensures forall i :: 0 <= i < |s| ==> r[i] == LowerChar(s[i])
  {
    seq(|s|, i requires 0 <= i < |s| => LowerChar(s[i]))
  }

  /** Python `c.islower()` for one ASCII character. */
  predicate IsLowerChar(c: char) { 'a' <= c <= 'z' }

  /** Python `c.isupper()` for one ASCII character. */
  predicate IsUpperChar(c: char) { 'A' <= c <= 'Z' }

  // ---------------------------------------------------------------- substring

  predicate OccursAt(s: string, sub: string, i: int) {
    0 <= i && i + |sub| <= |s| && s[i..i + |sub|] == sub
  }

  /** Python `sub in s`, scanning from the left. */
  predicate Contains(s: string, sub: string)
    decreases |s|
  {
    if |sub| > |s| then false
    else s[..|sub|] == sub || Contains(s[1..], sub)
  }

  /** The scan agrees with "`sub` occurs at some position of `s`". */
  lemma {:induction false} ContainsIff(s: string, sub: string)
    ensures Contains(s, sub) <==> exists i :: OccursAt(s, sub, i)
    decreases |s|
  {
    if |sub| > |s| {
    } else if s[..|sub|] == sub {
      assert OccursAt(s, sub, 0);
    } else {
      ContainsIff(s[1..], sub);
      if exists i :: OccursAt(s[1..], sub, i) {
        var i :| OccursAt(s[1..], sub, i);
        assert s[1..][i..i + |sub|] == s[i + 1..i + 1 + |sub|];
        assert OccursAt(s, sub, i + 1);
      }
      if exists i :: OccursAt(s, sub, i) {
        var i :| OccursAt(s, sub, i);
        assert i != 0;
        assert s[1..][i - 1..i - 1 + |sub|] == s[i..i + |sub|];
        assert OccursAt(s[1..], sub, i - 1);
      }
    }
  }

  // ---------------------------------------------------------------- split / join

  /** The longest prefix of `s` free of whitespace. */
  function Word(s: string, ws: set<char>): (w: string)
    ensures |w| <= |s| && w == s[..|w|]
    ensures NoneIn(w, ws)
    ensures |w| < |s| ==> s[|w|] in ws
    ensures |s| > 0 && s[0] !in ws ==> |w| > 0
  {
    if |s| > 0 && s[0] !in ws then [s[0]] + Word(s[1..], ws) else []
  }

  /** A non-empty run free of whitespace. */
  predicate IsWord(w: string, ws: set<char>) {
    w != [] && NoneIn(w, ws)
  }

  /** Python `s.split()`: the maximal whitespace-free runs of `s`, in order. */
  function Split(s: string, ws: set<char>): (words: seq<string>)
    decreases |s|
  {
    var t := StripStart(s, ws);
    if t == [] then []
    else
      var w := Word(t, ws);
      [w] + Split(t[|w|..], ws)
  }

  /** Every piece `Split` yields is a non-empty run free of whitespace. */
  lemma {:induction false} SplitYieldsWords(s: string, ws: set<char>)
    ensures forall k :: 0 <= k < |Split(s, ws)| ==> IsWord(Split(s, ws)[k], ws)
    decreases |s|
  {
    var t := StripStart(s, ws);
    if t != [] {
      var w := Word(t, ws);
      var rest := Split(t[|w|..], ws);
      SplitYieldsWords(t[|w|..], ws);
      assert Split(s, ws) == [w] + rest;
      WordsCons(w, rest, ws);
    }
  }

  lemma WordsCons(w: string, words: seq<string>, ws: set<char>)
    requires IsWord(w, ws) && forall k :: 0 <= k < |words| ==> IsWord(words[k], ws)
    ensures forall k :: 0 <= k < |[w] + words| ==> IsWord(([w] + words)[k], ws)
  {
    forall k | 0 <= k < |[w] + words| ensures IsWord(([w] + words)[k], ws) {
      if k > 0 { assert ([w] + words)[k] == words[k - 1]; }
    }
  }

  /** The characters of `s` that are not whitespace, in order. */
  function NonSpace(s: string, ws: set<char>): string {
    if s == [] then [] else (if s[0] in ws then [] else [s[0]]) + NonSpace(s[1..], ws)
  }

  function Concat(words: seq<string>): string {
    if words == [] then [] else words[0] + Concat(words[1..])
  }

  lemma {:induction false} NonSpaceAppend(a: string, b: string, ws: set<char>)
    ensures NonSpace(a + b, ws) == NonSpace(a, ws) + NonSpace(b, ws)
    decreases |a|
  {
    if a != [] {
      assert (a + b)[1..] == a[1..] + b;
      NonSpaceAppend(a[1..], b, ws);
    } else {
      assert a + b == b;
    }
  }

  lemma {:induction false} NonSpaceOfSpaces(s: string, ws: set<char>)
    requires AllIn(s, ws)
    ensures NonSpace(s, ws) == []
    decreases |s|
  {
    if s != [] { NonSpaceOfSpaces(s[1..], ws); }
  }

  lemma {:induction false} NonSpaceOfWord(s: string, ws: set<char>)
    requires NoneIn(s, ws)
    ensures NonSpace(s, ws) == s
    decreases |s|
  {
    if s != [] { NonSpaceOfWord(s[1..], ws); }
  }

  /** Splitting loses exactly the whitespace: the words put back together are the non-whitespace characters. */
  lemma {:induction false} SplitKeepsNonSpace(s: string, ws: set<char>)
    ensures Concat(Split(s, ws)) == NonSpace(s, ws)
    decreases |s|
  {
    var t := StripStart(s, ws);
    NonSpaceAfterStripStart(s, ws);
    if t != [] {
      var w := Word(t, ws);
      var rest := t[|w|..];
      NonSpaceOfWordThen(t, ws);
      SplitKeepsNonSpace(rest, ws);
      ConcatSplitStep(s, ws);
    }
  }

  lemma NonSpaceAfterStripStart(s: string, ws: set<char>)
    ensures NonSpace(s, ws) == NonSpace(StripStart(s, ws), ws)
  {
    var t := StripStart(s, ws);
    var p := s[..|s| - |t|];
    assert s == p + t;
    NonSpaceAppend(p, t, ws);
    NonSpaceOfSpaces(p, ws);
  }

  lemma NonSpaceOfWordThen(t: string, ws: set<char>)
    ensures NonSpace(t, ws) == Word(t, ws) + NonSpace(t[|Word(t, ws)|..], ws)
  {
    var w := Word(t, ws);
    var rest := t[|w|..];
    assert t == w + rest;
    NonSpaceAppend(w, rest, ws);
    NonSpaceOfWord(w, ws);
  }

  lemma ConcatSplitStep(s: string, ws: set<char>)
    requires StripStart(s, ws) != []
    ensures var t := StripStart(s, ws);
      Concat(Split(s, ws)) == Word(t, ws) + Concat(Split(t[|Word(t, ws)|..], ws))
  {
    var t := StripStart(s, ws);
    var w := Word(t, ws);
    var rest := t[|w|..];
    assert Split(s, ws) == [w] + Split(rest, ws);
    assert ([w] + Split(rest, ws))[1..] == Split(rest, ws);
  }

  /** Python `sep.join(words)`. */
  function Join(words: seq<string>, sep: string): string {
    if words == [] then []
    else if |words| == 1 then words[0]
    else words[0] + sep + Join(words[1..], sep)
  }

  /** A whitespace-free word followed by whitespace (or nothing) is read back as that word. */
  lemma {:induction false} WordOfWordThen(w: string, rest: string, ws: set<char>)
    requires NoneIn(w, ws)
    requires rest == [] || rest[0] in ws
    ensures Word(w + rest, ws) == w
    decreases |w|
  {
    if w == [] {
      assert w + rest == rest;
    } else {
      assert (w + rest)[1..] == w[1..] + rest;
      WordOfWordThen(w[1..], rest, ws);
    }
  }

  /** `Split` looks at a string only through what is left once leading whitespace is dropped. */
  lemma SplitAfterStripStart(a: string, b: string, ws: set<char>)
    requires StripStart(a, ws) == StripStart(b, ws)
    ensures Split(a, ws) == Split(b, ws)
  {
  }

  /** A lone word splits into itself. */
  lemma SplitOneWord(w: string, ws: set<char>)
    requires IsWord(w, ws)
    ensures Split(w, ws) == [w]
  {
    assert Word(w, ws) == w by {
      WordOfWordThen(w, [], ws);
      assert w + [] == w;
    }
    assert StripStart(w, ws) == w by {
      assert w[0] !in ws;
    }
    assert Split(w[|w|..], ws) == [] by {
      assert w[|w|..] == [];
    }
  }

  /** A word, one space and a string that starts with a word split into the word and the rest's words. */
  lemma SplitWordSpace(w: string, j: string, ws: set<char>)
    requires IsWord(w, ws) && ' ' in ws
    requires j != [] && j[0] !in ws
    ensures Split(w + (" " + j), ws) == [w] + Split(j, ws)
  {
    var s := w + (" " + j);
    WordOfWordThen(w, " " + j, ws);
    assert StripStart(s, ws) == s;
    assert s[|w|..] == " " + j;
    assert (" " + j)[1..] == j;
    SplitAfterStripStart(" " + j, j, ws);
  }

  lemma JoinCons(words: seq<string>, sep: string)
    requires |words| > 1
    ensures Join(words, sep) == words[0] + (sep + Join(words[1..], sep))
  {
  }

  lemma JoinStartsWithFirst(words: seq<string>, sep: string)
    requires |words| > 0 && words[0] != []
    ensures Join(words, sep) != [] && Join(words, sep)[0] == words[0][0]
  {
  }

  lemma HeadThenTail<T>(xs: seq<T>)
    requires |xs| > 0
    ensures [xs[0]] + xs[1..] == xs
  {
  }

  /** Joining words with single spaces and splitting again gives the words back. */
  lemma {:induction false} SplitJoin(words: seq<string>, ws: set<char>)
    requires ' ' in ws
    requires forall k :: 0 <= k < |words| ==> IsWord(words[k], ws)
    ensures Split(Join(words, " "), ws) == words
    decreases |words|
  {
    if words == [] {
    } else if |words| == 1 {
      SplitOneWord(words[0], ws);
    } else {
      var rest := words[1..];
      var j := Join(rest, " ");
      assert IsWord(words[0], ws) && IsWord(words[1], ws);
      assert forall k :: 0 <= k < |rest| ==> IsWord(rest[k], ws) by {
        forall k | 0 <= k < |rest| ensures IsWord(rest[k], ws) { assert rest[k] == words[k + 1]; }
      }
      SplitJoin(rest, ws);
      JoinCons(words, " ");
      JoinStartsWithFirst(rest, " ");
      assert j[0] !in ws by {
        assert j[0] == rest[0][0] && IsWord(rest[0], ws);
      }
      SplitWordSpace(words[0], j, ws);
      calc {
        Split(Join(words, " "), ws);
        Split(words[0] + (" " + j), ws);
        [words[0]] + Split(j, ws);
        [words[0]] + rest;
        { HeadThenTail(words); }
        words;
      }
    }
  }

  /** Leading whitespace is dropped whole: whatever follows it is stripped as if alone. */
  lemma {:induction false} StripStartAfterSpaces(p: string, t: string, ws: set<char>)
    requires AllIn(p, ws)
    ensures StripStart(p + t, ws) == StripStart(t, ws)
    decreases |p|
  {
    if p == [] {
      assert p + t == t;
    } else {
      assert (p + t)[1..] == p[1..] + t;
      StripStartAfterSpaces(p[1..], t, ws);
    }
  }

  /** Leading whitespace does not change the words. */
  lemma SplitAfterSpaces(p: string, t: string, ws: set<char>)
    requires AllIn(p, ws)
    ensures Split(p + t, ws) == Split(t, ws)
  {
    StripStartAfterSpaces(p, t, ws);
    SplitAfterStripStart(p + t, t, ws);
  }

  /** A word followed by whitespace, or by nothing, is the first piece; the rest is split on its own. */
  lemma SplitFromWord(w: string, r: string, ws: set<char>)
    requires IsWord(w, ws) && (r == [] || r[0] in ws)
    ensures Split(w + r, ws) == [w] + Split(r, ws)
  {
    var u := w + r;
    WordOfWordThen(w, r, ws);
    assert StripStart(u, ws) == u by { assert u[0] == w[0]; }
    assert u[|w|..] == r;
  }

  lemma AllInAppend(a: string, b: string, ws: set<char>)
    requires AllIn(a, ws) && AllIn(b, ws)
    ensures AllIn(a + b, ws)
  {
    forall i | 0 <= i < |a + b| ensures (a + b)[i] in ws {
      if i < |a| { assert (a + b)[i] == a[i]; } else { assert (a + b)[i] == b[i - |a|]; }
    }
  }

  /** Whitespace of any length between two strings keeps them apart: their words are split separately. */
  lemma {:induction false} SplitAtGap(a: string, g: string, b: string, ws: set<char>)
    requires g != [] && AllIn(g, ws)
    ensures Split(a + g + b, ws) == Split(a, ws) + Split(b, ws)
    decreases |a|
  {
    if a == [] {
      assert a + g + b == g + b;
      SplitAfterSpaces(g, b, ws);
    } else {
      var n := if a[0] in ws then 1 else |Word(a, ws)|;
      var c, tail := a[..n], a[n..];
      Regroup(a, g, b, n);
      SplitAtGap(tail, g, b, ws);
      if a[0] in ws {
        assert AllIn(c, ws);
        SplitAfterSpaces(c, tail + g + b, ws);
        SplitAfterSpaces(c, tail, ws);
      } else {
        assert (tail + g + b)[0] in ws by {
          if tail == [] { assert (tail + g + b)[0] == g[0]; }
        }
        SplitFromWord(c, tail + g + b, ws);
        SplitFromWord(c, tail, ws);
        Assoc([c], Split(tail, ws), Split(b, ws));
      }
    }
  }

  /** Python `xs[:n]` for a non-negative `n`. */
  function Take<T>(xs: seq<T>, n: nat): (r: seq<T>)
    ensures |r| == if n < |xs| then n else |xs|
    ensures r == xs[..|r|]
  {
    if n < |xs| then xs[..n] else xs
  }

  // ---------------------------------------------------------------- decimals

  predicate IsDigit(c: char) { '0' <= c <= '9' }

  predicate AllDigits(s: string) { forall i :: 0 <= i < |s| ==> IsDigit(s[i]) }

  function DigitChar(d: nat): (c: char)
    requires d < 10
    ensures IsDigit(c)
  {
    ('0' as int + d) as char
  }

  function DigitValue(c: char): (d: nat)
    requires IsDigit(c)
    ensures d < 10
  {
    c as int - '0' as int
  }

  /** Decimal rendering of a number, as JavaScript's template literals and Python's f-strings write it. */
  function NatToString(n: nat): (s: string)
    ensures |s| > 0 && AllDigits(s)
    decreases n
  {
    if n < 10 then [DigitChar(n)] else NatToString(n / 10) + [DigitChar(n % 10)]
  }

  function ParseNat(s: string): nat
    requires AllDigits(s)
  {
    if s == [] then 0 else ParseNat(s[..|s| - 1]) * 10 + DigitValue(s[|s| - 1])
  }

  /** Rendering loses nothing: the number can be read back from its decimal form. */
  lemma {:induction false} ParseNatToString(n: nat)
    ensures ParseNat(NatToString(n)) == n
    decreases n
  {
    var s := NatToString(n);
    if n >= 10 {
      ParseNatToString(n / 10);
      assert s[..|s| - 1] == NatToString(n / 10);
    }
  }
}
