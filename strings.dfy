/**
 * The Python `str` operations the two scripts rely on, written out over
 * `seq<char>`: whitespace, `strip`, `startswith`/`endswith`, single-character
 * `replace`, line iteration over a text file, `split()`, `" ".join`, `in`
 * (substring), `<=` on strings and decimal formatting of a number.
 */
module Strings {

  /** Python's `str.isspace()` on one character. */
  predicate IsSpace(c: char)
  {
    var n := c as int;
    (9 <= n <= 13) || (0x1C <= n <= 0x20) || n == 0x85 || n == 0xA0 || n == 0x1680
    || (0x2000 <= n <= 0x200A) || n == 0x2028 || n == 0x2029 || n == 0x202F
    || n == 0x205F || n == 0x3000
  }

  predicate IsColon(c: char)
  {
    c == ':'
  }

  predicate StartsWith(s: string, prefix: string)
  {
    |prefix| <= |s| && s[..|prefix|] == prefix
  }

  predicate EndsWith(s: string, suffix: string)
  {
    |suffix| <= |s| && s[|s| - |suffix|..] == suffix
  }

  /** Drops the longest prefix whose characters all satisfy `p`. */
  function TrimStart(s: string, p: char -> bool): (r: string)
    ensures |r| <= |s|
    ensures r != [] ==> !p(r[0])
  {
    if s != [] && p(s[0]) then TrimStart(s[1..], p) else s
  }

  /** Drops the longest suffix whose characters all satisfy `p`. */
  function TrimEnd(s: string, p: char -> bool): (r: string)
    ensures |r| <= |s|
    ensures r != [] ==> !p(r[|r| - 1])
  {
    if s != [] && p(s[|s| - 1]) then TrimEnd(s[..|s| - 1], p) else s
  }

  /** TrimStart removes a prefix made only of characters satisfying `p`. */
  lemma {:induction false} TrimStartRemovesPrefix(s: string, p: char -> bool)
    ensures var r := TrimStart(s, p);
      r == s[|s| - |r|..] && forall i :: 0 <= i < |s| - |r| ==> p(s[i])
    decreases |s|
  {
    if s != [] && p(s[0]) {
      TrimStartRemovesPrefix(s[1..], p);
    }
  }

  /** TrimEnd removes a suffix made only of characters satisfying `p`. */
  lemma {:induction false} TrimEndRemovesSuffix(s: string, p: char -> bool)
    ensures var r := TrimEnd(s, p);
      r == s[..|r|] && forall i :: |r| <= i < |s| ==> p(s[i])
    decreases |s|
  {
    if s != [] && p(s[|s| - 1]) {
      TrimEndRemovesSuffix(s[..|s| - 1], p);
    }
  }

  /** `s.strip()`: whitespace removed at both ends. */
  function Strip(s: string): string
  {
    TrimEnd(TrimStart(s, IsSpace), IsSpace)
  }

  /** `s.strip(":")`: colons removed at both ends. */
  function StripColons(s: string): string
  {
    TrimEnd(TrimStart(s, IsColon), IsColon)
  }

  /** Appending a whitespace character does not change what `strip()` returns. */
  lemma {:induction false} StripIgnoresTrailingSpace(s: string, c: char)
    requires IsSpace(c)
    ensures Strip(s + [c]) == Strip(s)
    decreases |s|
  {
    if s == [] {
      assert TrimStart([c], IsSpace) == TrimStart([], IsSpace);
    } else if IsSpace(s[0]) {
      assert (s + [c])[1..] == s[1..] + [c];
      StripIgnoresTrailingSpace(s[1..], c);
    } else {
      assert TrimStart(s + [c], IsSpace) == s + [c];
      assert (s + [c])[..|s|] == s;
      assert TrimEnd(s + [c], IsSpace) == TrimEnd(s, IsSpace);
    }
  }

  /** `s` with every occurrence of the character `c` replaced by `rep`. */
  function ReplaceChar(s: string, c: char, rep: string): (r: string)
    ensures c !in rep ==> c !in r
    ensures forall x :: x in r ==> x in s || x in rep
  {
    if s == [] then [] else (if s[0] == c then rep else [s[0]]) + ReplaceChar(s[1..], c, rep)
  }

  lemma {:induction false} ReplaceCharAppend(a: string, b: string, c: char, rep: string)
    ensures ReplaceChar(a + b, c, rep) == ReplaceChar(a, c, rep) + ReplaceChar(b, c, rep)
    decreases |a|
  {
    if a != [] {
      assert (a + b)[1..] == a[1..] + b;
      ReplaceCharAppend(a[1..], b, c, rep);
    } else {
      assert a + b == b;
    }
  }

  /** The concatenation of a sequence of strings. */
  function Concat(ls: seq<string>): string
  {
    if ls == [] then [] else ls[0] + Concat(ls[1..])
  }

  /**
   * A non-empty piece of a text file holding no newline except as its last
   * character, which is a newline unless the piece is the file's last.
   */
  predicate IsLine(l: string, final: bool)
  {
    && l != []
    && (forall i :: 0 <= i < |l| - 1 ==> l[i] != '\n')
    && (!final ==> l[|l| - 1] == '\n')
  }

  /** One past the first newline of `s`, or `|s|` when `s` holds none. */
  function LineEnd(s: string): (n: nat)
    ensures n <= |s| && (s != [] ==> 0 < n)
    ensures forall i :: 0 <= i < n - 1 ==> s[i] != '\n'
    ensures 0 < n < |s| ==> s[n - 1] == '\n'
  {
    if s == [] then 0 else if s[0] == '\n' then 1 else 1 + LineEnd(s[1..])
  }

  /**
   * The lines `for line in f` yields for a text file with content `s`: each
   * line keeps its terminating newline, and a final unterminated piece is a
   * line of its own.
   */
  function Lines(s: string): seq<string>
    decreases |s|
  {
    if s == [] then []
    else
      var n := LineEnd(s);
      [s[..n]] + Lines(s[n..])
  }

  /** The lines put back together give the content, and each is a line. */
  lemma {:induction false} LinesPartition(s: string)
    ensures Concat(Lines(s)) == s
    ensures forall k :: 0 <= k < |Lines(s)| ==> IsLine(Lines(s)[k], k == |Lines(s)| - 1)
    decreases |s|
  {
    if s != [] {
      var n := LineEnd(s);
      var rest := Lines(s[n..]);
      LinesPartition(s[n..]);
      var ls := [s[..n]] + rest;
      assert ls == Lines(s);
      assert ls[1..] == rest;
      assert s == s[..n] + s[n..];
      assert IsLine(s[..n], rest == []);
      forall k | 0 <= k < |ls|
        ensures IsLine(ls[k], k == |ls| - 1)
      {
        if k > 0 {
          assert ls[k] == rest[k - 1];
        }
      }
    }
  }

  lemma {:induction false} LineEndOfTerminated(w: string, t: string)
    requires '\n' !in w
    ensures LineEnd(w + "\n" + t) == |w| + 1
    decreases |w|
  {
    if w != [] {
      assert (w + "\n" + t)[1..] == w[1..] + "\n" + t;
      LineEndOfTerminated(w[1..], t);
    }
  }

  lemma {:induction false} LineEndExtend(s: string, t: string)
    requires s != [] && s[|s| - 1] == '\n'
    ensures LineEnd(s + t) == LineEnd(s)
    decreases |s|
  {
    if s[0] != '\n' {
      assert (s + t)[1..] == s[1..] + t;
      LineEndExtend(s[1..], t);
    }
  }

  /**
   * Appending one newline-terminated line to a file that is empty or ends in
   * a newline adds exactly that line to what line iteration yields.
   */
  lemma {:induction false} LinesAppendLine(c: string, w: string)
    requires c == [] || c[|c| - 1] == '\n'
    requires '\n' !in w
    ensures Lines(c + w + "\n") == Lines(c) + [w + "\n"]
    decreases |c|
  {
    if c == [] {
      assert c + w + "\n" == w + "\n" + [];
      LineEndOfTerminated(w, []);
      assert (w + "\n")[|w| + 1..] == [];
    } else {
      var n := LineEnd(c);
      LineEndExtend(c, w + "\n");
      assert c + w + "\n" == c + (w + "\n");
      assert (c + w + "\n")[..n] == c[..n];
      assert (c + w + "\n")[n..] == c[n..] + w + "\n";
      LinesAppendLine(c[n..], w);
    }
  }

  /** Length of the leading run of non-whitespace characters. */
  function TokenEnd(s: string): (n: nat)
    ensures n <= |s|
    ensures forall i :: 0 <= i < n ==> !IsSpace(s[i])
    ensures n < |s| ==> IsSpace(s[n])
  {
    if s == [] || IsSpace(s[0]) then 0 else 1 + TokenEnd(s[1..])
  }

  /** A non-empty run of non-whitespace characters. */
  predicate IsWord(w: string)
  {
    w != [] && forall i :: 0 <= i < |w| ==> !IsSpace(w[i])
  }

  /** `s.split()`: the maximal runs of non-whitespace characters, in order. */
  function Tokens(s: string): (ts: seq<string>)
    ensures forall k :: 0 <= k < |ts| ==> IsWord(ts[k])
    decreases |s|
  {
    var t := TrimStart(s, IsSpace);
    if t == [] then []
    else
      var n := TokenEnd(t);
      var rest := Tokens(t[n..]);
      var ts := [t[..n]] + rest;
      assert ts[1..] == rest;
      assert IsWord(t[..n]);
      ts
  }

  /** The characters of `s` that are not whitespace, in order. */
  function NonSpace(s: string): string
  {
    if s == [] then [] else (if IsSpace(s[0]) then [] else [s[0]]) + NonSpace(s[1..])
  }

  lemma {:induction false} NonSpaceAppend(a: string, b: string)
    ensures NonSpace(a + b) == NonSpace(a) + NonSpace(b)
    decreases |a|
  {
    if a == [] {
      assert a + b == b;
    } else {
      assert (a + b)[1..] == a[1..] + b;
      NonSpaceAppend(a[1..], b);
    }
  }

  lemma NonSpaceSplit(t: string, n: nat)
    requires n <= |t|
    ensures NonSpace(t) == NonSpace(t[..n]) + NonSpace(t[n..])
  {
    assert t == t[..n] + t[n..];
    NonSpaceAppend(t[..n], t[n..]);
  }

  lemma {:induction false} NonSpaceOfWord(w: string)
    requires forall i :: 0 <= i < |w| ==> !IsSpace(w[i])
    ensures NonSpace(w) == w
    decreases |w|
  {
    if w != [] {
      NonSpaceOfWord(w[1..]);
    }
  }

  lemma {:induction false} NonSpaceOfTrimmed(s: string)
    ensures NonSpace(TrimStart(s, IsSpace)) == NonSpace(s)
    decreases |s|
  {
    if s != [] && IsSpace(s[0]) {
      NonSpaceOfTrimmed(s[1..]);
    }
  }

  lemma TokensUnfold(s: string)
    requires TrimStart(s, IsSpace) != []
    ensures var t := TrimStart(s, IsSpace); var n := TokenEnd(t);
      Concat(Tokens(s)) == t[..n] + Concat(Tokens(t[n..]))
  {
    var t := TrimStart(s, IsSpace);
    var n := TokenEnd(t);
    var rest := Tokens(t[n..]);
    assert Tokens(s) == [t[..n]] + rest;
    assert ([t[..n]] + rest)[1..] == rest;
  }

  lemma TokensKeepNonSpaceStep(s: string)
    requires TrimStart(s, IsSpace) != []
    requires var t := TrimStart(s, IsSpace); var n := TokenEnd(t);
      Concat(Tokens(t[n..])) == NonSpace(t[n..])
    ensures Concat(Tokens(s)) == NonSpace(s)
  {
    var t := TrimStart(s, IsSpace);
    var n := TokenEnd(t);
    calc {
      Concat(Tokens(s));
      { TokensUnfold(s); }
      t[..n] + Concat(Tokens(t[n..]));
      t[..n] + NonSpace(t[n..]);
      { NonSpaceOfWord(t[..n]); }
      NonSpace(t[..n]) + NonSpace(t[n..]);
      { NonSpaceSplit(t, n); }
      NonSpace(t);
      { NonSpaceOfTrimmed(s); }
      NonSpace(s);
    }
  }

  /** `split()` loses nothing but whitespace: its tokens spell out the non-whitespace characters. */
  lemma {:induction false} TokensKeepNonSpace(s: string)
    ensures Concat(Tokens(s)) == NonSpace(s)
    decreases |s|
  {
    var t := TrimStart(s, IsSpace);
    if t == [] {
      NonSpaceOfTrimmed(s);
    } else {
      TokensKeepNonSpace(t[TokenEnd(t)..]);
      TokensKeepNonSpaceStep(s);
    }
  }

  /** Whitespace in front of the text adds no token. */
  lemma TokensSkipSpace(c: char, s: string)
    requires IsSpace(c)
    ensures Tokens([c] + s) == Tokens(s)
  {
    assert ([c] + s)[1..] == s;
  }

  /** A run of non-whitespace characters on its own is a single token. */
  lemma TokensOfWord(w: string)
    requires IsWord(w)
    ensures Tokens(w) == [w]
  {
    assert TrimStart(w, IsSpace) == w;
    assert TokenEnd(w) == |w|;
    assert w[..|w|] == w && w[|w|..] == [];
  }

  /**
   * A token ends exactly at the next whitespace character: a run of
   * non-whitespace characters followed by whitespace is one whole token,
   * and the tokens after it are those of the rest.
   */
  lemma TokensTakeWord(w: string, c: char, rest: string)
    requires IsWord(w) && IsSpace(c)
    ensures Tokens(w + [c] + rest) == [w] + Tokens(rest)
  {
    var s := w + [c] + rest;
    assert s[0] == w[0];
    assert TrimStart(s, IsSpace) == s;
    assert forall i :: 0 <= i < |w| ==> s[i] == w[i];
    assert s[|w|] == c;
    assert TokenEnd(s) == |w|;
    assert s[..|w|] == w && s[|w|..] == [c] + rest;
    TokensSkipSpace(c, rest);
  }

  /** The parts concatenated with `sep` between consecutive parts. */
  function Join(ps: seq<string>, sep: string): string
  {
    if ps == [] then [] else if |ps| == 1 then ps[0] else ps[0] + sep + Join(ps[1..], sep)
  }

  /** Python's `needle in hay` on strings. */
  predicate IsSubstring(needle: string, hay: string)
  {
    exists i | 0 <= i <= |hay| - |needle| :: OccursAt(needle, hay, i)
  }

  predicate OccursAt(needle: string, hay: string, i: int)
  {
    0 <= i <= |hay| - |needle| && hay[i..i + |needle|] == needle
  }

  /** Python's `a <= b` on strings: by code point, a proper prefix first. */
  predicate StrLe(a: string, b: string)
  {
    a == [] || (b != [] && (a[0] < b[0] || (a[0] == b[0] && StrLe(a[1..], b[1..]))))
  }

  lemma {:induction false} StrLeTotal(a: string, b: string)
    ensures StrLe(a, b) || StrLe(b, a)
    decreases |a|
  {
    if a != [] && b != [] && a[0] == b[0] {
      StrLeTotal(a[1..], b[1..]);
    }
  }

  lemma {:induction false} StrLeTransitive(a: string, b: string, c: string)
    requires StrLe(a, b) && StrLe(b, c)
    ensures StrLe(a, c)
    decreases |a|
  {
    if a != [] && a[0] == b[0] && b[0] == c[0] {
      StrLeTransitive(a[1..], b[1..], c[1..]);
    }
  }

  lemma {:induction false} StrLeAntisymmetric(a: string, b: string)
    requires StrLe(a, b) && StrLe(b, a)
    ensures a == b
    decreases |a|
  {
    if a != [] {
      StrLeAntisymmetric(a[1..], b[1..]);
      assert a == [a[0]] + a[1..] && b == [b[0]] + b[1..];
    }
  }

  function DigitChar(d: nat): (c: char)
    requires d < 10
    ensures '0' <= c <= '9'
  {
    ('0' as int + d) as char
  }

  /** The decimal digits of a non-negative integer, without leading zeros. */
  function NatToString(n: nat): (r: string)
    ensures 1 <= |r| && (n >= 10 ==> 2 <= |r|)
    ensures forall i :: 0 <= i < |r| ==> '0' <= r[i] <= '9'
  {
    if n < 10 then [DigitChar(n)] else NatToString(n / 10) + [DigitChar(n % 10)]
  }

  /** Different numbers print differently. */
  lemma {:induction false} NatToStringInjective(a: nat, b: nat)
    requires NatToString(a) == NatToString(b)
    ensures a == b
    decreases a
  {
    if a >= 10 && b >= 10 {
      var sa, sb := NatToString(a), NatToString(b);
      assert sa[|sa| - 1] == DigitChar(a % 10) && sb[|sb| - 1] == DigitChar(b % 10);
      assert sa[..|sa| - 1] == NatToString(a / 10);
      assert sb[..|sb| - 1] == NatToString(b / 10);
      NatToStringInjective(a / 10, b / 10);
    }
  }
}
