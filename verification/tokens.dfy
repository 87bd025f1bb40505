/**
  The string primitives handle_commands relies on, with Python 2 `str`
  semantics: `split()` without arguments, `lower()`, `isdigit()` and `int()`
  of a digit string. All of them work on ASCII only, as Python 2 does for
  byte strings in the default C locale.
*/
module Tokens {

  /** Python 2's `isspace` for a byte: space, tab, newline, vertical tab, form feed, carriage return. */
  predicate IsSpace(c: char) {
    c == ' ' || '\t' <= c <= '\r'
  }

  /** A token as `split()` produces it: not empty and without whitespace. */
  predicate IsToken(w: string) {
    w != [] && forall i :: 0 <= i < |w| ==> !IsSpace(w[i])
  }

  /** The characters of `s` that are not whitespace, in order. */
  function NonSpace(s: string): string {
    if s == [] then []
    else (if IsSpace(s[0]) then [] else [s[0]]) + NonSpace(s[1..])
  }

  /** The tokens glued back together without separators. */
  function Concat(words: seq<string>): string {
    if words == [] then [] else words[0] + Concat(words[1..])
  }

  /** Length of the run of non-whitespace characters that starts `s`. */
  function WordLength(s: string): (n: nat)
    requires s != [] && !IsSpace(s[0])
    ensures 0 < n <= |s|
    ensures forall i :: 0 <= i < n ==> !IsSpace(s[i])
    ensures n == |s| || IsSpace(s[n])
  {
    if |s| == 1 || IsSpace(s[1]) then 1 else 1 + WordLength(s[1..])
  }

  /**
    `s.split()`: the maximal runs of non-whitespace characters, in order.
    Every token is non-empty and whitespace-free, and together the tokens
    hold exactly the non-whitespace characters of `s`.
  */
  function Split(s: string): (words: seq<string>)
    ensures forall k :: 0 <= k < |words| ==> IsToken(words[k])
    ensures Concat(words) == NonSpace(s)
    decreases |s|
  {
    if s == [] then []
    else if IsSpace(s[0]) then Split(s[1..])
    else
      var n := WordLength(s);
      SplitWord(s, n);
      [s[..n]] + Split(s[n..])
  }

  /** The first word of `s` contributes itself to NonSpace(s). */
  lemma {:induction false} SplitWord(s: string, n: nat)
    requires 0 < n <= |s|
    requires forall i :: 0 <= i < n ==> !IsSpace(s[i])
    ensures NonSpace(s) == s[..n] + NonSpace(s[n..])
  {
    if n == 1 {
      assert s[..1] == [s[0]];
      assert s[1..] == s[n..];
    } else {
      SplitWord(s[1..], n - 1);
      assert s[1..][n - 1..] == s[n..];
      assert [s[0]] + s[1..][..n - 1] == s[..n];
    }
  }

  /** The whole string is whitespace. */
  predicate IsBlank(s: string) {
    forall i :: 0 <= i < |s| ==> IsSpace(s[i])
  }

  lemma {:induction false} NonSpaceEmpty(s: string)
    ensures NonSpace(s) == [] <==> IsBlank(s)
  {
    if s != [] {
      NonSpaceEmpty(s[1..]);
      if !IsSpace(s[0]) {
        assert NonSpace(s)[0] == s[0];
      } else {
        assert forall i :: 1 <= i < |s| ==> s[i] == s[1..][i - 1];
      }
    }
  }

  /** `split()` returns no token exactly when the command is empty or only whitespace. */
  lemma SplitEmpty(s: string)
    ensures Split(s) == [] <==> IsBlank(s)
  {
    NonSpaceEmpty(s);
    var words := Split(s);
    if words != [] {
      assert IsToken(words[0]);
      assert Concat(words) == words[0] + Concat(words[1..]);
    }
  }

  /** Words joined with one space between them and none at either end. */
  function Join(words: seq<string>): string {
    if words == [] then []
    else if |words| == 1 then words[0]
    else words[0] + " " + Join(words[1..])
  }

  /** Splitting joined tokens gives the tokens back. */
  lemma {:induction false} SplitJoin(words: seq<string>)
    requires forall k :: 0 <= k < |words| ==> IsToken(words[k])
    ensures Split(Join(words)) == words
  {
    if words != [] {
      var w := words[0];
      if |words| == 1 {
        SplitWordExact(w, []);
        assert w + [] == w;
      } else {
        var rest := " " + Join(words[1..]);
        assert Join(words) == w + rest;
        SplitWordExact(w, rest);
        assert rest[0] == ' ';
        assert Split(rest) == Split(rest[1..]);
        assert rest[1..] == Join(words[1..]);
        SplitJoin(words[1..]);
      }
    }
  }

  /** A token followed by nothing or by whitespace is split off as one word. */
  lemma {:induction false} SplitWordExact(w: string, rest: string)
    requires IsToken(w)
    requires rest == [] || IsSpace(rest[0])
    ensures Split(w + rest) == [w] + Split(rest)
  {
    var s := w + rest;
    WordLengthExact(w, rest);
    assert s[..|w|] == w;
    assert s[|w|..] == rest;
  }

  lemma {:induction false} WordLengthExact(w: string, rest: string)
    requires IsToken(w)
    requires rest == [] || IsSpace(rest[0])
    ensures WordLength(w + rest) == |w|
  {
    if |w| > 1 {
      assert (w + rest)[1..] == w[1..] + rest;
      WordLengthExact(w[1..], rest);
    }
  }

  /**
    Words with runs of whitespace around and between them:
    seps[0] + words[0] + seps[1] + ... + words[n - 1] + seps[n].
  */
  function Spaced(seps: seq<string>, words: seq<string>): string
    requires |seps| == |words| + 1
  {
    if words == [] then seps[0] else seps[0] + words[0] + Spaced(seps[1..], words[1..])
  }

  /** Leading whitespace does not change what `split()` returns. */
  lemma {:induction false} SplitSkipSpace(sep: string, rest: string)
    requires IsBlank(sep)
    ensures Split(sep + rest) == Split(rest)
  {
    if sep != [] {
      assert (sep + rest)[1..] == sep[1..] + rest;
      assert IsBlank(sep[1..]) by {
        forall i | 0 <= i < |sep[1..]| ensures IsSpace(sep[1..][i]) {
          assert sep[1..][i] == sep[i + 1];
        }
      }
      SplitSkipSpace(sep[1..], rest);
    } else {
      assert sep + rest == rest;
    }
  }

  /**
    `split()` returns exactly the words of any text made of words separated
    by non-empty runs of whitespace, with optional whitespace at either end.
  */
  lemma {:induction false} SplitSpaced(seps: seq<string>, words: seq<string>)
    requires |seps| == |words| + 1
    requires forall k :: 0 <= k < |words| ==> IsToken(words[k])
    requires forall k :: 0 <= k < |seps| ==> IsBlank(seps[k])
    requires forall k :: 0 < k < |words| ==> seps[k] != []
    ensures Split(Spaced(seps, words)) == words
  {
    if words == [] {
      SplitSkipSpace(seps[0], []);
      assert seps[0] + [] == seps[0];
    } else {
      var seps', words' := seps[1..], words[1..];
      var rest := Spaced(seps', words');
      assert Spaced(seps, words) == seps[0] + (words[0] + rest);
      SplitSkipSpace(seps[0], words[0] + rest);
      assert forall k :: 0 <= k < |seps'| ==> seps'[k] == seps[k + 1];
      assert forall k :: 0 <= k < |words'| ==> words'[k] == words[k + 1];
      SpacedStartsBlank(seps', words');
      SplitWordExact(words[0], rest);
      SplitSpaced(seps', words');
    }
  }

  /** Text whose first whitespace run is not empty, or that holds no word, starts with whitespace if with anything. */
  lemma SpacedStartsBlank(seps: seq<string>, words: seq<string>)
    requires |seps| == |words| + 1
    requires forall k :: 0 <= k < |seps| ==> IsBlank(seps[k])
    requires words != [] ==> seps[0] != []
    ensures Spaced(seps, words) == [] || IsSpace(Spaced(seps, words)[0])
  {
    if words != [] {
      var first := seps[0];
      assert IsBlank(first);
      assert IsSpace(first[0]);
      assert Spaced(seps, words) == first + (words[0] + Spaced(seps[1..], words[1..]));
    } else {
      assert IsBlank(seps[0]);
    }
  }

  /**
    The whitespace runs `split()` discards: one more than there are words,
    every one blank, and the ones between two words not empty.
  */
  function SepsOf(s: string): (seps: seq<string>)
    ensures |seps| == |Split(s)| + 1
    ensures forall k :: 0 <= k < |seps| ==> IsBlank(seps[k])
    ensures forall k :: 0 < k < |Split(s)| ==> seps[k] != []
    ensures s != [] && IsSpace(s[0]) ==> seps[0] != []
    decreases |s|
  {
    if s == [] then [[]]
    else if IsSpace(s[0]) then
      var r := SepsOf(s[1..]);
      [[s[0]] + r[0]] + r[1..]
    else
      var n := WordLength(s);
      var r := SepsOf(s[n..]);
      [[]] + r
  }

  /**
    Every string is its `split()` words put back between the runs of
    whitespace that were dropped; with SplitSpaced this fixes `split()` on
    every input: its words are the maximal runs of non-whitespace.
  */
  lemma {:induction false} SpacedSepsOf(s: string)
    ensures Spaced(SepsOf(s), Split(s)) == s
    decreases |s|
  {
    if s != [] {
      if IsSpace(s[0]) {
        SpacedSepsOf(s[1..]);
        SpacedSepsOfSpace(s);
      } else {
        SpacedSepsOf(s[WordLength(s)..]);
        SpacedSepsOfWord(s);
      }
    }
  }

  /** SpacedSepsOf for a string that starts with whitespace, given it for the rest. */
  lemma SpacedSepsOfSpace(s: string)
    requires s != [] && IsSpace(s[0])
    requires Spaced(SepsOf(s[1..]), Split(s[1..])) == s[1..]
    ensures Spaced(SepsOf(s), Split(s)) == s
  {
    var r := SepsOf(s[1..]);
    assert Split(s) == Split(s[1..]);
    assert SepsOf(s) == [[s[0]] + r[0]] + r[1..];
    SpacedExtend(r, Split(s[1..]), [s[0]]);
    assert s == [s[0]] + s[1..];
  }

  /** SpacedSepsOf for a string that starts with a word, given it for what follows the word. */
  lemma SpacedSepsOfWord(s: string)
    requires s != [] && !IsSpace(s[0])
    requires Spaced(SepsOf(s[WordLength(s)..]), Split(s[WordLength(s)..])) == s[WordLength(s)..]
    ensures Spaced(SepsOf(s), Split(s)) == s
  {
    var n := WordLength(s);
    SplitFirstWord(s);
    SpacedPrependWord(s, n, SepsOf(s[n..]), Split(s[n..]));
  }

  /** The first n characters put back in front of spaced text that is the rest of `s`. */
  lemma SpacedPrependWord(s: string, n: nat, seps: seq<string>, words: seq<string>)
    requires n <= |s| && |seps| == |words| + 1 && Spaced(seps, words) == s[n..]
    ensures Spaced([[]] + seps, [s[..n]] + words) == s
  {
    SpacedCons([], s[..n], seps, words);
    assert [] + s[..n] == s[..n];
    assert s[..n] + s[n..] == s;
  }

  /** A string that starts with a word: split() returns that word first, with no whitespace run before it. */
  lemma SplitFirstWord(s: string)
    requires s != [] && !IsSpace(s[0])
    ensures Split(s) == [s[..WordLength(s)]] + Split(s[WordLength(s)..])
    ensures SepsOf(s) == [[]] + SepsOf(s[WordLength(s)..])
  {
  }

  /** Spaced, unfolded once. */
  lemma SpacedCons(sep: string, word: string, seps: seq<string>, words: seq<string>)
    requires |seps| == |words| + 1
    ensures Spaced([sep] + seps, [word] + words) == sep + word + Spaced(seps, words)
  {
    assert ([sep] + seps)[1..] == seps && ([word] + words)[1..] == words;
  }

  /** Text put in front of the first whitespace run goes in front of the whole. */
  lemma SpacedExtend(seps: seq<string>, words: seq<string>, pre: string)
    requires |seps| == |words| + 1
    ensures Spaced([pre + seps[0]] + seps[1..], words) == pre + Spaced(seps, words)
  {
    var ext := [pre + seps[0]] + seps[1..];
    assert ext[1..] == seps[1..];
    if words != [] {
      assert Spaced(ext, words) == (pre + seps[0]) + words[0] + Spaced(seps[1..], words[1..]);
    }
  }

  /** Python 2 `lower()` of one byte: only A to Z change. */
  function LowerChar(c: char): char {
    if 'A' <= c <= 'Z' then (c as int + 32) as char else c
  }

  /** Python 2 `lower()`. */
  function Lower(s: string): (r: string)
    ensures |r| == |s|
    ensures forall i :: 0 <= i < |s| ==> r[i] == LowerChar(s[i])
  {
    seq(|s|, i requires 0 <= i < |s| => LowerChar(s[i]))
  }

  predicate IsDigit(c: char) {
    '0' <= c <= '9'
  }

  /**
    Python 2 `isdigit()`: at least one character, and all of them ASCII
    digits. Such a string is a single token and holds neither ':' nor '-'.
  */
  predicate IsDigits(s: string)
    ensures IsDigits(s) ==> IsToken(s) && ':' !in s && '-' !in s
  {
    s != [] && forall i :: 0 <= i < |s| ==> IsDigit(s[i])
  }

  /** Python `int()` of a digit string: its decimal value; a leading zero does not change it. */
  function DigitsValue(s: string): (v: nat)
    requires forall i :: 0 <= i < |s| ==> IsDigit(s[i])
    ensures s != [] && s[0] == '0' ==> v == DigitsValue(s[1..])
  {
    if s == [] then 0
    else
      var init := s[..|s| - 1];
      assert |s| >= 2 ==> init[1..] == s[1..][..|s| - 2];
      10 * DigitsValue(init) + DigitValue(s[|s| - 1])
  }

  function DigitValue(c: char): nat
    requires IsDigit(c)
  {
    c as int - '0' as int
  }

  /** The ASCII digit for 0 to 9. */
  function DigitChar(d: nat): (c: char)
    requires d < 10
    ensures IsDigit(c) && DigitValue(c) == d
  {
    ('0' as int + d) as char
  }

  /** Two-digit decimal text of a number below 100, with a leading zero. */
  function TwoDigits(n: nat): (s: string)
    requires n < 100
    ensures |s| == 2 && IsDigits(s) && DigitsValue(s) == n
  {
    var s := [DigitChar(n / 10), DigitChar(n % 10)];
    assert s[..1] == [DigitChar(n / 10)];
    assert s[..1][..0] == [];
    assert DigitsValue(s[..1]) == n / 10;
    s
  }
}
