/**
 * The fragment of Python's `str` behaviour that the modelled code relies on:
 * whitespace stripping and splitting, separator splitting with a limit,
 * joining, case folding, digit tests and the `int()` / `str()` conversions
 * between integers and decimal text. Only ASCII behaviour is modelled.
 */
module Strings {
  import opened Wrappers

  // ---------------------------------------------------------------------
  // Characters

  /** `c.isspace()` for the ASCII range: space, \t \n \v \f \r and \x1c..\x1f. */
  predicate IsSpace(c: char) {
    var n := c as int;
    n == 32 || 9 <= n <= 13 || 28 <= n <= 31
  }

  predicate IsDigit(c: char) { '0' <= c <= '9' }

  predicate IsUpper(c: char) { 'A' <= c <= 'Z' }

  predicate IsAlnumChar(c: char) { IsDigit(c) || IsUpper(c) || 'a' <= c <= 'z' }

  function LowerChar(c: char): (r: char)
    ensures !IsUpper(r)
    ensures IsUpper(c) || r == c
  {
    if IsUpper(c) then (c as int + 32) as char else c
  }

  // ---------------------------------------------------------------------
  // Prefixes, suffixes, substrings

  predicate StartsWith(s: string, p: string) { |p| <= |s| && s[..|p|] == p }

  predicate EndsWith(s: string, p: string) { |p| <= |s| && s[|s| - |p|..] == p }

  /** `p in s` for strings: `p` occurs somewhere in `s`. */
  predicate IsSubstring(p: string, s: string)
    decreases |s|
  {
    StartsWith(s, p) || (|s| > 0 && IsSubstring(p, s[1..]))
  }

  lemma {:induction false} SubstringWitness(p: string, s: string, i: nat)
    requires i + |p| <= |s| && s[i..i + |p|] == p
    ensures IsSubstring(p, s)
    decreases i
  {
    if i > 0 {
      assert s[1..][i - 1..i - 1 + |p|] == s[i..i + |p|];
      SubstringWitness(p, s[1..], i - 1);
    }
  }

  lemma {:induction false} SubstringShorter(p: string, s: string)
    requires IsSubstring(p, s)
    ensures |p| <= |s|
    decreases |s|
  {
    if !StartsWith(s, p) {
      SubstringShorter(p, s[1..]);
    }
  }

  // ---------------------------------------------------------------------
  // Case folding

  /** `s.lower()`, ASCII letters only. */
  function Lower(s: string): (r: string)
    ensures |r| == |s|
    ensures forall i :: 0 <= i < |s| ==> r[i] == LowerChar(s[i])
  {
    seq(|s|, i requires 0 <= i < |s| => LowerChar(s[i]))
  }

  predicate IsLower(s: string) { forall i :: 0 <= i < |s| ==> !IsUpper(s[i]) }

  lemma LowerIsLower(s: string)
    ensures IsLower(Lower(s))
  {
  }

  lemma LowerOfLower(s: string)
    requires IsLower(s)
    ensures Lower(s) == s
  {
  }

  // ---------------------------------------------------------------------
  // Stripping

  /** `s.lstrip()` */
  function StripLeft(s: string): (r: string)
    ensures |r| <= |s| && r == s[|s| - |r|..]
    ensures r == [] || !IsSpace(r[0])
    ensures forall i :: 0 <= i < |s| - |r| ==> IsSpace(s[i])
  {
    if s != [] && IsSpace(s[0]) then StripLeft(s[1..]) else s
  }

  /** `s.rstrip()` */
  function StripRight(s: string): (r: string)
    ensures |r| <= |s| && r == s[..|r|]
    ensures r == [] || !IsSpace(r[|r| - 1])
    ensures forall i :: |r| <= i < |s| ==> IsSpace(s[i])
  {
    if s != [] && IsSpace(s[|s| - 1]) then StripRight(s[..|s| - 1]) else s
  }

  /** `s.strip()` */
  function Strip(s: string): (r: string)
  {
    StripRight(StripLeft(s))
  }

  /** Text with no whitespace at either end: what `strip()` returns. */
  predicate IsStripped(s: string) { s == [] || (!IsSpace(s[0]) && !IsSpace(s[|s| - 1])) }

  lemma StripIsStripped(s: string)
    ensures IsStripped(Strip(s))
  {
    var l := StripLeft(s);
    var r := StripRight(l);
    if r != [] {
      assert r[0] == l[0];
    }
  }

  lemma StripOfStripped(s: string)
    requires IsStripped(s)
    ensures Strip(s) == s
  {
  }

  /** Text made only of whitespace strips to nothing, and only such text does. */
  lemma StripEmpty(s: string)
    ensures Strip(s) == [] <==> forall i :: 0 <= i < |s| ==> IsSpace(s[i])
  {
  }

  /** `c.rstrip(x)` for a single character `x`. */
  function RStripChar(s: string, x: char): (r: string)
    ensures |r| <= |s| && r == s[..|r|]
    ensures r == [] || r[|r| - 1] != x
  {
    if s != [] && s[|s| - 1] == x then RStripChar(s[..|s| - 1], x) else s
  }

  // ---------------------------------------------------------------------
  // Searching for one character

  function IndexOf(s: string, c: char): (i: nat)
    requires c in s
    ensures i < |s| && s[i] == c && c !in s[..i]
  {
    if s[0] == c then 0 else 1 + IndexOf(s[1..], c)
  }

  /** The first occurrence is the only position holding `c` with no `c` before it. */
  lemma {:induction false} IndexOfAt(s: string, c: char, i: nat)
    requires i < |s| && s[i] == c && c !in s[..i]
    ensures IndexOf(s, c) == i
  {
    if i > 0 {
      assert s[0] in s[..i];
      assert s[1..][..i - 1] == s[..i][1..];
      IndexOfAt(s[1..], c, i - 1);
    }
  }

  function LastIndexOf(s: string, c: char): (i: nat)
    requires c in s
    ensures i < |s| && s[i] == c && c !in s[i + 1..]
  {
    if s[|s| - 1] == c then |s| - 1 else LastIndexOf(s[..|s| - 1], c)
  }

  /** The last occurrence is the only position holding `c` with no `c` after it. */
  lemma {:induction false} LastIndexOfAt(s: string, c: char, i: nat)
    requires i < |s| && s[i] == c && c !in s[i + 1..]
    ensures LastIndexOf(s, c) == i
  {
    if i < |s| - 1 {
      assert s[|s| - 1] in s[i + 1..];
      var t := s[..|s| - 1];
      assert t[i + 1..] == s[i + 1..|s| - 1];
      LastIndexOfAt(t, c, i);
    }
  }

  function Count(s: string, c: char): nat
  {
    if s == [] then 0 else (if s[0] == c then 1 else 0) + Count(s[1..], c)
  }

  lemma {:induction false} CountSplitsAt(s: string, c: char, i: nat)
    requires i < |s|
    ensures Count(s, c) == Count(s[..i], c) + (if s[i] == c then 1 else 0) + Count(s[i + 1..], c)
    decreases i
  {
    if i > 0 {
      CountSplitsAt(s[1..], c, i - 1);
      assert s[1..][..i - 1] == s[..i][1..];
      assert s[1..][i - 1 + 1..] == s[i + 1..];
    }
  }

  lemma {:induction false} CountAbsent(s: string, c: char)
    requires c !in s
    ensures Count(s, c) == 0
  {
    if s != [] {
      CountAbsent(s[1..], c);
    }
  }

  // ---------------------------------------------------------------------
  // Splitting at a separator character and joining

  /** `sep.join(parts)` */
  function Join(sep: string, parts: seq<string>): string
  {
    if |parts| == 0 then ""
    else if |parts| == 1 then parts[0]
    else parts[0] + sep + Join(sep, parts[1..])
  }

  /** `s.split(sep, n)` for a limit `n >= 0`: at most `n` cuts, the first ones. */
  function SplitN(s: string, sep: char, n: nat): (parts: seq<string>)
    ensures 1 <= |parts| <= n + 1
    ensures forall k :: 0 <= k < |parts| - 1 ==> sep !in parts[k]
    decreases n
  {
    if n == 0 || sep !in s then [s]
    else
      var i := IndexOf(s, sep);
      [s[..i]] + SplitN(s[i + 1..], sep, n - 1)
  }

  /** `s.split(sep)` with no limit: a cut at every separator. */
  function SplitAll(s: string, sep: char): (parts: seq<string>)
    ensures |parts| >= 1
    ensures forall k :: 0 <= k < |parts| ==> sep !in parts[k]
    decreases |s|
  {
    if sep !in s then [s]
    else
      var i := IndexOf(s, sep);
      [s[..i]] + SplitAll(s[i + 1..], sep)
  }

  /** `s.split(sep, maxsplit)`: Python treats a negative limit as no limit. */
  function Split(s: string, sep: char, maxsplit: int): seq<string>
  {
    if maxsplit < 0 then SplitAll(s, sep) else SplitN(s, sep, maxsplit)
  }

  /** Joining a piece in front of at least one more piece puts the separator between. */
  lemma JoinCons(sep: string, a: string, rest: seq<string>)
    requires |rest| >= 1
    ensures Join(sep, [a] + rest) == a + sep + Join(sep, rest)
  {
    assert ([a] + rest)[1..] == rest;
  }

  /** Text is the part before a position, the character there and the part after. */
  lemma AroundIndex(s: string, i: nat)
    requires i < |s|
    ensures s == s[..i] + [s[i]] + s[i + 1..]
  {
  }

  /** One step of splitting and joining: the piece before a separator, then the rest joined back. */
  lemma JoinSplitStep(s: string, sep: char, i: nat, rest: seq<string>)
    requires i < |s| && s[i] == sep
    requires |rest| >= 1 && Join([sep], rest) == s[i + 1..]
    ensures Join([sep], [s[..i]] + rest) == s
  {
    JoinCons([sep], s[..i], rest);
    AroundIndex(s, i);
  }

  /** Joining the pieces of a limited split with the separator gives the text back. */
  lemma {:induction false} JoinSplitN(s: string, sep: char, n: nat)
    ensures Join([sep], SplitN(s, sep, n)) == s
    decreases n
  {
    if n > 0 && sep in s {
      var i := IndexOf(s, sep);
      JoinSplitN(s[i + 1..], sep, n - 1);
      JoinSplitStep(s, sep, i, SplitN(s[i + 1..], sep, n - 1));
    }
  }

  lemma {:induction false} JoinSplitAll(s: string, sep: char)
    ensures Join([sep], SplitAll(s, sep)) == s
    decreases |s|
  {
    if sep in s {
      var i := IndexOf(s, sep);
      JoinSplitAll(s[i + 1..], sep);
      JoinSplitStep(s, sep, i, SplitAll(s[i + 1..], sep));
    }
  }

  /** The first piece of any split is the text before the first separator. */
  lemma SplitNHead(s: string, sep: char, n: nat)
    requires n > 0 && sep in s
    ensures SplitN(s, sep, n)[0] == s[..IndexOf(s, sep)]
    ensures |SplitN(s, sep, n)| >= 2
  {
  }

  // ---------------------------------------------------------------------
  // Whitespace word splitting

  /** Length of the leading run of non-whitespace characters. */
  function WordLength(s: string): (k: nat)
    ensures k <= |s|
    ensures forall i :: 0 <= i < k ==> !IsSpace(s[i])
    ensures k == |s| || IsSpace(s[k])
  {
    if s == [] || IsSpace(s[0]) then 0 else 1 + WordLength(s[1..])
  }

  predicate IsWord(w: string) { w != [] && forall i :: 0 <= i < |w| ==> !IsSpace(w[i]) }

  /** The run of non-whitespace at the front of text that does not start with whitespace is a word. */
  lemma LeadingWord(t: string)
    requires t != [] && !IsSpace(t[0])
    ensures 1 <= WordLength(t) && IsWord(t[..WordLength(t)])
  {
  }

  /** A word in front of words gives words. */
  lemma ConsWords(w: string, rest: seq<string>)
    requires IsWord(w) && forall j :: 0 <= j < |rest| ==> IsWord(rest[j])
    ensures forall j :: 0 <= j < |[w] + rest| ==> IsWord(([w] + rest)[j])
  {
    forall j | 0 <= j < |[w] + rest| ensures IsWord(([w] + rest)[j]) {
      if j > 0 {
        assert ([w] + rest)[j] == rest[j - 1];
      }
    }
  }

  /** `s.split()` with no argument: the maximal runs of non-whitespace text. */
  function SplitWords(s: string): (words: seq<string>)
    ensures forall k :: 0 <= k < |words| ==> IsWord(words[k])
    decreases |s|
  {
    var t := StripLeft(s);
    if t == [] then []
    else
      var k := WordLength(t);
      LeadingWord(t);
      var rest := SplitWords(t[k..]);
      ConsWords(t[..k], rest);
      [t[..k]] + rest
  }

  /** Joining words with single spaces and splitting again gives the words back. */
  lemma {:induction false} SplitJoinedWords(words: seq<string>)
    requires forall k :: 0 <= k < |words| ==> IsWord(words[k])
    ensures SplitWords(Join(" ", words)) == words
    decreases |words|
  {
    if |words| == 1 {
      SplitSingleWord(words[0]);
    } else if |words| > 1 {
      SplitJoinedWords(words[1..]);
      SplitJoinedStep(words);
    }
  }

  lemma SplitSingleWord(w: string)
    requires IsWord(w)
    ensures SplitWords(w) == [w]
  {
    SplitOneWord(w, "");
    assert w + "" == w;
  }

  lemma {:induction false} SplitJoinedStep(words: seq<string>)
    requires forall k :: 0 <= k < |words| ==> IsWord(words[k])
    requires |words| > 1
    requires SplitWords(Join(" ", words[1..])) == words[1..]
    ensures SplitWords(Join(" ", words)) == words
  {
    var tail := words[1..];
    JoinHead(words);
    SplitWordThenSpace(words[0], Join(" ", tail));
    assert words == [words[0]] + tail;
  }

  lemma JoinHead(words: seq<string>)
    requires |words| > 1
    ensures Join(" ", words) == words[0] + (" " + Join(" ", words[1..]))
  {
  }

  lemma SplitWordThenSpace(w: string, rest: string)
    requires IsWord(w)
    ensures SplitWords(w + (" " + rest)) == [w] + SplitWords(rest)
  {
    SplitOneWord(w, " " + rest);
    SplitAfterSpace(rest);
  }

  /** A word followed by nothing or by whitespace is split off as the first word. */
  lemma SplitOneWord(w: string, tail: string)
    requires IsWord(w)
    requires tail == [] || IsSpace(tail[0])
    ensures SplitWords(w + tail) == [w] + SplitWords(tail)
  {
    var s := w + tail;
    assert StripLeft(s) == s;
    WordLengthOfWord(w, tail);
    assert s[..|w|] == w;
    assert s[|w|..] == tail;
    if tail == [] {
      assert SplitWords(tail) == [];
    }
  }

  lemma SplitAfterSpace(rest: string)
    ensures SplitWords(" " + rest) == SplitWords(rest)
  {
    assert (" " + rest)[1..] == rest;
    assert StripLeft(" " + rest) == StripLeft(rest);
  }

  lemma {:induction false} WordLengthOfWord(w: string, tail: string)
    requires IsWord(w)
    requires tail == [] || IsSpace(tail[0])
    ensures WordLength(w + tail) == |w|
    decreases |w|
  {
    if |w| > 1 {
      assert (w + tail)[1..] == w[1..] + tail;
      WordLengthOfWord(w[1..], tail);
    } else {
      assert (w + tail)[1..] == tail;
    }
  }

  // ---------------------------------------------------------------------
  // Character replacement and removal

  /** `s.replace(a, b)` for single characters. */
  function ReplaceChar(s: string, a: char, b: char): (r: string)
    ensures |r| == |s|
    ensures forall i :: 0 <= i < |s| ==> r[i] == (if s[i] == a then b else s[i])
  {
    seq(|s|, i requires 0 <= i < |s| => if s[i] == a then b else s[i])
  }

  /** `s.replace(c, '')` */
  function RemoveChar(s: string, c: char): (r: string)
    ensures c !in r
    ensures forall x :: x in r ==> x in s
  {
    if s == [] then [] else (if s[0] == c then [] else [s[0]]) + RemoveChar(s[1..], c)
  }

  // ---------------------------------------------------------------------
  // Digits, `isdigit()`, `isalnum()`, `str(n)` and `int(text)`

  /** `s.isdigit()` for ASCII digits: non-empty and only digits. */
  predicate IsDigits(s: string) { |s| > 0 && forall i :: 0 <= i < |s| ==> IsDigit(s[i]) }

  /** `s.isalnum()` for ASCII letters and digits: non-empty and only those. */
  predicate IsAlnum(s: string) { |s| > 0 && forall i :: 0 <= i < |s| ==> IsAlnumChar(s[i]) }

  function DigitValue(c: char): nat
    requires IsDigit(c)
  {
    c as int - '0' as int
  }

  function DigitChar(d: nat): (c: char)
    requires d < 10
    ensures IsDigit(c) && DigitValue(c) == d
  {
    ('0' as int + d) as char
  }

  /** The number written by a string of decimal digits. */
  function DigitsValue(s: string): nat
    requires forall i :: 0 <= i < |s| ==> IsDigit(s[i])
  {
    if s == [] then 0 else 10 * DigitsValue(s[..|s| - 1]) + DigitValue(s[|s| - 1])
  }

  /** `str(n)` for a natural number. */
  function NatStr(n: nat): (s: string)
    ensures IsDigits(s)
  {
    if n < 10 then [DigitChar(n)] else NatStr(n / 10) + [DigitChar(n % 10)]
  }

  /** `str(n)` */
  function IntStr(n: int): string
  {
    if n < 0 then "-" + NatStr(-n) else NatStr(n)
  }

  /** `int(s)` on text: surrounding whitespace, one optional sign, then decimal digits. */
  function ParseInt(s: string): Option<int>
  {
    var t := Strip(s);
    if |t| > 0 && (t[0] == '-' || t[0] == '+') then
      if IsDigits(t[1..]) then
        var v: int := DigitsValue(t[1..]);
        Some(if t[0] == '-' then -v else v)
      else None
    else if IsDigits(t) then Some(DigitsValue(t))
    else None
  }

  lemma {:induction false} DigitsOfNatStr(n: nat)
    ensures DigitsValue(NatStr(n)) == n
  {
    if n >= 10 {
      DigitsOfNatStr(n / 10);
      var s := NatStr(n);
      assert s[..|s| - 1] == NatStr(n / 10);
    }
  }

  /** `int(str(n)) == n`: reading back the decimal text of a number gives the number. */
  lemma {:induction false} ParseIntStr(n: int)
    ensures ParseInt(IntStr(n)) == Some(n)
  {
    var s := IntStr(n);
    var d := NatStr(if n < 0 then -n else n);
    DigitsOfNatStr(if n < 0 then -n else n);
    assert IsStripped(s);
    StripOfStripped(s);
    if n < 0 {
      assert s[1..] == d;
    } else {
      assert s[0] != '-' && s[0] != '+';
    }
  }

  /** Different numbers have different decimal text. */
  lemma IntStrInjective(a: int, b: int)
    requires IntStr(a) == IntStr(b)
    ensures a == b
  {
    ParseIntStr(a);
    ParseIntStr(b);
  }
}
