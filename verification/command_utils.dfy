// The two argument splitters shared by the admin commands: `parse_equals`
// cuts "left = right" at the first '=', `parse_comma` cuts a list into a
// fixed number of comma-separated parts. Both strip the parts they return.

module CommandUtils {
  import opened Wrappers
  import opened Strings

  /** Every part stripped, in order. */
  function StripAll(parts: seq<string>): (r: seq<string>)
    ensures |r| == |parts|
    ensures forall k :: 0 <= k < |r| ==> r[k] == Strip(parts[k])
  {
    seq(|parts|, k requires 0 <= k < |parts| => Strip(parts[k]))
  }

  /**
   * `parse_equals`: no '=' gives nothing (the source's `(None, None)`);
   * otherwise the stripped text before the first '=' and the stripped
   * text after it.
   */
  function ParseEquals(args: string): (r: Option<(string, string)>)
    ensures r.None? <==> '=' !in args
    ensures r.Some? ==> '=' !in r.value.0 && r.value.0 == Strip(args[..IndexOf(args, '=')])
    ensures r.Some? ==> r.value.1 == Strip(args[IndexOf(args, '=') + 1..])
  {
    if '=' !in args then None
    else
      var parts := StripAll(Split(args, '=', 1));
      SplitNHead(args, '=', 1);
      EqualsSplitTail(args);
      Some((parts[0], parts[1]))
  }

  lemma EqualsSplitTail(args: string)
    requires '=' in args
    ensures |Split(args, '=', 1)| == 2
    ensures Split(args, '=', 1)[1] == args[IndexOf(args, '=') + 1..]
  {
    var i := IndexOf(args, '=');
    assert SplitN(args[i + 1..], '=', 0) == [args[i + 1..]];
  }

  /** Only the first '=' cuts: the right part keeps any further '='. */
  lemma {:induction false} ParseEqualsAt(left: string, right: string)
    requires '=' !in left
    ensures ParseEquals(left + "=" + right) == Some((Strip(left), Strip(right)))
  {
    var s := left + "=" + right;
    assert s[|left|] == '=';
    assert s[..|left|] == left;
    IndexOfAt(s, '=', |left|);
    assert s[|left| + 1..] == right;
  }

  /** The number of parts a limited split yields: one more than the cuts it makes. */
  lemma {:induction false} SplitNLength(s: string, sep: char, n: nat)
    ensures |SplitN(s, sep, n)| == if Count(s, sep) < n then Count(s, sep) + 1 else n + 1
    decreases n
  {
    if sep !in s {
      CountAbsent(s, sep);
    } else if n > 0 {
      var i := IndexOf(s, sep);
      CountSplitsAt(s, sep, i);
      CountAbsent(s[..i], sep);
      SplitNLength(s[i + 1..], sep, n - 1);
    }
  }

  /** The stripped pieces of `text.split(",", expected - 1)`. */
  function CommaParts(text: string, expected: int): (r: seq<string>)
    ensures |r| == |Split(text, ',', expected - 1)|
    ensures forall k :: 0 <= k < |r| ==> r[k] == Strip(Split(text, ',', expected - 1)[k]) && IsStripped(r[k])
  {
    var parts := StripAll(Split(text, ',', expected - 1));
    assert forall k :: 0 <= k < |parts| ==> IsStripped(parts[k]) by {
      forall k | 0 <= k < |parts| ensures IsStripped(parts[k]) {
        StripIsStripped(Split(text, ',', expected - 1)[k]);
      }
    }
    parts
  }

  /**
   * `parse_comma`: split at the first `expected - 1` commas, strip every
   * part, and keep the parts only when there are exactly `expected` of
   * them. A limit below one cuts nowhere (limit 0) or everywhere (a
   * negative limit), as in Python.
   */
  function ParseComma(text: string, expected: int): (r: Option<seq<string>>)
    ensures r.Some? ==> |r.value| == expected
    ensures r.Some? ==> forall k :: 0 <= k < |r.value| ==> IsStripped(r.value[k])
    ensures r.Some? ==> |Split(text, ',', expected - 1)| == expected
    ensures r.Some? ==> forall k :: 0 <= k < expected ==> r.value[k] == Strip(Split(text, ',', expected - 1)[k])
  {
    var parts := CommaParts(text, expected);
    if |parts| != expected then None else Some(parts)
  }

  /** The parts come back exactly when the text has at least `expected - 1` commas. */
  lemma {:induction false} ParseCommaCount(text: string, expected: int)
    ensures ParseComma(text, expected).Some? <==> expected >= 1 && Count(text, ',') >= expected - 1
  {
    if expected >= 1 {
      var m: nat := expected - 1;
      var c := Count(text, ',');
      var k := |SplitN(text, ',', m)|;
      SplitNLength(text, ',', m);
      assert k == if c < m then c + 1 else m + 1;
      assert |Split(text, ',', expected - 1)| == k;
      assert |CommaParts(text, expected)| == k;
      assert ParseComma(text, expected).Some? <==> k == expected;
    } else {
      assert |CommaParts(text, expected)| >= 1;
    }
  }

  /**
   * The pieces the parts are stripped from, put back together with commas,
   * are the text itself. (A result needs `expected >= 1`: see
   * `ParseCommaCount`.)
   */
  lemma ParseCommaParts(text: string, expected: int)
    requires expected >= 1
    ensures Join([','], Split(text, ',', expected - 1)) == text
  {
    JoinSplitN(text, ',', expected - 1);
  }

  /** Cutting once at a comma that follows comma-free text gives that text and the rest. */
  lemma SplitAtFirstComma(first: string, rest: string)
    requires ',' !in first
    ensures Split(first + "," + rest, ',', 1) == [first, rest]
  {
    var s := first + "," + rest;
    assert s[|first|] == ',';
    assert s[..|first|] == first;
    IndexOfAt(s, ',', |first|);
    assert s[|first| + 1..] == rest;
    assert SplitN(rest, ',', 0) == [rest];
  }

  /** With two parts expected, the last part keeps every further comma. */
  lemma ParseCommaKeepsLast(first: string, rest: string)
    requires ',' !in first
    ensures var r := ParseComma(first + "," + rest, 2);
      r.Some? && |r.value| == 2 && r.value[0] == Strip(first) && r.value[1] == Strip(rest)
  {
    SplitAtFirstComma(first, rest);
    assert |CommaParts(first + "," + rest, 2)| == 2;
  }
}
