/**
 * String operations the retrieval code relies on: ECMAScript whitespace (`\s`, `trim`),
 * `toLowerCase` (ASCII letters only), `includes`, `split`, `join` and the decimal rendering
 * of non-negative integers in template literals.
 */
module Text {

  /** The characters matched by `\s` in an ECMAScript regular expression (and removed by `trim`). */
  predicate IsWhitespace(c: char) {
    var n := c as int;
    (9 <= n <= 13) || n == 32 || n == 0xA0 || n == 0x1680 || (0x2000 <= n <= 0x200A) ||
    n == 0x2028 || n == 0x2029 || n == 0x202F || n == 0x205F || n == 0x3000 || n == 0xFEFF
  }

  predicate HasNoWhitespace(s: string) {
    forall i :: 0 <= i < |s| ==> !IsWhitespace(s[i])
  }

  /**
   * `s.length`: JavaScript counts UTF-16 code units, so a character beyond the Basic
   * Multilingual Plane (an emoji, say) counts twice.
   */
  function Utf16Length(s: string): (n: nat)
    ensures |s| <= n <= 2 * |s|
    ensures n == |s| <==> forall i :: 0 <= i < |s| ==> s[i] as int < 0x10000
    decreases |s|
  {
    if s == [] then 0
    else (if s[0] as int < 0x10000 then 1 else 2) + Utf16Length(s[1..])
  }

  function LowerChar(c: char): char {
    if 'A' <= c <= 'Z' then (c as int + 32) as char else c
  }

  /** `s.toLowerCase()`, restricted to the ASCII letters. */
  function Lower(s: string): (r: string)
    ensures |r| == |s| && forall i :: 0 <= i < |s| ==> r[i] == LowerChar(s[i])
  {
    seq(|s|, i requires 0 <= i < |s| => LowerChar(s[i]))
  }

  lemma LowerAppend(a: string, b: string)
    ensures Lower(a + b) == Lower(a) + Lower(b)
  {
  }

  /** `haystack.includes(needle)`. */
  predicate Contains(haystack: string, needle: string)
    decreases |haystack|
  {
    needle <= haystack || (haystack != [] && Contains(haystack[1..], needle))
  }

  /** `needle` occurs in `haystack` starting at position `k`. */
  ghost predicate OccursAt(haystack: string, needle: string, k: nat) {
    k + |needle| <= |haystack| && haystack[k..k + |needle|] == needle
  }

  /** `Contains` agrees with the position-based reading of "occurs somewhere". */
  lemma {:induction false} ContainsAt(haystack: string, needle: string)
    ensures Contains(haystack, needle) <==> exists k: nat :: OccursAt(haystack, needle, k)
    decreases |haystack|
  {
    assert OccursAt(haystack, needle, 0) <==> needle <= haystack;
    if needle <= haystack {
    } else if haystack == [] {
      assert forall k: nat :: !OccursAt(haystack, needle, k);
    } else {
      ContainsAt(haystack[1..], needle);
      if k: nat :| OccursAt(haystack, needle, k) && k > 0 {
        assert OccursAt(haystack[1..], needle, k - 1);
      }
      if k: nat :| OccursAt(haystack[1..], needle, k) {
        assert OccursAt(haystack, needle, k + 1);
      }
    }
  }

  /** Whatever contains `a + b` contains `a`. */
  lemma ContainsNeedlePrefix(haystack: string, a: string, b: string)
    requires Contains(haystack, a + b)
    ensures Contains(haystack, a)
  {
    ContainsAt(haystack, a + b);
    var k: nat :| OccursAt(haystack, a + b, k);
    assert haystack[k..k + |a|] == haystack[k..k + |a + b|][..|a|];
    assert OccursAt(haystack, a, k);
    ContainsAt(haystack, a);
  }

  /** The index of the first occurrence of `c` in `s`. */
  function IndexOf(s: string, c: char): (i: nat)
    requires c in s
    ensures i < |s| && s[i] == c && c !in s[..i]
  {
    if s[0] == c then 0 else 1 + IndexOf(s[1..], c)
  }

  /** `s.split(sep)` for a single-character separator. */
  function SplitOn(s: string, sep: char): (parts: seq<string>)
    ensures |parts| >= 1
    decreases |s|
  {
    if sep !in s then [s] else [s[..IndexOf(s, sep)]] + SplitOn(s[IndexOf(s, sep) + 1..], sep)
  }

  lemma {:induction false} IndexOfAfter(a: string, sep: char, b: string)
    requires sep !in a
    ensures IndexOf(a + [sep] + b, sep) == |a|
    decreases |a|
  {
    if a != [] {
      assert (a + [sep] + b)[1..] == a[1..] + [sep] + b;
      IndexOfAfter(a[1..], sep, b);
    }
  }

  /** Splitting at the first separator: what lies before it is the first part. */
  lemma SplitOnAfter(a: string, sep: char, b: string)
    requires sep !in a
    ensures SplitOn(a + [sep] + b, sep) == [a] + SplitOn(b, sep)
  {
    var s := a + [sep] + b;
    IndexOfAfter(a, sep, b);
    assert s[..|a|] == a;
    assert s[|a| + 1..] == b;
  }

  /** `parts.join(sep)` for a single-character separator. */
  function Join(parts: seq<string>, sep: char): string {
    if parts == [] then ""
    else if |parts| == 1 then parts[0]
    else parts[0] + [sep] + Join(parts[1..], sep)
  }

  /** Splitting a joined list recovers it when no part contains the separator. */
  lemma {:induction false} SplitJoin(parts: seq<string>, sep: char)
    requires parts != []
    requires forall i :: 0 <= i < |parts| ==> sep !in parts[i]
    ensures SplitOn(Join(parts, sep), sep) == parts
    decreases |parts|
  {
    if |parts| > 1 {
      SplitJoin(parts[1..], sep);
      SplitOnAfter(parts[0], sep, Join(parts[1..], sep));
    }
  }

  function WordLength(s: string): (n: nat)
    ensures n <= |s|
    ensures forall i :: 0 <= i < n ==> !IsWhitespace(s[i])
    ensures n < |s| ==> IsWhitespace(s[n])
  {
    if s == [] || IsWhitespace(s[0]) then 0 else 1 + WordLength(s[1..])
  }

  /**
   * The non-empty pieces of `s.split(/\s+/)`: the maximal runs of non-whitespace
   * characters, in order.
   */
  function Words(s: string): (ws: seq<string>)
    decreases |s|
  {
    if s == [] then []
    else if IsWhitespace(s[0]) then Words(s[1..])
    else [s[..WordLength(s)]] + Words(s[WordLength(s)..])
  }

  /** `s` with every whitespace character deleted. */
  function Squeeze(s: string): string {
    if s == [] then [] else (if IsWhitespace(s[0]) then [] else [s[0]]) + Squeeze(s[1..])
  }

  function Concat(ws: seq<string>): string {
    if ws == [] then [] else ws[0] + Concat(ws[1..])
  }

  lemma SqueezeAppend(a: string, b: string)
    ensures Squeeze(a + b) == Squeeze(a) + Squeeze(b)
  {
    if a == [] {
      assert a + b == b;
    } else {
      var head := if IsWhitespace(a[0]) then [] else [a[0]];
      calc {
        Squeeze(a + b);
        { assert (a + b)[0] == a[0]; assert (a + b)[1..] == a[1..] + b; }
        head + Squeeze(a[1..] + b);
        { SqueezeAppend(a[1..], b); }
        head + (Squeeze(a[1..]) + Squeeze(b));
        Squeeze(a) + Squeeze(b);
      }
    }
  }

  lemma SqueezeWord(w: string)
    requires HasNoWhitespace(w)
    ensures Squeeze(w) == w
  {
  }

  /**
   * Words are non-empty and free of whitespace, and together they hold exactly the
   * non-whitespace characters of `s`, in order.
   */
  lemma {:induction false} WordsSpec(s: string)
    ensures forall i :: 0 <= i < |Words(s)| ==> Words(s)[i] != [] && HasNoWhitespace(Words(s)[i])
    ensures Concat(Words(s)) == Squeeze(s)
    decreases |s|
  {
    if s == [] {
    } else if IsWhitespace(s[0]) {
      WordsSpec(s[1..]);
    } else {
      var n := WordLength(s);
      WordsSpec(s[n..]);
      assert s == s[..n] + s[n..];
      SqueezeAppend(s[..n], s[n..]);
      SqueezeWord(s[..n]);
      var ws := Words(s);
      assert ws == [s[..n]] + Words(s[n..]);
      assert ws[1..] == Words(s[n..]);
    }
  }

  function TrimStart(s: string): (r: string)
    ensures |r| <= |s| && r == s[|s| - |r|..]
    ensures r != [] ==> !IsWhitespace(r[0])
  {
    if s != [] && IsWhitespace(s[0]) then TrimStart(s[1..]) else s
  }

  function TrimEnd(s: string): (r: string)
    ensures r <= s
    ensures r != [] ==> !IsWhitespace(r[|r| - 1])
  {
    if s != [] && IsWhitespace(s[|s| - 1]) then TrimEnd(s[..|s| - 1]) else s
  }

  /** `s.trim()`. */
  function Trim(s: string): string {
    TrimEnd(TrimStart(s))
  }

  /** Trimming a whitespace-free string leaves it as it is. */
  lemma TrimWord(w: string)
    requires HasNoWhitespace(w)
    ensures Trim(w) == w
  {
  }

  function Digit(d: nat): char
    requires d < 10
  {
    (48 + d) as char
  }

  /** `${n}` for a non-negative integer: its decimal digits, without leading zeros. */
  function NatToString(n: nat): (r: string)
    ensures |r| >= 1
    ensures forall i :: 0 <= i < |r| ==> '0' <= r[i] <= '9'
    ensures |r| > 1 ==> r[0] != '0'
  {
    if n < 10 then [Digit(n)] else NatToString(n / 10) + [Digit(n % 10)]
  }

  /** The value of a string of decimal digits. */
  function DecimalValue(s: string): nat
    requires forall i :: 0 <= i < |s| ==> '0' <= s[i] <= '9'
  {
    if s == [] then 0 else 10 * DecimalValue(s[..|s| - 1]) + (s[|s| - 1] as int - 48)
  }

  /** Reading the rendered digits back gives the number. */
  lemma {:induction false} NatToStringValue(n: nat)
    ensures DecimalValue(NatToString(n)) == n
  {
    if n >= 10 {
      NatToStringValue(n / 10);
      var r := NatToString(n);
      assert r[..|r| - 1] == NatToString(n / 10);
    }
  }

  /** Distinct numbers render differently. */
  lemma NatToStringInjective(m: nat, n: nat)
    requires NatToString(m) == NatToString(n)
    ensures m == n
  {
    NatToStringValue(m);
    NatToStringValue(n);
  }
}
