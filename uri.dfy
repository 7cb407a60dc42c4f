/**
 * `encodeURIComponent`, its inverse, and a reader for the `key=value&...` query strings
 * that the retrieval code assembles by hand.
 */
module Uri {
  import opened Util
  import opened Text

  /** The characters `encodeURIComponent` leaves as they are. */
  predicate IsUnreserved(c: char) {
    ('A' <= c <= 'Z') || ('a' <= c <= 'z') || ('0' <= c <= '9') ||
    c == '-' || c == '_' || c == '.' || c == '!' || c == '~' || c == '*' || c == '\'' ||
    c == '(' || c == ')'
  }

  /** An upper-case hexadecimal digit. */
  function HexDigit(d: nat): (c: char)
    requires d < 16
    ensures IsUnreserved(c)
  {
    if d < 10 then (48 + d) as char else (55 + d) as char
  }

  function HexValue(c: char): (v: Option<nat>)
    ensures v.Some? ==> v.value < 16
  {
    if '0' <= c <= '9' then Some(c as int - 48)
    else if 'A' <= c <= 'F' then Some(c as int - 55)
    else if 'a' <= c <= 'f' then Some(c as int - 87)
    else None
  }

  /** The UTF-8 encoding of a Unicode scalar value. */
  function Utf8(c: char): (bytes: seq<nat>)
    ensures 1 <= |bytes| <= 4
    ensures forall i :: 0 <= i < |bytes| ==> bytes[i] < 256
  {
    var n := c as int;
    if n < 0x80 then [n]
    else if n < 0x800 then [0xC0 + n / 64, 0x80 + n % 64]
    else if n < 0x1_0000 then [0xE0 + n / 4096, 0x80 + (n / 64) % 64, 0x80 + n % 64]
    else [0xF0 + n / 262144, 0x80 + (n / 4096) % 64, 0x80 + (n / 64) % 64, 0x80 + n % 64]
  }

  /** Each byte written as `%` followed by two upper-case hexadecimal digits. */
  function PercentBytes(bytes: seq<nat>): (s: string)
    requires forall i :: 0 <= i < |bytes| ==> bytes[i] < 256
    ensures |s| == 3 * |bytes|
  {
    seq(3 * |bytes|, k requires 0 <= k < 3 * |bytes| =>
      if k % 3 == 0 then '%'
      else var b := bytes[k / 3]; if k % 3 == 1 then HexDigit(b / 16) else HexDigit(b % 16))
  }

  function EncodeChar(c: char): (s: string)
    ensures s != []
  {
    if IsUnreserved(c) then [c] else PercentBytes(Utf8(c))
  }

  /** A character that can appear in the output of `encodeURIComponent`. */
  predicate IsEncodedChar(c: char) {
    IsUnreserved(c) || c == '%'
  }

  /** `encodeURIComponent(s)`. Its output never holds a URL delimiter such as `&`, `=`, `?` or `/`. */
  function EncodeUriComponent(s: string): (r: string)
    ensures forall i :: 0 <= i < |r| ==> IsEncodedChar(r[i])
  {
    if s == [] then [] else EncodeChar(s[0]) + EncodeUriComponent(s[1..])
  }

  /** The byte written as `%XY` at position `k` of `s`, if one is written there. */
  function ByteAt(s: string, k: nat): (b: Option<nat>)
    ensures b.Some? ==> k + 3 <= |s| && b.value < 256
  {
    if k + 3 <= |s| && s[k] == '%' && HexValue(s[k + 1]).Some? && HexValue(s[k + 2]).Some? then
      Some(16 * HexValue(s[k + 1]).value + HexValue(s[k + 2]).value)
    else None
  }

  /** The six payload bits of a UTF-8 continuation byte written at position `k`. */
  function ContinuationAt(s: string, k: nat): (bits: Option<nat>)
    ensures bits.Some? ==> k + 3 <= |s| && bits.value < 64
  {
    match ByteAt(s, k)
    case Some(b) => if 0x80 <= b < 0xC0 then Some(b - 0x80) else None
    case None => None
  }

  function CharOf(n: int, width: nat): Option<(char, nat)> {
    if 0 <= n < 0xD800 || 0xE000 <= n < 0x11_0000 then Some((n as char, width)) else None
  }

  /** Decodes the first character of `s`; gives the character and how many characters it took. */
  function DecodeOne(s: string): (r: Option<(char, nat)>)
    requires s != []
    ensures r.Some? ==> 0 < r.value.1 <= |s|
  {
    if s[0] != '%' then Some((s[0], 1))
    else match ByteAt(s, 0)
      case None => None
      case Some(b0) =>
        if b0 < 0x80 then CharOf(b0, 3)
        else if 0xC0 <= b0 < 0xE0 then
          match ContinuationAt(s, 3)
          case Some(c1) => CharOf((b0 - 0xC0) * 64 + c1, 6)
          case None => None
        else if 0xE0 <= b0 < 0xF0 then
          match (ContinuationAt(s, 3), ContinuationAt(s, 6))
          case (Some(c1), Some(c2)) => CharOf((b0 - 0xE0) * 4096 + c1 * 64 + c2, 9)
          case _ => None
        else if 0xF0 <= b0 < 0xF8 then
          match (ContinuationAt(s, 3), ContinuationAt(s, 6), ContinuationAt(s, 9))
          case (Some(c1), Some(c2), Some(c3)) =>
            CharOf((b0 - 0xF0) * 262144 + c1 * 4096 + c2 * 64 + c3, 12)
          case _ => None
        else None
  }

  /** `decodeURIComponent(s)`; `None` where it would throw a `URIError`. */
  function Decode(s: string): Option<string>
    decreases |s|
  {
    if s == [] then Some([])
    else match DecodeOne(s)
      case None => None
      case Some((c, width)) =>
        match Decode(s[width..])
        case None => None
        case Some(rest) => Some([c] + rest)
  }

  lemma PercentBytesAt(bytes: seq<nat>, rest: string, i: nat)
    requires forall j :: 0 <= j < |bytes| ==> bytes[j] < 256
    requires i < |bytes|
    ensures ByteAt(PercentBytes(bytes) + rest, 3 * i) == Some(bytes[i])
  {
    var s := PercentBytes(bytes) + rest;
    assert s[3 * i] == '%';
    assert s[3 * i + 1] == HexDigit(bytes[i] / 16);
    assert s[3 * i + 2] == HexDigit(bytes[i] % 16);
  }

  lemma SplitTwo(n: int)
    requires 0x80 <= n < 0x800
    ensures (n / 64) * 64 + n % 64 == n
  {
  }

  lemma SplitThree(n: int)
    requires 0x800 <= n < 0x1_0000
    ensures (n / 4096) * 4096 + ((n / 64) % 64) * 64 + n % 64 == n
  {
    var q := n / 64;
    assert n == q * 64 + n % 64;
    assert q == (q / 64) * 64 + q % 64;
    assert q / 64 == n / 4096;
  }

  lemma SplitFour(n: int)
    requires 0x1_0000 <= n < 0x11_0000
    ensures (n / 262144) * 262144 + ((n / 4096) % 64) * 4096 + ((n / 64) % 64) * 64 + n % 64 == n
  {
    var q := n / 64;
    var q2 := q / 64;
    assert n == q * 64 + n % 64;
    assert q == q2 * 64 + q % 64;
    assert q2 == (q2 / 64) * 64 + q2 % 64;
    assert q2 == n / 4096;
    assert q2 / 64 == n / 262144;
  }

  lemma DecodeTwo(s: string, c: char)
    requires var n := c as int;
      0x80 <= n < 0x800 && s != [] && s[0] == '%' &&
      ByteAt(s, 0) == Some(0xC0 + n / 64) && ByteAt(s, 3) == Some(0x80 + n % 64)
    ensures DecodeOne(s) == Some((c, 6))
  {
    var n := c as int;
    SplitTwo(n);
  }

  lemma DecodeThree(s: string, c: char)
    requires var n := c as int;
      0x800 <= n < 0x1_0000 && s != [] && s[0] == '%' &&
      ByteAt(s, 0) == Some(0xE0 + n / 4096) &&
      ByteAt(s, 3) == Some(0x80 + (n / 64) % 64) && ByteAt(s, 6) == Some(0x80 + n % 64)
    ensures DecodeOne(s) == Some((c, 9))
  {
    var n := c as int;
    SplitThree(n);
  }

  lemma DecodeFour(s: string, c: char)
    requires var n := c as int;
      0x1_0000 <= n && s != [] && s[0] == '%' &&
      ByteAt(s, 0) == Some(0xF0 + n / 262144) &&
      ByteAt(s, 3) == Some(0x80 + (n / 4096) % 64) &&
      ByteAt(s, 6) == Some(0x80 + (n / 64) % 64) && ByteAt(s, 9) == Some(0x80 + n % 64)
    ensures DecodeOne(s) == Some((c, 12))
  {
    var n := c as int;
    SplitFour(n);
  }

  lemma EncodedStart(c: char, rest: string)
    requires !IsUnreserved(c)
    ensures EncodeChar(c) == PercentBytes(Utf8(c))
    ensures (EncodeChar(c) + rest)[0] == '%'
    ensures forall i :: 0 <= i < |Utf8(c)| ==> ByteAt(EncodeChar(c) + rest, 3 * i) == Some(Utf8(c)[i])
  {
    var bytes := Utf8(c);
    forall i | 0 <= i < |bytes| ensures ByteAt(EncodeChar(c) + rest, 3 * i) == Some(bytes[i]) {
      PercentBytesAt(bytes, rest, i);
    }
  }

  lemma EncodedTwoBytes(c: char, rest: string)
    requires !IsUnreserved(c) && 0x80 <= c as int < 0x800
    ensures var s, n := EncodeChar(c) + rest, c as int;
      s != [] && s[0] == '%' && ByteAt(s, 0) == Some(0xC0 + n / 64) && ByteAt(s, 3) == Some(0x80 + n % 64)
  {
    EncodedStart(c, rest);
  }

  lemma EncodedThreeBytes(c: char, rest: string)
    requires !IsUnreserved(c) && 0x800 <= c as int < 0x1_0000
    ensures var s, n := EncodeChar(c) + rest, c as int;
      s != [] && s[0] == '%' && ByteAt(s, 0) == Some(0xE0 + n / 4096) &&
      ByteAt(s, 3) == Some(0x80 + (n / 64) % 64) && ByteAt(s, 6) == Some(0x80 + n % 64)
  {
    EncodedStart(c, rest);
  }

  lemma EncodedFourBytes(c: char, rest: string)
    requires !IsUnreserved(c) && 0x1_0000 <= c as int
    ensures var s, n := EncodeChar(c) + rest, c as int;
      s != [] && s[0] == '%' && ByteAt(s, 0) == Some(0xF0 + n / 262144) &&
      ByteAt(s, 3) == Some(0x80 + (n / 4096) % 64) &&
      ByteAt(s, 6) == Some(0x80 + (n / 64) % 64) && ByteAt(s, 9) == Some(0x80 + n % 64)
  {
    EncodedStart(c, rest);
  }

  /** Decoding the encoding of one character gives it back and consumes exactly the encoding. */
  lemma DecodeOneEncodeChar(c: char, rest: string)
    ensures DecodeOne(EncodeChar(c) + rest) == Some((c, |EncodeChar(c)|))
  {
    var n := c as int;
    if IsUnreserved(c) {
    } else if n < 0x80 {
      var s := EncodeChar(c) + rest;
      EncodedStart(c, rest);
      assert ByteAt(s, 0) == Some(n);
    } else if n < 0x800 {
      EncodedTwoBytes(c, rest);
      DecodeTwo(EncodeChar(c) + rest, c);
    } else if n < 0x1_0000 {
      EncodedThreeBytes(c, rest);
      DecodeThree(EncodeChar(c) + rest, c);
    } else {
      EncodedFourBytes(c, rest);
      DecodeFour(EncodeChar(c) + rest, c);
    }
  }

  /** `decodeURIComponent(encodeURIComponent(s)) == s`. */
  lemma {:induction false} DecodeEncode(s: string)
    ensures Decode(EncodeUriComponent(s)) == Some(s)
  {
    if s != [] {
      var e := EncodeUriComponent(s);
      DecodeOneEncodeChar(s[0], EncodeUriComponent(s[1..]));
      assert e[|EncodeChar(s[0])|..] == EncodeUriComponent(s[1..]);
      DecodeEncode(s[1..]);
      assert [s[0]] + s[1..] == s;
    }
  }

  /** Text made of unreserved characters is its own encoding, and so decodes to itself. */
  lemma {:induction false} UnreservedUnchanged(s: string)
    requires forall i :: 0 <= i < |s| ==> IsUnreserved(s[i])
    ensures EncodeUriComponent(s) == s
    ensures Decode(s) == Some(s)
  {
    if s != [] {
      UnreservedUnchanged(s[1..]);
      assert [s[0]] + s[1..] == s;
    }
    DecodeEncode(s);
  }

  /** Distinct strings encode differently. */
  lemma EncodeInjective(a: string, b: string)
    requires EncodeUriComponent(a) == EncodeUriComponent(b)
    ensures a == b
  {
    DecodeEncode(a);
    DecodeEncode(b);
  }

  /** The query string of a URL: what follows its first `?` (empty when there is none). */
  function QueryOf(url: string): string {
    if '?' in url then url[IndexOf(url, '?') + 1..] else ""
  }

  /** One `key=value` piece, split at its first `=`; a piece without `=` has an empty value. */
  function ParamOf(piece: string): (string, string) {
    if '=' in piece then (piece[..IndexOf(piece, '=')], piece[IndexOf(piece, '=') + 1..])
    else (piece, "")
  }

  /** The raw (still percent-encoded) parameters of a URL, in order. */
  function Params(url: string): seq<(string, string)> {
    var pieces := SplitOn(QueryOf(url), '&');
    seq(|pieces|, i requires 0 <= i < |pieces| => ParamOf(pieces[i]))
  }

  /** `searchParams.get(key)` without the decoding: the first value given for `key`. */
  function Lookup(params: seq<(string, string)>, key: string): (v: Option<string>)
    ensures v.Some? <==> exists i :: 0 <= i < |params| && params[i].0 == key
  {
    if params == [] then None
    else if params[0].0 == key then Some(params[0].1)
    else Lookup(params[1..], key)
  }

  /** `key=value` joined with `&`, the shape the code writes by hand. */
  function Render(params: seq<(string, string)>): string {
    if params == [] then ""
    else if |params| == 1 then params[0].0 + "=" + params[0].1
    else params[0].0 + "=" + params[0].1 + "&" + Render(params[1..])
  }

  /** A parameter list that `Render` writes unambiguously. */
  predicate Plain(params: seq<(string, string)>) {
    forall i :: 0 <= i < |params| ==>
      '&' !in params[i].0 && '=' !in params[i].0 && '&' !in params[i].1
  }

  lemma ParamOfPlain(key: string, value: string)
    requires '=' !in key
    ensures ParamOf(key + "=" + value) == (key, value)
  {
    IndexOfAfter(key, '=', value);
    assert (key + "=" + value)[..|key|] == key;
    assert (key + "=" + value)[|key| + 1..] == value;
  }

  lemma {:induction false} SplitRender(params: seq<(string, string)>)
    requires params != [] && Plain(params)
    ensures |SplitOn(Render(params), '&')| == |params|
    ensures forall i :: 0 <= i < |params| ==>
      SplitOn(Render(params), '&')[i] == params[i].0 + "=" + params[i].1
    decreases |params|
  {
    var first := params[0].0 + "=" + params[0].1;
    assert '&' !in first by {
      assert forall k :: 0 <= k < |first| ==> first[k] in params[0].0 || first[k] == '=' || first[k] in params[0].1;
    }
    if |params| == 1 {
    } else {
      SplitRender(params[1..]);
      assert Render(params) == first + ['&'] + Render(params[1..]);
      SplitOnAfter(first, '&', Render(params[1..]));
    }
  }

  /** Reading back a URL `prefix?Render(params)` gives `params`. */
  lemma ParamsOfRendered(prefix: string, params: seq<(string, string)>)
    requires '?' !in prefix
    requires params != [] && Plain(params)
    ensures Params(prefix + "?" + Render(params)) == params
  {
    var url := prefix + "?" + Render(params);
    IndexOfAfter(prefix, '?', Render(params));
    assert QueryOf(url) == Render(params);
    SplitRender(params);
    forall i | 0 <= i < |params| ensures Params(url)[i] == params[i] {
      ParamOfPlain(params[i].0, params[i].1);
    }
  }

  /** Encoded text never holds the delimiters `&`, `=` or `?`. */
  lemma EncodedIsPlain(s: string)
    ensures '&' !in EncodeUriComponent(s) && '=' !in EncodeUriComponent(s) && '?' !in EncodeUriComponent(s)
  {
    var e := EncodeUriComponent(s);
    assert forall i :: 0 <= i < |e| ==> IsEncodedChar(e[i]);
  }
}
