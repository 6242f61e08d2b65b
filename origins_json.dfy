// The allowed_origins column: json.dumps of a list of strings on the way in (ensure_ascii,
// the default separators) and json.loads on the way out.
module OriginsJson {
  import opened Wrappers

  // ---------------------------------------------------------------------------
  // Hexadecimal digits of \uXXXX escapes: written in lower case, read in either case.

  function HexDigit(d: nat): (c: char)
    requires d < 16
  {
    if d < 10 then ('0' as int + d) as char else ('a' as int + d - 10) as char
  }

  function HexValue(c: char): (r: Option<nat>)
    ensures r.Some? ==> r.value < 16
  {
    if '0' <= c <= '9' then Some(c as int - '0' as int)
    else if 'a' <= c <= 'f' then Some(c as int - 'a' as int + 10)
    else if 'A' <= c <= 'F' then Some(c as int - 'A' as int + 10)
    else None
  }

  function Pow16(w: nat): (p: nat)
    ensures p >= 1
  {
    if w == 0 then 1 else 16 * Pow16(w - 1)
  }

  /** The w least significant hex digits of n, zero-padded ('{0:04x}'). */
  function HexDigits(n: nat, w: nat): (r: string)
    ensures |r| == w
  {
    if w == 0 then [] else HexDigits(n / 16, w - 1) + [HexDigit(n % 16)]
  }

  /** The value of a run of hex digits; None if one of them is not a hex digit. */
  function ParseHex(s: string): (r: Option<nat>)
    ensures r.Some? ==> r.value < Pow16(|s|)
  {
    if s == [] then Some(0)
    else
      var high :- ParseHex(s[..|s| - 1]);
      var low :- HexValue(s[|s| - 1]);
      Some(high * 16 + low)
  }

  lemma {:induction false} ParseHexOfHexDigits(n: nat, w: nat)
    requires n < Pow16(w)
    ensures ParseHex(HexDigits(n, w)) == Some(n)
  {
    if w > 0 {
      var r := HexDigits(n, w);
      assert r[..w - 1] == HexDigits(n / 16, w - 1);
      assert HexValue(r[w - 1]) == Some(n % 16);
      ParseHexOfHexDigits(n / 16, w - 1);
    }
  }

  // ---------------------------------------------------------------------------
  // json.dumps

  const HighFirst := 0xD800
  const LowFirst := 0xDC00

  /** The two-character escapes json.dumps uses, by the letter after the backslash. */
  function ShortEscape(c: char): Option<char> {
    if c == '"' then Some('"')
    else if c == '\\' then Some('\\')
    else if c == '\n' then Some('n')
    else if c == '\r' then Some('r')
    else if c == '\t' then Some('t')
    else if c == '\U{0008}' then Some('b')
    else if c == '\U{000C}' then Some('f')
    else None
  }

  /** \uXXXX with four lower-case hex digits. */
  function Hex4(n: nat): string {
    "\\u" + HexDigits(n, 4)
  }

  /** How json.dumps writes one character inside a string literal with ensure_ascii. */
  function EscapeChar(c: char): string {
    if ShortEscape(c).Some? then ['\\', ShortEscape(c).value]
    else if ' ' <= c <= '~' then [c]
    else if c as int < 0x10000 then Hex4(c as int)
    else
      var v := c as int - 0x10000;
      Hex4(HighFirst + v / 1024) + Hex4(LowFirst + v % 1024)
  }

  function EscapeBody(s: string): string {
    if s == [] then [] else EscapeChar(s[0]) + EscapeBody(s[1..])
  }

  function EncodeString(s: string): string {
    "\"" + EscapeBody(s) + "\""
  }

  function EncodeItems(xs: seq<string>): string {
    if xs == [] then ""
    else if |xs| == 1 then EncodeString(xs[0])
    else EncodeString(xs[0]) + ", " + EncodeItems(xs[1..])
  }

  /** json.dumps(origins). */
  function Encode(xs: seq<string>): string {
    "[" + EncodeItems(xs) + "]"
  }

  /** ensure_ascii: the stored text never holds a character outside printable ASCII. */
  lemma {:induction false} EscapeBodyPrintable(s: string)
    ensures forall i :: 0 <= i < |EscapeBody(s)| ==> ' ' <= EscapeBody(s)[i] <= '~'
  {
    if s != [] {
      EscapeBodyPrintable(s[1..]);
      var c := s[0];
      var e := EscapeChar(c);
      assert forall i :: 0 <= i < |e| ==> ' ' <= e[i] <= '~' by {
        if !(' ' <= c <= '~') && c as int < 0x10000 {
          HexDigitsPrintable(c as int, 4);
        } else if !(' ' <= c <= '~') {
          var v := c as int - 0x10000;
          HexDigitsPrintable(HighFirst + v / 1024, 4);
          HexDigitsPrintable(LowFirst + v % 1024, 4);
        }
      }
    }
  }

  lemma {:induction false} HexDigitsPrintable(n: nat, w: nat)
    ensures forall i :: 0 <= i < w ==> ('0' <= HexDigits(n, w)[i] <= '9') || ('a' <= HexDigits(n, w)[i] <= 'f')
  {
    if w > 0 {
      HexDigitsPrintable(n / 16, w - 1);
    }
  }

  // ---------------------------------------------------------------------------
  // json.loads, for the shape the column holds: a list of strings.

  datatype Scan<T> = Scan(value: T, rest: string)

  predicate IsJsonSpace(c: char) {
    c == ' ' || c == '\t' || c == '\n' || c == '\r'
  }

  function SkipSpace(s: string): (r: string)
    ensures |r| <= |s|
    ensures r == [] || !IsJsonSpace(r[0])
  {
    if s != [] && IsJsonSpace(s[0]) then SkipSpace(s[1..]) else s
  }

  /** The character a two-character escape stands for, by the letter after the backslash. */
  function SimpleEscape(c: char): Option<char> {
    if c == '"' then Some('"')
    else if c == '\\' then Some('\\')
    else if c == '/' then Some('/')
    else if c == 'b' then Some('\U{0008}')
    else if c == 'f' then Some('\U{000C}')
    else if c == 'n' then Some('\n')
    else if c == 'r' then Some('\r')
    else if c == 't' then Some('\t')
    else None
  }

  /** Four hex digits at the start of s. */
  function HexAt(s: string): (r: Option<nat>)
    ensures r.Some? ==> |s| >= 4 && r.value < 0x10000
  {
    if |s| >= 4 then
      var n :- ParseHex(s[..4]);
      assert Pow16(4) == 0x10000;
      Some(n)
    else None
  }

  /** A \u escape; s starts just after the 'u'. A high surrogate must be followed by a low one. */
  function UnicodeEscape(s: string): (r: Result<Scan<char>>)
    ensures r.Success? ==> |r.value.rest| < |s|
  {
    match HexAt(s)
    case None => Failure("Invalid \\uXXXX escape")
    case Some(u) =>
      var r1 := s[4..];
      if HighFirst <= u < LowFirst then
        if |r1| >= 2 && r1[0] == '\\' && r1[1] == 'u' && HexAt(r1[2..]).Some?
           && LowFirst <= HexAt(r1[2..]).value < LowFirst + 1024
        then
          var l := HexAt(r1[2..]).value;
          Success(Scan((0x10000 + (u - HighFirst) * 1024 + (l - LowFirst)) as char, r1[6..]))
        else Failure("Unpaired surrogate")
      else if LowFirst <= u < LowFirst + 1024 then Failure("Unpaired surrogate")
      else Success(Scan(u as char, r1))
  }

  /** The character an escape stands for; s starts just after the backslash. */
  function Unescape(s: string): (r: Result<Scan<char>>)
    ensures r.Success? ==> |r.value.rest| < |s|
  {
    if s == [] then Failure("Unterminated string")
    else if SimpleEscape(s[0]).Some? then Success(Scan(SimpleEscape(s[0]).value, s[1..]))
    else if s[0] == 'u' then UnicodeEscape(s[1..])
    else Failure("Invalid \\escape")
  }

  /** The characters of a string literal; s starts just after the opening quote. */
  function StringBody(s: string): (r: Result<Scan<string>>)
    ensures r.Success? ==> |r.value.rest| < |s|
    decreases |s|
  {
    if s == [] then Failure("Unterminated string")
    else if s[0] == '"' then Success(Scan([], s[1..]))
    else if s[0] == '\\' then
      var e :- Unescape(s[1..]);
      var tail :- StringBody(e.rest);
      Success(Scan([e.value] + tail.value, tail.rest))
    else if s[0] < ' ' then Failure("Invalid control character")
    else
      var tail :- StringBody(s[1..]);
      Success(Scan([s[0]] + tail.value, tail.rest))
  }

  /** One or more string items up to the closing bracket; s starts at an item. */
  function Items(s: string): (r: Result<Scan<seq<string>>>)
    ensures r.Success? ==> |r.value.rest| < |s|
    decreases |s|, 1
  {
    if s == [] || s[0] != '"' then Failure("Expecting a string")
    else
      var x :- StringBody(s[1..]);
      ItemsAfter(x.value, x.rest)
  }

  /** What follows the item x: a comma and more items, or the closing bracket. */
  function ItemsAfter(x: string, s: string): (r: Result<Scan<seq<string>>>)
    ensures r.Success? ==> |r.value.rest| < |s|
    decreases |s|, 0
  {
    var r := SkipSpace(s);
    if r != [] && r[0] == ',' then
      var more :- Items(SkipSpace(r[1..]));
      Success(Scan([x] + more.value, more.rest))
    else if r != [] && r[0] == ']' then Success(Scan([x], r[1..]))
    else Failure("Expecting ',' delimiter")
  }

  /** json.loads(text), where anything but a list of strings is an error. */
  function Decode(s: string): Result<seq<string>> {
    var r0 := SkipSpace(s);
    if r0 == [] || r0[0] != '[' then Failure("Expecting a list")
    else
      var r1 := SkipSpace(r0[1..]);
      var items :- if r1 != [] && r1[0] == ']' then Success(Scan([], r1[1..])) else Items(r1);
      if SkipSpace(items.rest) == [] then Success(items.value) else Failure("Extra data")
  }

  // ---------------------------------------------------------------------------
  // Reading back what json.dumps wrote.

  lemma HexAtOf(n: nat, rest: string)
    requires n < 0x10000
    ensures HexAt(HexDigits(n, 4) + rest) == Some(n)
  {
    assert (HexDigits(n, 4) + rest)[..4] == HexDigits(n, 4);
    ParseHexOfHexDigits(n, 4);
  }

  lemma UnicodeEscapeOf(n: nat, rest: string)
    requires n < 0x10000 && !(HighFirst <= n < LowFirst + 1024)
    ensures UnicodeEscape(HexDigits(n, 4) + rest) == Success(Scan(n as char, rest))
  {
    HexAtOf(n, rest);
    assert (HexDigits(n, 4) + rest)[4..] == rest;
  }

  lemma SurrogatePairOf(c: char, rest: string)
    requires c as int >= 0x10000
    ensures var v := c as int - 0x10000;
      UnicodeEscape(HexDigits(HighFirst + v / 1024, 4) + (Hex4(LowFirst + v % 1024) + rest))
      == Success(Scan(c, rest))
  {
    var v := c as int - 0x10000;
    var hi, lo := HighFirst + v / 1024, LowFirst + v % 1024;
    var r1 := Hex4(lo) + rest;
    HexAtOf(hi, r1);
    assert (HexDigits(hi, 4) + r1)[4..] == r1;
    assert r1[2..] == HexDigits(lo, 4) + rest;
    HexAtOf(lo, rest);
    assert r1[6..] == rest;
  }

  /** Decoding an escaped character gives the character and leaves what follows it. */
  lemma UnescapeOf(c: char, rest: string)
    requires EscapeChar(c) != [c]
    ensures EscapeChar(c)[0] == '\\'
    ensures Unescape(EscapeChar(c)[1..] + rest) == Success(Scan(c, rest))
  {
    if ShortEscape(c).Some? {
      UnescapeShortOf(c, rest);
    } else if c as int < 0x10000 {
      UnescapeBmpOf(c, rest);
    } else {
      UnescapeAstralOf(c, rest);
    }
  }

  lemma UnescapeShortOf(c: char, rest: string)
    requires ShortEscape(c).Some?
    ensures Unescape([ShortEscape(c).value] + rest) == Success(Scan(c, rest))
  {
    assert SimpleEscape(ShortEscape(c).value) == Some(c);
    assert ([ShortEscape(c).value] + rest)[1..] == rest;
  }

  lemma UnescapeBmpOf(c: char, rest: string)
    requires c as int < 0x10000
    ensures Unescape(Hex4(c as int)[1..] + rest) == Success(Scan(c, rest))
  {
    var s := Hex4(c as int)[1..] + rest;
    assert s == "u" + (HexDigits(c as int, 4) + rest);
    assert s[1..] == HexDigits(c as int, 4) + rest;
    UnicodeEscapeOf(c as int, rest);
  }

  lemma UnescapeAstralOf(c: char, rest: string)
    requires c as int >= 0x10000
    ensures var v := c as int - 0x10000;
      Unescape((Hex4(HighFirst + v / 1024) + Hex4(LowFirst + v % 1024))[1..] + rest) == Success(Scan(c, rest))
  {
    var v := c as int - 0x10000;
    SurrogatePairOf(c, rest);
    UnescapePairOf(HighFirst + v / 1024, LowFirst + v % 1024, c, rest);
  }

  lemma UnescapePairOf(hi: nat, lo: nat, c: char, rest: string)
    requires UnicodeEscape(HexDigits(hi, 4) + (Hex4(lo) + rest)) == Success(Scan(c, rest))
    ensures Unescape((Hex4(hi) + Hex4(lo))[1..] + rest) == Success(Scan(c, rest))
  {
    AfterBackslash(HexDigits(hi, 4), Hex4(lo), rest);
  }

  /** Unescape reads a \u escape written before b and rest by reading the hex digits h. */
  lemma AfterBackslash(h: string, b: string, rest: string)
    ensures Unescape(("\\u" + h + b)[1..] + rest) == UnicodeEscape(h + (b + rest))
  {
    var s := ("\\u" + h + b)[1..] + rest;
    assert s == "u" + (h + (b + rest));
    assert s[1..] == h + (b + rest);
  }

  lemma StringBodyStep(c: char, rest: string)
    ensures StringBody(EscapeChar(c) + rest)
      == (var t :- StringBody(rest); Success(Scan([c] + t.value, t.rest)))
  {
    var e := EscapeChar(c);
    if e == [c] {
      assert c != '"' && c != '\\' && c >= ' ';
      PlainStep(c, rest);
    } else {
      UnescapeOf(c, rest);
      EscapedStep(e, c, rest);
    }
  }

  lemma PlainStep(c: char, rest: string)
    requires c != '"' && c != '\\' && c >= ' '
    ensures StringBody([c] + rest) == (var t :- StringBody(rest); Success(Scan([c] + t.value, t.rest)))
  {
    assert ([c] + rest)[1..] == rest;
  }

  lemma EscapedStep(e: string, c: char, rest: string)
    requires |e| > 0 && e[0] == '\\' && Unescape(e[1..] + rest) == Success(Scan(c, rest))
    ensures StringBody(e + rest) == (var t :- StringBody(rest); Success(Scan([c] + t.value, t.rest)))
  {
    assert (e + rest)[1..] == e[1..] + rest;
  }

  lemma {:induction false} StringBodyOf(x: string, rest: string)
    ensures StringBody(EscapeBody(x) + "\"" + rest) == Success(Scan(x, rest))
    decreases |x|
  {
    if x == [] {
      assert EscapeBody(x) + "\"" + rest == "\"" + rest;
    } else {
      var tail := EscapeBody(x[1..]) + "\"" + rest;
      assert EscapeBody(x) + "\"" + rest == EscapeChar(x[0]) + tail;
      StringBodyStep(x[0], tail);
      StringBodyOf(x[1..], rest);
      assert [x[0]] + x[1..] == x;
    }
  }

  /** After one encoded item, Items goes on with whatever follows the closing quote. */
  lemma ItemsHead(x: string, after: string)
    ensures Items(EncodeString(x) + after) == ItemsAfter(x, after)
  {
    var s := EncodeString(x) + after;
    assert s[1..] == EscapeBody(x) + "\"" + after;
    StringBodyOf(x, after);
  }

  lemma ItemsClose(x: string, rest: string)
    ensures ItemsAfter(x, "]" + rest) == Success(Scan([x], rest))
  {
    SkipSpaceStop("]" + rest);
    assert ("]" + rest)[1..] == rest;
  }

  lemma ItemsNext(x: string, more: string)
    requires more != [] && more[0] == '"'
    ensures ItemsAfter(x, ", " + more)
      == (var m :- Items(more); Success(Scan([x] + m.value, m.rest)))
  {
    var after := ", " + more;
    SkipSpaceStop(after);
    assert after[1..] == " " + more;
    SkipSpaceStep(' ', more);
    SkipSpaceStop(more);
  }

  lemma SkipSpaceStop(s: string)
    requires s == [] || !IsJsonSpace(s[0])
    ensures SkipSpace(s) == s
  {
  }

  lemma SkipSpaceStep(c: char, s: string)
    requires IsJsonSpace(c)
    ensures SkipSpace([c] + s) == SkipSpace(s)
  {
    assert ([c] + s)[1..] == s;
  }

  lemma {:induction false} ItemsOf(xs: seq<string>, rest: string)
    requires |xs| > 0
    ensures Items(EncodeItems(xs) + "]" + rest) == Success(Scan(xs, rest))
    decreases |xs|
  {
    EncodeItemsSplit(xs, rest);
    if |xs| == 1 {
      ItemsSingle(xs[0], rest);
      assert [xs[0]] == xs;
    } else {
      EncodeItemsSplit(xs[1..], rest);
      ItemsOf(xs[1..], rest);
      ItemsCons(xs[0], EncodeItems(xs[1..]) + "]" + rest, xs[1..], rest);
      assert [xs[0]] + xs[1..] == xs;
    }
  }

  lemma ItemsSingle(x: string, rest: string)
    ensures Items(EncodeString(x) + ("]" + rest)) == Success(Scan([x], rest))
  {
    ItemsHead(x, "]" + rest);
    ItemsClose(x, rest);
  }

  lemma ItemsCons(x: string, more: string, xs: seq<string>, rest: string)
    requires more != [] && more[0] == '"'
    requires Items(more) == Success(Scan(xs, rest))
    ensures Items(EncodeString(x) + (", " + more)) == Success(Scan([x] + xs, rest))
  {
    ItemsHead(x, ", " + more);
    ItemsNext(x, more);
  }

  /** The text of a non-empty list: the first item, then a comma or the closing bracket. */
  lemma EncodeItemsSplit(xs: seq<string>, rest: string)
    requires |xs| > 0
    ensures (EncodeItems(xs) + "]" + rest)[0] == '"'
    ensures |xs| == 1 ==> EncodeItems(xs) + "]" + rest == EncodeString(xs[0]) + ("]" + rest)
    ensures |xs| > 1 ==>
      EncodeItems(xs) + "]" + rest == EncodeString(xs[0]) + (", " + (EncodeItems(xs[1..]) + "]" + rest))
  {
    var e := EncodeString(xs[0]);
    assert e[0] == '"';
    if |xs| == 1 {
      Regroup(e, [], [], "]", rest);
    } else {
      Regroup(e, ", ", EncodeItems(xs[1..]), "]", rest);
    }
  }

  lemma Regroup(a: string, b: string, c: string, d: string, f: string)
    requires |a| > 0
    ensures (a + b + c + d + f)[0] == a[0]
    ensures a + b + c + d + f == a + (b + (c + d + f))
  {
  }

  /** json.loads(json.dumps(origins)) == origins: the column gives back the list it was given. */
  lemma DecodeEncode(xs: seq<string>)
    ensures Decode(Encode(xs)) == Success(xs)
  {
    var s := Encode(xs);
    SkipSpaceStop(s);
    SkipSpaceStop("");
    if xs == [] {
      assert s[1..] == "]";
    } else {
      var t := EncodeItems(xs) + "]" + "";
      assert s[1..] == t;
      EncodeItemsSplit(xs, "");
      SkipSpaceStop(t);
      ItemsOf(xs, "");
    }
  }
}
