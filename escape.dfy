/** The escaper: `escape_unicode_string` replaces each C0 control code point,
    DEL and backslash with a printable escape and copies everything else. */
module Escape {
  import opened Wrappers

  /** Escape for each C0 code point 0x00..0x1F, indexed by code point. */
  const ReplacementTable: seq<string> := [
    "\\x00", "\\x01", "\\x02", "\\x03", "\\x04", "\\x05", "\\x06", "\\x07",
    "\\x08", "\\t",   "\\n",   "\\x0b", "\\x0c", "\\r",   "\\x0e", "\\x0f",
    "\\x10", "\\x11", "\\x12", "\\x13", "\\x14", "\\x15", "\\x16", "\\x17",
    "\\x18", "\\x19", "\\x1a", "\\x1b", "\\x1c", "\\x1d", "\\x1e", "\\x1f"
  ]

  /** The code points the escaping pattern matches: 0x00..0x1F, 0x5C, 0x7F. */
  predicate NeedsEscape(c: char) {
    c as int < 0x20 || c == '\\' || c as int == 0x7F
  }

  /** A raw control code point: C0 or DEL. */
  predicate IsControl(c: char) {
    c as int < 0x20 || c as int == 0x7F
  }

  /** Lower-case hexadecimal digit for `d`. */
  function HexDigit(d: nat): (c: char)
    requires d < 16
    ensures IsHexDigit(c) && HexValue(c) == d
  {
    if d < 10 then ('0' as int + d) as char else ('a' as int + d - 10) as char
  }

  predicate IsHexDigit(c: char) {
    '0' <= c <= '9' || 'a' <= c <= 'f'
  }

  function HexValue(c: char): nat
    requires IsHexDigit(c)
  {
    if c <= '9' then c as int - '0' as int else c as int - 'a' as int + 10
  }

  /** The generic Python-style escape `\xHH` for a code point below 0x100. */
  function HexEscape(n: nat): string
    requires n < 0x100
  {
    "\\x" + [HexDigit(n / 16), HexDigit(n % 16)]
  }

  /** Reference form of the escape of a matched code point: the short forms
      for TAB, LF, CR and backslash, `\xHH` for every other one. */
  function CanonicalEscape(c: char): string
    requires NeedsEscape(c)
  {
    if c == '\t' then "\\t"
    else if c == '\n' then "\\n"
    else if c == '\r' then "\\r"
    else if c == '\\' then "\\\\"
    else HexEscape(c as int)
  }

  /** The table spelled out in the source is the reference form at each index. */
  lemma ReplacementTableIsCanonical()
    ensures |ReplacementTable| == 0x20
    ensures forall i :: 0 <= i < 0x20 ==> ReplacementTable[i] == CanonicalEscape(i as char)
  {
    forall i | 0 <= i < 0x20 ensures ReplacementTable[i] == CanonicalEscape(i as char) {
      if i < 8 { TableRows0(i); }
      else if i < 16 { TableRows1(i); }
      else if i < 24 { TableRows2(i); }
      else { TableRows3(i); }
    }
  }

  lemma TableRows0(i: nat)
    requires i < 8
    ensures ReplacementTable[i] == CanonicalEscape(i as char)
  {
    if i == 0 {} else if i == 1 {} else if i == 2 {} else if i == 3 {}
    else if i == 4 {} else if i == 5 {} else if i == 6 {} else {}
  }

  lemma TableRows1(i: nat)
    requires 8 <= i < 16
    ensures ReplacementTable[i] == CanonicalEscape(i as char)
  {
    if i == 8 {} else if i == 9 {} else if i == 10 {} else if i == 11 {}
    else if i == 12 {} else if i == 13 {} else if i == 14 {} else {}
  }

  lemma TableRows2(i: nat)
    requires 16 <= i < 24
    ensures ReplacementTable[i] == CanonicalEscape(i as char)
  {
    if i == 16 {} else if i == 17 {} else if i == 18 {} else if i == 19 {}
    else if i == 20 {} else if i == 21 {} else if i == 22 {} else {}
  }

  lemma TableRows3(i: nat)
    requires 24 <= i < 32
    ensures ReplacementTable[i] == CanonicalEscape(i as char)
  {
    if i == 24 {} else if i == 25 {} else if i == 26 {} else if i == 27 {}
    else if i == 28 {} else if i == 29 {} else if i == 30 {} else {}
  }

  /** The replacement `replacer` returns for one code point (or the code
      point itself when the pattern does not match it). */
  function EscapeChar(c: char): (r: string)
    ensures NeedsEscape(c) ==> r == CanonicalEscape(c)
    ensures !NeedsEscape(c) ==> r == [c]
  {
    if c as int == 0x7F then "\\x7f"
    else if c == '\\' then "\\\\"
    else if c as int < 0x20 then
      ReplacementTableIsCanonical();
      ReplacementTable[c as int]
    else [c]
  }

  /** `escape_unicode_string(u)`: one left-to-right pass, each code point
      replaced by its escape. */
  function Escape(s: string): (r: string)
    ensures |r| >= |s|
  {
    if s == [] then [] else EscapeChar(s[0]) + Escape(s[1..])
  }

  /** Decoding an escaped string: the inverse the escaper is designed for.
      `None` for a string the escaper cannot have produced. */
  function Unescape(t: string): Option<string>
    decreases |t|
  {
    if t == [] then Some([])
    else
      var (c, used) :=
        if t[0] != '\\' then (Some(t[0]), 1)
        else if |t| >= 2 && t[1] == '\\' then (Some('\\'), 2)
        else if |t| >= 2 && t[1] == 't' then (Some('\t'), 2)
        else if |t| >= 2 && t[1] == 'n' then (Some('\n'), 2)
        else if |t| >= 2 && t[1] == 'r' then (Some('\r'), 2)
        else if |t| >= 4 && t[1] == 'x' && IsHexDigit(t[2]) && IsHexDigit(t[3])
        then (Some((16 * HexValue(t[2]) + HexValue(t[3])) as char), 4)
        else (None, 1);
      match (c, Unescape(t[used..]))
      case (Some(x), Some(rest)) => Some([x] + rest)
      case _ => None
  }

  lemma UnescapeOne(c: char, rest: string)
    ensures Unescape(EscapeChar(c) + rest) == match Unescape(rest) case Some(r) => Some([c] + r) case None => None
  {
    if !NeedsEscape(c) {
      UnescapePlain(c, rest);
    } else if c == '\t' || c == '\n' || c == '\r' || c == '\\' {
      UnescapeShort(c, rest);
    } else {
      UnescapeHex(c, rest);
    }
  }

  lemma UnescapePlain(c: char, rest: string)
    requires !NeedsEscape(c)
    ensures Unescape(EscapeChar(c) + rest) == match Unescape(rest) case Some(r) => Some([c] + r) case None => None
  {
    var t := [c] + rest;
    assert t[0] == c && t[1..] == rest;
  }

  lemma UnescapeShort(c: char, rest: string)
    requires c == '\t' || c == '\n' || c == '\r' || c == '\\'
    ensures Unescape(EscapeChar(c) + rest) == match Unescape(rest) case Some(r) => Some([c] + r) case None => None
  {
    var t := EscapeChar(c) + rest;
    assert t[0] == '\\' && t[2..] == rest;
  }

  lemma UnescapeHex(c: char, rest: string)
    requires NeedsEscape(c) && !(c == '\t' || c == '\n' || c == '\r' || c == '\\')
    ensures Unescape(EscapeChar(c) + rest) == match Unescape(rest) case Some(r) => Some([c] + r) case None => None
  {
    var n := c as int;
    var t := EscapeChar(c) + rest;
    assert EscapeChar(c) == HexEscape(n);
    assert t[0] == '\\' && t[1] == 'x' && t[2] == HexDigit(n / 16) && t[3] == HexDigit(n % 16);
    assert (16 * (n / 16) + n % 16) as char == c;
    assert t[4..] == rest;
  }

  /** Round trip: unescaping the escaped string gives back the original, so
      the escaper loses nothing and no two inputs print alike. */
  lemma {:induction false} UnescapeEscape(s: string)
    ensures Unescape(Escape(s)) == Some(s)
  {
    if s != [] {
      UnescapeEscape(s[1..]);
      UnescapeOne(s[0], Escape(s[1..]));
      assert [s[0]] + s[1..] == s;
    }
  }

  /** Every escape is printable: no raw C0 code point and no DEL survives. */
  lemma {:induction false} EscapeHasNoControl(s: string)
    ensures forall k :: 0 <= k < |Escape(s)| ==> !IsControl(Escape(s)[k])
  {
    if s != [] {
      EscapeHasNoControl(s[1..]);
      EscapeCharPrintable(s[0]);
      var e, r := EscapeChar(s[0]), Escape(s[1..]);
      assert Escape(s) == e + r;
      forall k | 0 <= k < |e + r|
        ensures !IsControl((e + r)[k])
      {
        if k < |e| {
          assert (e + r)[k] == e[k];
        } else {
          assert (e + r)[k] == r[k - |e|];
        }
      }
    }
  }

  /** The escape of a single code point is printable. */
  lemma EscapeCharPrintable(c: char)
    ensures forall k :: 0 <= k < |EscapeChar(c)| ==> !IsControl(EscapeChar(c)[k])
  {
    if NeedsEscape(c) && !(c == '\t' || c == '\n' || c == '\r' || c == '\\') {
      var n := c as int;
      assert EscapeChar(c) == ['\\', 'x', HexDigit(n / 16), HexDigit(n % 16)];
    }
  }

  /** Escaping never shortens the text, and leaves it the same length exactly
      when no code point needed escaping; in that case the text is unchanged. */
  lemma {:induction false} EscapeLength(s: string)
    ensures |Escape(s)| >= |s|
    ensures |Escape(s)| == |s| <==> forall k :: 0 <= k < |s| ==> !NeedsEscape(s[k])
    ensures (forall k :: 0 <= k < |s| ==> !NeedsEscape(s[k])) ==> Escape(s) == s
  {
    if s != [] {
      EscapeLength(s[1..]);
      assert forall k :: 1 <= k < |s| ==> s[k] == s[1..][k - 1];
      assert s == [s[0]] + s[1..];
    }
  }

  /** Escaping works code point by code point, in order. */
  lemma {:induction false} EscapeAppend(a: string, b: string)
    ensures Escape(a + b) == Escape(a) + Escape(b)
  {
    if a == [] {
      assert a + b == b;
    } else {
      assert (a + b)[0] == a[0] && (a + b)[1..] == a[1..] + b;
      EscapeAppend(a[1..], b);
    }
  }
}
