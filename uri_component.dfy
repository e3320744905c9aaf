/**
 * The browser's `encodeURIComponent` and `decodeURIComponent`, restricted to
 * the 7-bit ASCII range: each character is one byte, and a byte is escaped as
 * `%` followed by two hexadecimal digits (percent-encoding, section 2.1 of
 * RFC 3986).
 */
module UriComponent {
  import opened Common

  /** Characters `encodeURIComponent` leaves as they are: `A-Z a-z 0-9 - _ . ! ~ * ' ( )`. */
  predicate IsUnreserved(c: char) {
    IsAlnum(c) || c in "-_.!~*'()"
  }

  predicate IsHexDigit(c: char) {
    ('0' <= c <= '9') || ('a' <= c <= 'f') || ('A' <= c <= 'F')
  }

  /** The value of a hexadecimal digit, either case. */
  function HexValue(c: char): (v: nat)
    requires IsHexDigit(c)
    ensures v < 16
  {
    if '0' <= c <= '9' then c as int - '0' as int
    else if 'a' <= c <= 'f' then c as int - 'a' as int + 10
    else c as int - 'A' as int + 10
  }

  /** The upper-case digit `encodeURIComponent` writes for `n`. */
  function HexDigit(n: nat): (c: char)
    requires n < 16
    ensures IsHexDigit(c) && HexValue(c) == n
    ensures c != '"' && c != '%'
  {
    if n < 10 then ('0' as int + n) as char else ('A' as int + n - 10) as char
  }

  /** The encoding of one ASCII character. */
  function EncodeChar(c: char): (e: string)
    requires c as int < 0x80
  {
    if IsUnreserved(c) then [c]
    else ['%', HexDigit(c as int / 16), HexDigit(c as int % 16)]
  }

  /**
   * `encodeURIComponent` on ASCII text. The result is made of unreserved
   * characters and escapes only; in particular it holds no `"` and is empty
   * only when the input is.
   */
  function EncodeUriComponent(s: string): (e: string)
    requires IsAscii(s)
    ensures '"' !in e
    ensures e == [] <==> s == []
    ensures forall i :: 0 <= i < |e| ==> IsUnreserved(e[i]) || IsHexDigit(e[i]) || e[i] == '%'
  {
    if s == [] then [] else EncodeChar(s[0]) + EncodeUriComponent(s[1..])
  }

  function Prepend(c: char, r: Option<string>): Option<string> {
    if r.Some? then Some([c] + r.value) else None
  }

  /**
   * `decodeURIComponent`: `None` where the browser throws `URIError`, that is
   * on a `%` not followed by two hexadecimal digits. An escape of a byte
   * 0x80 or above (part of a UTF-8 sequence) is outside this ASCII model and
   * also yields `None`.
   */
  function DecodeUriComponent(s: string): (r: Option<string>)
    decreases |s|
  {
    if s == [] then Some([])
    else if s[0] != '%' then Prepend(s[0], DecodeUriComponent(s[1..]))
    else if |s| < 3 || !IsHexDigit(s[1]) || !IsHexDigit(s[2]) then None
    else
      var b := 16 * HexValue(s[1]) + HexValue(s[2]);
      if b >= 0x80 then None else Prepend(b as char, DecodeUriComponent(s[3..]))
  }

  /** Decoding undoes one encoded character. */
  lemma DecodeEncodeChar(c: char, t: string)
    requires c as int < 0x80
    ensures DecodeUriComponent(EncodeChar(c) + t) == Prepend(c, DecodeUriComponent(t))
  {
    var e := EncodeChar(c) + t;
    if !IsUnreserved(c) {
      var hi, lo := c as int / 16, c as int % 16;
      assert e[0] == '%' && e[1] == HexDigit(hi) && e[2] == HexDigit(lo);
      assert e[3..] == t;
      assert (16 * hi + lo) as char == c;
    } else {
      assert e[1..] == t;
    }
  }

  /** Percent-decoding inverts percent-encoding on ASCII text. */
  lemma {:induction false} DecodeEncode(s: string)
    requires IsAscii(s)
    ensures DecodeUriComponent(EncodeUriComponent(s)) == Some(s)
  {
    if s != [] {
      assert IsAscii(s[1..]) by {
        forall i | 0 <= i < |s[1..]| ensures s[1..][i] as int < 0x80 {
          assert s[1..][i] == s[i + 1];
        }
      }
      DecodeEncode(s[1..]);
      DecodeEncodeChar(s[0], EncodeUriComponent(s[1..]));
      assert [s[0]] + s[1..] == s;
    }
  }

  /** Text without `%` decodes to itself. */
  lemma {:induction false} DecodeWithoutEscapes(s: string)
    requires '%' !in s
    ensures DecodeUriComponent(s) == Some(s)
  {
    if s != [] {
      assert '%' !in s[1..] by {
        forall i | 0 <= i < |s[1..]| ensures s[1..][i] != '%' {
          assert s[1..][i] == s[i + 1];
        }
      }
      DecodeWithoutEscapes(s[1..]);
      assert [s[0]] + s[1..] == s;
    }
  }
}
