/** Values and text helpers shared by the client and the server model. */
module Common {

  /** A value that may be absent: JavaScript's `null`/`undefined`, Go's "not set". */
  datatype Option<+T> = None | Some(value: T)

  /** One byte of a request or response body. */
  newtype byte = x: int | 0 <= x < 256

  /** The character class `[a-zA-Z0-9]`. */
  predicate IsAlnum(c: char) {
    ('a' <= c <= 'z') || ('A' <= c <= 'Z') || ('0' <= c <= '9')
  }

  predicate AllAlnum(s: string) {
    forall i :: 0 <= i < |s| ==> IsAlnum(s[i])
  }

  /** Every character is in the 7-bit ASCII range. */
  predicate IsAscii(s: string) {
    forall i :: 0 <= i < |s| ==> s[i] as int < 0x80
  }

  /** JavaScript truthiness of a `string | null`: present and non-empty. */
  predicate Truthy(o: Option<string>) {
    o.Some? && o.value != ""
  }

  /**
   * The text of `s` before the first occurrence of `stop`, or all of `s`
   * when `stop` does not occur: the longest prefix free of `stop`.
   */
  function PrefixBefore(s: string, stop: char): (r: string)
    ensures r <= s
    ensures stop !in r
    ensures |r| < |s| ==> s[|r|] == stop
  {
    if s == [] || s[0] == stop then [] else [s[0]] + PrefixBefore(s[1..], stop)
  }

  /** The three properties of PrefixBefore determine it. */
  lemma PrefixBeforeUnique(s: string, stop: char, p: string)
    requires p <= s && stop !in p
    requires |p| < |s| ==> s[|p|] == stop
    ensures PrefixBefore(s, stop) == p
  {
  }

  /** A prefix free of `stop` followed by `stop` is what PrefixBefore finds. */
  lemma PrefixBeforeStops(p: string, stop: char, rest: string)
    requires stop !in p
    ensures PrefixBefore(p + [stop] + rest, stop) == p
  {
    PrefixBeforeUnique(p + [stop] + rest, stop, p);
  }
}
