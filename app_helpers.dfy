/**
 * The pure expressions of the client component (web/src/App.tsx): the file
 * extension regex, the progress percentage, the download filename regex and
 * the share link.
 */
module AppHelpers {
  import opened Common
  import opened UriComponent

  // ---------------------------------------------------------------------------
  // File extension: `file.name.match(/\.([a-zA-Z0-9]+)$/)`
  // ---------------------------------------------------------------------------

  /** The longest suffix of `s` made of `[a-zA-Z0-9]` characters. */
  function AlnumSuffix(s: string): (r: string)
    ensures |r| <= |s| && r == s[|s| - |r|..]
    ensures AllAlnum(r)
    ensures |r| < |s| ==> !IsAlnum(s[|s| - |r| - 1])
  {
    if s == [] || !IsAlnum(s[|s| - 1]) then []
    else
      var init := s[..|s| - 1];
      var r := AlnumSuffix(init) + [s[|s| - 1]];
      assert s == init + [s[|s| - 1]];
      r
  }

  /** The regex `\.([a-zA-Z0-9]+)$` matches `name` starting at index `i`. */
  ghost predicate ExtMatchesAt(name: string, i: int) {
    0 <= i < |name| - 1 && name[i] == '.' && AllAlnum(name[i + 1..])
  }

  /** The capture group of `\.([a-zA-Z0-9]+)$` on `name`, or `None` when it does not match. */
  function ExtMatch(name: string): Option<string> {
    var run := AlnumSuffix(name);
    if run != [] && |run| < |name| && name[|name| - |run| - 1] == '.' then Some(run) else None
  }

  /**
   * ExtMatch agrees with the regex: the regex matches at exactly one index,
   * the one before the returned capture, and the capture is the rest of the
   * name; when ExtMatch finds nothing the regex matches nowhere.
   */
  lemma ExtMatchIsRegexMatch(name: string, i: int)
    ensures ExtMatchesAt(name, i) <==>
              ExtMatch(name).Some? && i == |name| - |ExtMatch(name).value| - 1
    ensures ExtMatch(name).Some? ==> ExtMatch(name).value == name[|name| - |ExtMatch(name).value|..]
  {
  }

  /** `extMatch ? extMatch[1] : ""`: the extension kept for the share link. */
  function FileExt(name: string): string {
    match ExtMatch(name)
    case Some(e) => e
    case None => ""
  }

  /**
   * A non-empty extension is alphanumeric (so holds no `.`), and the name is
   * some stem followed by `.` and the extension; conversely every such name
   * yields exactly that extension, however many dots the stem holds.
   */
  lemma FileExtShape(name: string)
    ensures var e := FileExt(name);
      e != "" ==> AllAlnum(e) && '.' !in e && name == name[..|name| - |e| - 1] + "." + e
  {
    var e := FileExt(name);
    if e != "" {
      assert forall j :: 0 <= j < |e| ==> e[j] != '.' by {
        forall j | 0 <= j < |e| ensures e[j] != '.' {
          assert IsAlnum(e[j]);
        }
      }
      assert name == name[..|name| - |e| - 1] + [name[|name| - |e| - 1]] + name[|name| - |e|..];
    }
  }

  lemma FileExtOfDottedName(stem: string, e: string)
    requires e != [] && AllAlnum(e)
    ensures FileExt(stem + "." + e) == e
  {
    var name := stem + "." + e;
    ExtMatchIsRegexMatch(name, |stem|);
    assert name[|stem|] == '.';
    assert name[|stem| + 1..] == e;
  }

  /** A name whose last character is not alphanumeric, or that holds no `.`, has no extension. */
  lemma FileExtAbsent(name: string)
    requires (name != [] && !IsAlnum(name[|name| - 1])) || '.' !in name
    ensures FileExt(name) == ""
  {
    if ExtMatch(name).Some? {
      ExtMatchIsRegexMatch(name, |name| - |ExtMatch(name).value| - 1);
    }
  }

  /** `archive.tar.gz`: the last dot-suffix wins. */
  lemma FileExtOfArchive()
    ensures FileExt("archive.tar.gz") == "gz"
  {
    FileExtOfDottedName("archive.tar", "gz");
    assert "archive.tar" + "." + "gz" == "archive.tar.gz";
  }

  /** `a.b-c`: the characters after the last dot are not all alphanumeric. */
  lemma FileExtOfHyphenated()
    ensures FileExt("a.b-c") == ""
  {
    var n := "a.b-c";
    if ExtMatch(n).Some? {
      ExtMatchIsRegexMatch(n, 1);
    }
  }

  // ---------------------------------------------------------------------------
  // Upload progress: `Math.round((event.loaded / event.total) * 100)`
  // ---------------------------------------------------------------------------

  /**
   * `Math.round(loaded / total * 100)` in exact arithmetic: 100·loaded/total
   * rounded to the nearest integer, halves rounded up.
   */
  function ProgressPercent(loaded: nat, total: nat): (p: nat)
    requires total > 0
  {
    (200 * loaded + total) / (2 * total)
  }

  /** ProgressPercent is the integer nearest to 100·loaded/total, ties going up. */
  lemma ProgressIsRoundHalfUp(loaded: nat, total: nat)
    requires total > 0
    ensures var p := ProgressPercent(loaded, total);
      2 * total * p <= 200 * loaded + total < 2 * total * (p + 1)
  {
    var a, b := 200 * loaded + total, 2 * total;
    var q, r := a / b, a % b;
    assert a == b * q + r && 0 <= r < b;
  }

  /** No integer other than ProgressPercent satisfies the round-half-up bounds. */
  lemma ProgressRoundingUnique(loaded: nat, total: nat, p: int)
    requires total > 0
    requires 2 * total * p <= 200 * loaded + total < 2 * total * (p + 1)
    ensures p == ProgressPercent(loaded, total)
  {
    var q := ProgressPercent(loaded, total);
    ProgressIsRoundHalfUp(loaded, total);
    if p < q {
      MulMonotone(2 * total, p + 1, q);
      assert false;
    } else if q < p {
      MulMonotone(2 * total, q + 1, p);
      assert false;
    }
  }

  lemma MulMonotone(k: nat, x: int, y: int)
    requires x <= y
    ensures k * x <= k * y
  {
    assert k * y - k * x == k * (y - x);
  }

  /** While no more than the total has been sent the percentage lies in [0, 100]. */
  lemma ProgressBounded(loaded: nat, total: nat)
    requires 0 < total && loaded <= total
    ensures ProgressPercent(loaded, total) <= 100
  {
    var p := ProgressPercent(loaded, total);
    ProgressIsRoundHalfUp(loaded, total);
    if p > 100 {
      MulMonotone(2 * total, 101, p);
      assert false;
    }
  }

  /** Sending more never lowers the percentage. */
  lemma ProgressMonotone(l1: nat, l2: nat, total: nat)
    requires total > 0 && l1 <= l2
    ensures ProgressPercent(l1, total) <= ProgressPercent(l2, total)
  {
    var p1, p2 := ProgressPercent(l1, total), ProgressPercent(l2, total);
    ProgressIsRoundHalfUp(l1, total);
    ProgressIsRoundHalfUp(l2, total);
    if p2 < p1 {
      MulMonotone(2 * total, p2 + 1, p1);
      assert false;
    }
  }

  /** Nothing sent is 0%; everything sent is 100%. */
  lemma ProgressEnds(total: nat)
    requires total > 0
    ensures ProgressPercent(0, total) == 0
    ensures ProgressPercent(total, total) == 100
  {
    ProgressRoundingUnique(0, total, 0);
    ProgressRoundingUnique(total, total, 100);
  }

  // ---------------------------------------------------------------------------
  // Download filename: `disposition.match(/filename="?([^"]+)"?/)`
  // ---------------------------------------------------------------------------

  const FilenameKey := "filename="
  const DefaultFilename := "downloaded_file"

  /**
   * The capture of `filename="?([^"]+)"?` when the match must start at the
   * first character of `s`: after `filename=` an optional quote, then the
   * longest run of non-quote characters, which must not be empty (when the
   * quote is taken and no character follows, leaving the quote out does not
   * help, since `[^"]` cannot match it).
   */
  function CaptureAtStart(s: string): Option<string> {
    if |s| < |FilenameKey| || s[..|FilenameKey|] != FilenameKey then None
    else
      var t := s[|FilenameKey|..];
      var run := if t != [] && t[0] == '"' then PrefixBefore(t[1..], '"') else PrefixBefore(t, '"');
      if run == [] then None else Some(run)
  }

  /** JavaScript's `String.prototype.match` without the `g` flag: the leftmost match. */
  function FilenameCapture(s: string): (r: Option<string>)
    ensures r.Some? ==> r.value != [] && '"' !in r.value
    ensures r.Some? ==> exists i :: 0 <= i <= |s| && CaptureAtStart(s[i..]) == r
    ensures r.None? ==> forall i :: 0 <= i <= |s| ==> CaptureAtStart(s[i..]).None?
  {
    if |s| < |FilenameKey| then
      assert forall i :: 0 <= i <= |s| ==> |s[i..]| < |FilenameKey|;
      None
    else if CaptureAtStart(s).Some? then
      assert s[0..] == s;
      CaptureAtStart(s)
    else
      var r := FilenameCapture(s[1..]);
      assert forall i :: 1 <= i <= |s| ==> s[1..][i - 1..] == s[i..];
      assert s[0..] == s;
      r
  }

  /** A header that starts with `prefix` then `filename=` and the value yields the value. */
  lemma CaptureAfter(prefix: string, quoted: bool, v: string)
    requires v != [] && '"' !in v
    requires forall i :: 0 <= i < |prefix| ==> prefix[i] != 'f'
    ensures FilenameCapture(prefix + FilenameKey + (if quoted then "\"" + v + "\"" else v)) == Some(v)
    decreases |prefix|
  {
    var tail := if quoted then "\"" + v + "\"" else v;
    var s := prefix + FilenameKey + tail;
    if prefix == [] {
      assert s[..|FilenameKey|] == FilenameKey;
      var t := s[|FilenameKey|..];
      assert t == tail;
      if quoted {
        assert t[1..] == v + "\"";
        PrefixBeforeStops(v, '"', "");
        assert v + "\"" == v + ['"'] + "";
      } else {
        PrefixBeforeUnique(t, '"', v);
      }
    } else {
      assert s[0] == prefix[0] != FilenameKey[0];
      assert CaptureAtStart(s).None?;
      assert s[1..] == prefix[1..] + FilenameKey + tail;
      CaptureAfter(prefix[1..], quoted, v);
    }
  }

  /**
   * How the client names a downloaded file (App.tsx lines 131-136): the
   * default when the `Content-Disposition` header is missing or empty or the
   * regex finds nothing, otherwise the percent-decoded capture; `None` when
   * `decodeURIComponent` throws.
   */
  function ResolveFilename(disposition: Option<string>): Option<string> {
    if !Truthy(disposition) then Some(DefaultFilename)
    else match FilenameCapture(disposition.value)
      case None => Some(DefaultFilename)
      case Some(c) => DecodeUriComponent(c)
  }

  /** The outcomes of ResolveFilename, one per branch of the source. */
  lemma ResolveFilenameCases(disposition: Option<string>)
    ensures !Truthy(disposition) ==> ResolveFilename(disposition) == Some(DefaultFilename)
    ensures (Truthy(disposition) && forall i :: 0 <= i <= |disposition.value| ==>
               CaptureAtStart(disposition.value[i..]).None?)
            ==> ResolveFilename(disposition) == Some(DefaultFilename)
    ensures Truthy(disposition) ==>
              forall i, c :: (0 <= i <= |disposition.value| &&
                              CaptureAtStart(disposition.value[i..]) == Some(c) &&
                              forall j :: 0 <= j < i ==> CaptureAtStart(disposition.value[j..]).None?)
                             ==> ResolveFilename(disposition) == DecodeUriComponent(c)
  {
    if Truthy(disposition) {
      var s := disposition.value;
      forall i, c | 0 <= i <= |s| && CaptureAtStart(s[i..]) == Some(c) &&
                    (forall j :: 0 <= j < i ==> CaptureAtStart(s[j..]).None?)
        ensures ResolveFilename(disposition) == DecodeUriComponent(c)
      {
        LeftmostCapture(s, i);
      }
    }
  }

  /** FilenameCapture returns the capture at the leftmost index where the regex matches. */
  lemma {:induction false} LeftmostCapture(s: string, i: nat)
    requires i <= |s| && CaptureAtStart(s[i..]).Some?
    requires forall j :: 0 <= j < i ==> CaptureAtStart(s[j..]).None?
    ensures FilenameCapture(s) == CaptureAtStart(s[i..])
    decreases i
  {
    assert s[0..] == s;
    if i > 0 {
      assert CaptureAtStart(s).None?;
      forall j | 0 <= j < i - 1 ensures CaptureAtStart(s[1..][j..]).None? {
        assert s[1..][j..] == s[j + 1..];
      }
      assert s[1..][i - 1..] == s[i..];
      LeftmostCapture(s[1..], i - 1);
    }
  }

  const AttachmentPrefix := "attachment; "

  /**
   * A `Content-Disposition` of the form `attachment; filename=<v>` or
   * `attachment; filename="<v>"`, with `v` non-empty and quote-free, resolves
   * to the percent-decoding of `v`.
   */
  lemma ResolveAttachment(quoted: bool, v: string)
    requires v != [] && '"' !in v
    ensures ResolveFilename(Some(AttachmentPrefix + FilenameKey + (if quoted then "\"" + v + "\"" else v)))
            == DecodeUriComponent(v)
  {
    CaptureAfter(AttachmentPrefix, quoted, v);
  }

  lemma ResolveReportExample()
    ensures ResolveFilename(Some(AttachmentPrefix + FilenameKey + "\"report.pdf\"")) == Some("report.pdf")
  {
    var v := "report.pdf";
    assert "\"report.pdf\"" == "\"" + v + "\"";
    ResolveAttachment(true, v);
    DecodeWithoutEscapes(v);
  }

  // ---------------------------------------------------------------------------
  // Share link and upload headers
  // ---------------------------------------------------------------------------

  /** `${window.location.origin}/deaddrop/${pickupKey}.${fileExt}` */
  function ShareLink(origin: string, key: string, ext: string): string {
    origin + "/deaddrop/" + key + "." + ext
  }

  /** The `Content-Disposition` header the client sends with an upload. */
  function UploadDisposition(name: string): string
    requires IsAscii(name)
  {
    "attachment; filename=\"" + EncodeUriComponent(name) + "\""
  }
}
