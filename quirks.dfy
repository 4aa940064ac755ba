/** What `CreateWindowAsync` does to its arguments before emitting them: the
    localhost URL gains the web port, and on Windows 10 the window geometry is
    padded to work around electron/electron issue 4045. */
module Quirks {
  import opened Int32Text
  import opened Strings
  import opened Protocol

  const DEFAULT_LOAD_URL: string := "http://localhost"
  const LOCALHOST_UPPER: string := "HTTP://LOCALHOST"
  const WINDOWS_10: string := "Windows 10"

  const WIDTH_DELTA: Int32 := 14
  const HEIGHT_DELTA: Int32 := 7
  const X_DELTA: Int32 := 7

  /** `isWindows10()`, given the value of `RuntimeInformation.OSDescription`:
      the description mentions `Windows 10` somewhere. */
  function IsWindows10(osDescription: string): (r: bool)
    ensures r <==> exists i :: OccursAt(osDescription, WINDOWS_10, i)
  {
    Contains(osDescription, WINDOWS_10)
  }

  /** `loadUrl.ToUpper() == "HTTP://LOCALHOST"`. */
  predicate IsLocalhost(loadUrl: string)
  {
    Upper(loadUrl) == LOCALHOST_UPPER
  }

  /** The URL that is emitted: a bare localhost URL, in whatever case it was
      written, gets `:` and the web port appended; any other URL is sent as
      given. */
  function LoadUrlFor(loadUrl: string, webPort: string): string
  {
    if IsLocalhost(loadUrl) then loadUrl + ":" + webPort else loadUrl
  }

  /** The options' geometry after `CreateWindowAsync` has adjusted it in place. */
  function Compensated(b: Bounds, windows10: bool): Bounds
  {
    var width := if windows10 then Add32(b.width, WIDTH_DELTA) else b.width;
    var height := if windows10 then Add32(b.height, HEIGHT_DELTA) else b.height;
    if b.x == -1 && b.y == -1 then Bounds(width, height, 0, 0)
    else Bounds(width, height, if windows10 then Add32(b.x, -X_DELTA) else b.x, b.y)
  }

  /** The serializer the options are written with: the manager's field
      serializer on the unset-position branch, the inline one otherwise. */
  function SerializerFor(b: Bounds): SerializerConfig
  {
    if b.x == -1 && b.y == -1 then FIELD_SERIALIZER else INLINE_SERIALIZER
  }

  /** `c` is `lower` written in either case, as seen by an upper-casing
      comparison. */
  predicate SameIgnoringCase(c: char, lower: char)
  {
    c == lower
    || ('a' <= lower <= 'z' && c as int == lower as int - 32)
    || (lower == 's' && c == '\U{17F}')
  }

  lemma UpperCharMatches(c: char, lower: char)
    requires ('a' <= lower <= 'z' && lower != 'i') || lower == ':' || lower == '/'
    ensures UpperChar(c) == UpperChar(lower) <==> SameIgnoringCase(c, lower)
  {
  }

  /** The localhost test accepts exactly the 16-character strings that spell
      `http://localhost` in any mix of cases. */
  lemma IsLocalhostCharacterised(loadUrl: string)
    ensures IsLocalhost(loadUrl) <==>
      |loadUrl| == |DEFAULT_LOAD_URL| &&
      forall i | 0 <= i < |loadUrl| :: SameIgnoringCase(loadUrl[i], DEFAULT_LOAD_URL[i])
  {
    var d := DEFAULT_LOAD_URL;
    forall i | 0 <= i < |d|
      ensures UpperChar(d[i]) == LOCALHOST_UPPER[i]
      ensures ('a' <= d[i] <= 'z' && d[i] != 'i') || d[i] == ':' || d[i] == '/'
    {
    }
    if |loadUrl| == |d| {
      forall i | 0 <= i < |loadUrl|
        ensures Upper(loadUrl)[i] == LOCALHOST_UPPER[i] <==> SameIgnoringCase(loadUrl[i], d[i])
      {
        UpperCharMatches(loadUrl[i], d[i]);
      }
      if IsLocalhost(loadUrl) {
        forall i | 0 <= i < |loadUrl| ensures SameIgnoringCase(loadUrl[i], d[i]) {
          assert Upper(loadUrl)[i] == LOCALHOST_UPPER[i];
        }
      }
    }
  }

  /** The default URL is rewritten to the web port. */
  lemma DefaultLoadUrlGetsPort(webPort: string)
    ensures LoadUrlFor(DEFAULT_LOAD_URL, webPort) == "http://localhost:" + webPort
  {
    var d := DEFAULT_LOAD_URL;
    assert forall i | 0 <= i < |d| :: SameIgnoringCase(d[i], DEFAULT_LOAD_URL[i]);
    IsLocalhostCharacterised(d);
    assert d + ":" == "http://localhost:";
  }

  /** The rewrite keeps the URL as written and is never applied twice: a
      rewritten URL is longer than the localhost literal. */
  lemma LoadUrlForIdempotent(loadUrl: string, webPort: string)
    ensures LoadUrlFor(loadUrl, webPort)[..|loadUrl|] == loadUrl
    ensures LoadUrlFor(LoadUrlFor(loadUrl, webPort), webPort) == LoadUrlFor(loadUrl, webPort)
  {
    if IsLocalhost(loadUrl) {
      var u := LoadUrlFor(loadUrl, webPort);
      assert |Upper(u)| == |u| > |LOCALHOST_UPPER|;
    }
  }

  /** The test ignores case. */
  lemma IsLocalhostMixedCase()
    ensures IsLocalhost("HTTP://LocalHost")
  {
    var url := "HTTP://LocalHost";
    assert forall i | 0 <= i < |url| :: SameIgnoringCase(url[i], DEFAULT_LOAD_URL[i]);
    IsLocalhostCharacterised(url);
  }

  /** A path or another scheme is not the bare localhost URL. */
  lemma IsLocalhostRejects()
    ensures !IsLocalhost("http://localhost/")
    ensures !IsLocalhost("https://localhost")
  {
    assert |Upper("https://localhost")| == 17;
    assert |Upper("http://localhost/")| == 17;
  }

  /** The platform test is a plain substring search, so it also holds for the
      description that Windows 11 reports. */
  lemma IsWindows10Examples()
    ensures IsWindows10("Microsoft Windows 10.0.19045")
    ensures IsWindows10("Microsoft Windows 10.0.22631")
    ensures !IsWindows10("Darwin 23.1.0")
  {
    assert OccursAt("Microsoft Windows 10.0.19045", WINDOWS_10, 10);
    assert OccursAt("Microsoft Windows 10.0.22631", WINDOWS_10, 10);
    var darwin := "Darwin 23.1.0";
    forall i ensures !OccursAt(darwin, WINDOWS_10, i) {
      if 0 <= i && i + |WINDOWS_10| <= |darwin| {
        assert darwin[i..i + |WINDOWS_10|][0] == darwin[i] != 'W';
      }
    }
  }

  /** On Windows 10 the window grows by 14 by 7 pixels; a position left at
      (-1, -1) becomes (0, 0), any other is moved 7 pixels left. */
  lemma CompensatedOnWindows10(b: Bounds)
    requires b.width + WIDTH_DELTA <= INT32_MAX && b.height + HEIGHT_DELTA <= INT32_MAX
    requires b.x - X_DELTA >= INT32_MIN
    ensures var r := Compensated(b, true);
      r.width == b.width + 14 && r.height == b.height + 7 &&
      (b.x == -1 && b.y == -1 ==> r.x == 0 && r.y == 0) &&
      (!(b.x == -1 && b.y == -1) ==> r.x == b.x - 7 && r.y == b.y)
  {
  }

  /** Elsewhere the size is kept and only the unset position is made (0, 0). */
  lemma CompensatedElsewhere(b: Bounds)
    ensures var r := Compensated(b, false);
      r.width == b.width && r.height == b.height &&
      (b.x == -1 && b.y == -1 ==> r.x == 0 && r.y == 0) &&
      (!(b.x == -1 && b.y == -1) ==> r.x == b.x && r.y == b.y)
  {
  }

  /** The adjustment is written back into the caller's options, so creating a
      second window from the same options object on Windows 10 applies the
      deltas again. The size always grows twice. The position moves twice
      except where the first adjustment leaves or lands on the unset
      position: (-1, -1) goes to (0, 0) and then (-7, 0), and (6, -1) goes to
      (-1, -1) and then (0, 0). */
  lemma CompensationCompoundsOnWindows10(b: Bounds)
    requires b.width + 2 * WIDTH_DELTA <= INT32_MAX && b.height + 2 * HEIGHT_DELTA <= INT32_MAX
    ensures var r := Compensated(Compensated(b, true), true);
      r.width == b.width + 28 && r.height == b.height + 14
    ensures b.x == -1 && b.y == -1 ==>
      var r := Compensated(Compensated(b, true), true); r.x == -7 && r.y == 0
    ensures b.x == 6 && b.y == -1 ==>
      var r := Compensated(Compensated(b, true), true); r.x == 0 && r.y == 0
    ensures !(b.x == -1 && b.y == -1) && !(b.x == 6 && b.y == -1) && b.x - 2 * X_DELTA >= INT32_MIN ==>
      var r := Compensated(Compensated(b, true), true); r.x == b.x - 14 && r.y == b.y
  {
  }

  /** Off Windows 10, adjusting already-adjusted options changes nothing. */
  lemma CompensationIdempotentElsewhere(b: Bounds)
    ensures Compensated(Compensated(b, false), false) == Compensated(b, false)
  {
  }
}
