/**
 * The faucet URL logic of xrpl/asyncio/wallet/wallet_generation.py:
 * `get_faucet_url`, `process_faucet_host_url` and the choice between them
 * made by `generate_faucet_wallet`.
 *
 * `urllib.parse.urlparse` and `urlunparse` are modelled after CPython 3.11
 * for ASCII text with no character at or below the space and no bracket (DEL
 * is admitted): on such text the leading strip of C0 controls and spaces and
 * the tab/CR/LF removal of `urlsplit` change nothing, and no IPv6 or Unicode
 * netloc check applies.
 */
module FaucetUrls {
  import opened Wrappers
  import opened Strings

  const TestFaucetUrl: string := "https://faucet.altnet.rippletest.net/accounts"
  const DevFaucetUrl: string := "https://faucet.devnet.rippletest.net/accounts"

  /** `_NETWORK_ID_URL_MAP`: testnet is network 1, devnet network 2. */
  const NetworkIdUrlMap: map<int, string> := map[1 := TestFaucetUrl, 2 := DevFaucetUrl]

  /** `XRPLFaucetException(message)`. */
  datatype FaucetError = FaucetError(message: string)

  // The messages are written with their first character split off, so that
  // the verifier can read that character.
  const IssuingChainMessage: string :=
    "C" + "annot fund an account on an issuing chain. Accounts must be created via the bridge."
  const MainnetMessage: string := "C" + "annot create faucet with a client on mainnet."
  const UnparsableMessage: string := "U" + "nable to parse the specified network_id."

  function UnknownNetworkMessage(networkId: int): string
  {
    "T" + "he NetworkID of the provided network ( " + IntToDecimal(networkId) + ") does not have a known faucet."
  }

  /** `get_faucet_url(network_id)`: the URL, or the exception it raises. */
  function GetFaucetUrl(networkId: int): Result<string, FaucetError>
  {
    if networkId in NetworkIdUrlMap then Success(NetworkIdUrlMap[networkId])
    else if networkId == 262 then Failure(FaucetError(IssuingChainMessage))
    else if networkId == 0 then Failure(FaucetError(MainnetMessage))
    else if networkId < 0 then Failure(FaucetError(UnparsableMessage))
    else Failure(FaucetError(UnknownNetworkMessage(networkId)))
  }

  /** Only testnet and devnet have a faucet; network 1 gets the testnet one, network 2 the devnet one. */
  lemma FaucetUrlKnownNetworks(networkId: int)
    ensures GetFaucetUrl(networkId).Success? <==> networkId == 1 || networkId == 2
    ensures networkId == 1 ==> GetFaucetUrl(networkId) == Success(TestFaucetUrl)
    ensures networkId == 2 ==> GetFaucetUrl(networkId) == Success(DevFaucetUrl)
  {
  }

  lemma UnknownNetworkMessageInjective(a: int, b: int)
    requires a > 0 && b > 0
    ensures UnknownNetworkMessage(a) == UnknownNetworkMessage(b) <==> a == b
  {
    if UnknownNetworkMessage(a) == UnknownNetworkMessage(b) {
      var p := "T" + "he NetworkID of the provided network ( ";
      var da, db := IntToDecimal(a), IntToDecimal(b);
      var sfx := ") does not have a known faucet.";
      assert UnknownNetworkMessage(a) == p + da + sfx;
      assert UnknownNetworkMessage(b) == p + db + sfx;
      assert |da| == |db|;
      assert da == UnknownNetworkMessage(a)[|p|..|p| + |da|];
      assert db == UnknownNetworkMessage(b)[|p|..|p| + |db|];
      NatToDecimalInjective(a, b);
    }
  }

  /** What tells the error messages apart: their first character, and the length of the two starting with 'C'. */
  lemma FaucetErrorMessageShape(n: int)
    requires n != 1 && n != 2
    ensures GetFaucetUrl(n).Failure?
    ensures var m := GetFaucetUrl(n).error.message;
            && |m| > 0
            && (n == 262 ==> m[0] == 'C' && |m| == 84)
            && (n == 0 ==> m[0] == 'C' && |m| == 46)
            && (n < 0 ==> m[0] == 'U')
            && (n > 0 && n != 262 ==> m[0] == 'T')
  {
  }

  /**
   * Every other network id raises, and the message tells the cases apart:
   * two ids outside {1, 2} give the same error exactly when they are equal
   * or both negative.
   */
  lemma FaucetErrorsDistinguish(a: int, b: int)
    requires a != 1 && a != 2 && b != 1 && b != 2
    ensures GetFaucetUrl(a).Failure? && GetFaucetUrl(b).Failure?
    ensures GetFaucetUrl(a) == GetFaucetUrl(b) <==> a == b || (a < 0 && b < 0)
  {
    FaucetErrorMessageShape(a);
    FaucetErrorMessageShape(b);
    if a > 0 && b > 0 && a != 262 && b != 262 {
      UnknownNetworkMessageInjective(a, b);
    }
  }

  // ---------------------------------------------------------------------------
  // urllib.parse, restricted

  /** Text on which the splitter below is `urlparse`: ASCII above the space, no bracket. */
  predicate SupportedUrlText(s: string)
  {
    forall i :: 0 <= i < |s| ==> ' ' < s[i] < 128 as char && s[i] != '[' && s[i] != ']'
  }

  /** The characters allowed in a scheme. */
  predicate IsSchemeChar(c: char)
  {
    IsAsciiLetter(c) || IsAsciiDigit(c) || c == '+' || c == '-' || c == '.'
  }

  /** `urllib.parse.uses_params`. */
  const UsesParams: set<string> :=
    {"", "ftp", "hdl", "prospero", "http", "imap", "https", "shttp", "rtsp", "rtspu", "sip", "sips", "mms",
     "sftp", "tel"}

  /** `urllib.parse.uses_netloc`. */
  const UsesNetloc: set<string> :=
    {"", "ftp", "http", "gopher", "nntp", "telnet", "imap", "wais", "file", "mms", "https", "shttp", "snews",
     "prospero", "rtsp", "rtspu", "rsync", "svn", "svn+ssh", "sftp", "nfs", "git", "git+ssh", "ws", "wss",
     "itms-services"}

  datatype ParsedUrl = ParsedUrl(scheme: string, netloc: string, path: string, params: string,
                                 query: string, fragment: string)

  /** The scheme (lower-cased) and the rest: the text before the first `:` when it is a valid scheme. */
  function SplitScheme(url: string): (string, string)
  {
    match Find(url, ":")
    case None => ("", url)
    case Some(i) =>
      if i > 0 && IsAsciiLetter(url[0]) && (forall j :: 0 <= j < i ==> IsSchemeChar(url[j]))
      then (Lower(url[..i]), url[i + 1..])
      else ("", url)
  }

  /** `s.split(c, 1)` when `c in s`, otherwise `(s, "")`. */
  function SplitAtFirst(s: string, c: char): (string, string)
  {
    var i := IndexOfAny(s, {c}, 0);
    if i == |s| then (s, "") else (s[..i], s[i + 1..])
  }

  /** `_splitnetloc(url, 2)`: the netloc runs from index 2 up to the first `/`, `?` or `#`. */
  function SplitNetloc(url: string): (string, string)
    requires StartsWith(url, "//")
  {
    var delim := IndexOfAny(url, {'/', '?', '#'}, 2);
    (url[2..delim], url[delim..])
  }

  /** `_splitparams(url)`: the params follow the first `;` after the last `/`. */
  function SplitParams(url: string): (string, string)
    requires ';' in url
  {
    match LastIndexOf(url, '/')
    case Some(j) =>
      var i := IndexOfAny(url, {';'}, j);
      if i == |url| then (url, "") else (url[..i], url[i + 1..])
    case None =>
      var i := IndexOfAny(url, {';'}, 0);
      (url[..i], url[i + 1..])
  }

  /** `urlparse(url)`. */
  function UrlParse(url: string): ParsedUrl
    requires SupportedUrlText(url)
  {
    var (scheme, rest) := SplitScheme(url);
    var (netloc, afterNetloc) := if StartsWith(rest, "//") then SplitNetloc(rest) else ("", rest);
    var (beforeFragment, fragment) := SplitAtFirst(afterNetloc, '#');
    var (path, query) := SplitAtFirst(beforeFragment, '?');
    var (path', params) := if ';' in path && scheme in UsesParams then SplitParams(path) else (path, "");
    ParsedUrl(scheme, netloc, path', params, query, fragment)
  }

  /** `urlunsplit((scheme, netloc, url, query, fragment))`. */
  function UrlUnsplit(scheme: string, netloc: string, url: string, query: string, fragment: string): string
  {
    var withNetloc :=
      if netloc != "" || (scheme != "" && scheme in UsesNetloc && !StartsWith(url, "//"))
      then "//" + netloc + (if url != "" && url[0] != '/' then "/" + url else url)
      else url;
    var withScheme := if scheme != "" then scheme + ":" + withNetloc else withNetloc;
    var withQuery := if query != "" then withScheme + "?" + query else withScheme;
    if fragment != "" then withQuery + "#" + fragment else withQuery
  }

  /** `urlunparse(parts)`. */
  function UrlUnparse(p: ParsedUrl): string
  {
    UrlUnsplit(p.scheme, p.netloc, if p.params != "" then p.path + ";" + p.params else p.path, p.query, p.fragment)
  }

  // ---------------------------------------------------------------------------
  // process_faucet_host_url

  lemma PrefixSupported(s: string, n: nat)
    requires SupportedUrlText(s) && n <= |s|
    ensures SupportedUrlText(s[..n])
  {
    assert forall i :: 0 <= i < n ==> s[..n][i] == s[i];
  }

  /**
   * The input without trailing slashes, made to carry a scheme separator:
   * kept as it is when it has `://`, with `https://` in front otherwise.
   */
  function WithScheme(input: string): (url: string)
    requires SupportedUrlText(input)
    ensures SupportedUrlText(url)
    ensures Contains(url, "://")
    ensures EndsWith(url, RStrip(input, {'/'}))
    ensures url == RStrip(input, {'/'}) || url == "https://" + RStrip(input, {'/'})
    ensures url == RStrip(input, {'/'}) <==> Contains(RStrip(input, {'/'}), "://")
  {
    var stripped := RStrip(input, {'/'});
    PrefixSupported(input, |stripped|);
    if Contains(stripped, "://") then stripped
    else
      var url := "https://" + stripped;
      assert OccursAt(url, "://", 5) by {
        assert url[5..8] == "://";
      }
      assert url[|url| - |stripped|..] == stripped;
      url
  }

  /**
   * The URL `process_faucet_host_url` rebuilds from the parts of its parsed
   * input: `https` when there is no scheme, the path as host when there is no
   * netloc, `/accounts` when the path is empty, and no params, query or fragment.
   */
  function HostUrl(parsed: ParsedUrl): string
  {
    var scheme := if parsed.scheme != "" then parsed.scheme else "https";
    var netloc := if parsed.netloc != "" then parsed.netloc else parsed.path;
    var path := if parsed.netloc != "" then parsed.path else "";
    var path' := if path == "" then "/accounts" else path;
    UrlUnparse(ParsedUrl(scheme, netloc, path', "", "", ""))
  }

  /** `process_faucet_host_url(input_url)`. */
  function ProcessFaucetHostUrl(input: string): string
    requires SupportedUrlText(input)
  {
    HostUrl(UrlParse(WithScheme(input)))
  }

  /** `generate_faucet_wallet` uses the given host when there is one, and the client's network id otherwise. */
  function FaucetUrlFor(faucetHost: Option<string>, networkId: Option<int>): Result<string, FaucetError>
    requires faucetHost.Some? ==> SupportedUrlText(faucetHost.value)
  {
    if faucetHost.Some? then Success(ProcessFaucetHostUrl(faucetHost.value))
    else if networkId.None? then
      Failure(FaucetError("Cannot create faucet URL without network_id or the faucet_host information"))
    else GetFaucetUrl(networkId.value)
  }

  // ---------------------------------------------------------------------------
  // Properties

  /** A host that is given always wins over the network id; without one, the network id decides. */
  lemma FaucetHostWins(faucetHost: Option<string>, networkId: Option<int>)
    requires faucetHost.Some? ==> SupportedUrlText(faucetHost.value)
    ensures faucetHost.Some? ==> FaucetUrlFor(faucetHost, networkId) == Success(ProcessFaucetHostUrl(faucetHost.value))
    ensures faucetHost.None? && networkId.Some? ==> FaucetUrlFor(faucetHost, networkId) == GetFaucetUrl(networkId.value)
    ensures FaucetUrlFor(faucetHost, networkId).Failure? <==>
            faucetHost.None? && (networkId.None? || (networkId.value != 1 && networkId.value != 2))
  {
  }

  /** The scheme step depends on its input only through the input without trailing slashes. */
  lemma WithSchemeOfStripped(a: string, b: string)
    requires SupportedUrlText(a) && SupportedUrlText(b)
    requires RStrip(a, {'/'}) == RStrip(b, {'/'})
    ensures WithScheme(a) == WithScheme(b)
  {
    var r := RStrip(a, {'/'});
    assert WithScheme(a) == (if Contains(r, "://") then r else "https://" + r);
  }

  /** Trailing slashes are stripped first: `"abcd.com/"` gives what `"abcd.com"` gives. */
  lemma TrailingSlashIrrelevant(s: string)
    requires SupportedUrlText(s)
    ensures SupportedUrlText(s + "/")
    ensures ProcessFaucetHostUrl(s + "/") == ProcessFaucetHostUrl(s)
  {
    assert (s + "/")[..|s|] == s;
    assert RStrip(s + "/", {'/'}) == RStrip(s, {'/'});
    WithSchemeOfStripped(s + "/", s);
  }

  lemma HttpsPrefixSupported(input: string)
    requires SupportedUrlText(input)
    ensures SupportedUrlText("https://" + input)
  {
    var t := "https://" + input;
    forall i | 0 <= i < |t| ensures ' ' < t[i] < 128 as char && t[i] != '[' && t[i] != ']' {
      if i >= 8 {
        assert t[i] == input[i - 8];
      }
    }
  }

  /** Input without `://` is read as if `https://` had been written in front of it. */
  lemma NoSchemeMeansHttps(input: string)
    requires SupportedUrlText(input)
    requires RStrip(input, {'/'}) != "" && !Contains(RStrip(input, {'/'}), "://")
    ensures SupportedUrlText("https://" + input)
    ensures ProcessFaucetHostUrl(input) == ProcessFaucetHostUrl("https://" + input)
  {
    HttpsPrefixSupported(input);
    RStripPrepend("https://", input, {'/'});
    var stripped := "https://" + RStrip(input, {'/'});
    assert WithScheme(input) == stripped;
    assert Contains(WithScheme(input), "://");
    assert WithScheme("https://" + input) == stripped;
  }

  /** A bare host name: no `/`, `?` or `#`. */
  predicate IsBareHost(h: string)
  {
    |h| > 0 && SupportedUrlText(h) && forall i :: 0 <= i < |h| ==> h[i] != '/' && h[i] != '?' && h[i] != '#'
  }

  /** None of `?` and `#` occurs in the text `t`. */
  predicate NoQueryMark(t: string)
  {
    forall i :: 0 <= i < |t| ==> t[i] != '?' && t[i] != '#'
  }

  lemma FirstColonAt(url: string, i: nat)
    requires i < |url| && url[i] == ':'
    requires forall j :: 0 <= j < i ==> url[j] != ':'
    ensures Find(url, ":") == Some(i)
  {
    assert OccursAt(url, ":", i);
    forall j: nat | j < i ensures !OccursAt(url, ":", j) {
      assert url[j..j + 1][0] == url[j];
    }
  }

  lemma NoSlashNoSeparator(h: string)
    requires forall i :: 0 <= i < |h| ==> h[i] != '/'
    ensures !Contains(h, "://")
  {
    forall j: nat ensures !OccursAt(h, "://", j) {
      if j + 3 <= |h| {
        assert h[j..j + 3][1] == h[j + 1];
      }
    }
  }

  /** A scheme made of letters followed by `:` is split off and lower-cased. */
  lemma SplitSchemeAt(url: string, i: nat)
    requires 0 < i < |url| && url[i] == ':'
    requires forall j :: 0 <= j < i ==> IsAsciiLetter(url[j])
    ensures SplitScheme(url) == (Lower(url[..i]), url[i + 1..])
  {
    FirstColonAt(url, i);
  }

  /** After `//`, the netloc is the bare host up to the next `/`, `?` or `#`. */
  lemma SplitNetlocAt(rest: string, h: string, after: string)
    requires rest == "//" + h + after
    requires forall i :: 0 <= i < |h| ==> h[i] != '/' && h[i] != '?' && h[i] != '#'
    requires after == "" || after[0] == '/' || after[0] == '?' || after[0] == '#'
    ensures StartsWith(rest, "//")
    ensures SplitNetloc(rest) == (h, after)
  {
    var delim := IndexOfAny(rest, {'/', '?', '#'}, 2);
    forall j | 2 <= j < 2 + |h| ensures rest[j] !in {'/', '?', '#'} {
      assert rest[j] == h[j - 2];
    }
    if after != "" {
      assert rest[2 + |h|] == after[0];
    }
    assert delim == 2 + |h|;
    assert rest[2..delim] == h;
    assert rest[delim..] == after;
  }

  /** The path is what comes before the first `?` or `#`. */
  lemma PathBeforeMarks(path: string, tail: string)
    requires NoQueryMark(path)
    requires tail == "" || tail[0] == '?' || tail[0] == '#'
    ensures SplitAtFirst(SplitAtFirst(path + tail, '#').0, '?').0 == path
  {
    var after := path + tail;
    var i := IndexOfAny(after, {'#'}, 0);
    forall j | 0 <= j < |path| ensures after[j] !in {'#'} && after[j] !in {'?'} {
      assert after[j] == path[j];
    }
    assert i >= |path|;
    var bf := SplitAtFirst(after, '#').0;
    assert |bf| >= |path| && bf[..|path|] == path;
    if |bf| > |path| {
      assert bf[|path|] == tail[0];
    }
    var k := IndexOfAny(bf, {'?'}, 0);
    forall j | 0 <= j < |path| ensures bf[j] !in {'?'} {
      assert bf[j] == path[j];
    }
    assert k == |path|;
  }

  /** `urlparse` of a URL with a letter scheme and a bare host. */
  lemma UrlParseOf(url: string, scheme: string, h: string, path: string, tail: string)
    requires url == scheme + "://" + h + path + tail && SupportedUrlText(url)
    requires IsLetterString(scheme)
    requires forall i :: 0 <= i < |h| ==> h[i] != '/' && h[i] != '?' && h[i] != '#'
    requires path == "" || path[0] == '/'
    requires NoQueryMark(path) && ';' !in path
    requires tail == "" || tail[0] == '?' || tail[0] == '#'
    ensures UrlParse(url).scheme == Lower(scheme)
    ensures UrlParse(url).netloc == h
    ensures UrlParse(url).path == path
  {
    assert url[..|scheme|] == scheme;
    SplitSchemeAt(url, |scheme|);
    var rest := url[|scheme| + 1..];
    assert rest == "//" + h + (path + tail);
    if path == "" {
      assert path + tail == tail;
    }
    SplitNetlocAt(rest, h, path + tail);
    PathBeforeMarks(path, tail);
  }

  /** With a scheme and a netloc, the result is `scheme://netloc` followed by the path, or by `/accounts`. */
  lemma HostUrlOf(p: ParsedUrl)
    requires p.scheme != "" && p.netloc != "" && (p.path == "" || p.path[0] == '/')
    ensures HostUrl(p) == p.scheme + "://" + p.netloc + (if p.path == "" then "/accounts" else p.path)
  {
  }

  /** Input without a scheme is a bare host: `"abcd.com"` becomes `"https://abcd.com/accounts"`. */
  lemma BareHostGetsHttpsAndAccounts(h: string)
    requires IsBareHost(h)
    ensures ProcessFaucetHostUrl(h) == "https://" + h + "/accounts"
  {
    BareHostWithScheme(h);
    BareHostParse(h);
    HostUrlOf(UrlParse("https://" + h));
  }

  /** A bare host has no `://` and no trailing `/`, so it only gets `https://` prepended. */
  lemma BareHostWithScheme(h: string)
    requires IsBareHost(h)
    ensures WithScheme(h) == "https://" + h
  {
    assert RStrip(h, {'/'}) == h;
    NoSlashNoSeparator(h);
  }

  /** `urlparse("https://" + h)` for a bare host `h`. */
  lemma BareHostParse(h: string)
    requires IsBareHost(h)
    ensures SupportedUrlText("https://" + h)
    ensures UrlParse("https://" + h).scheme == "https"
    ensures UrlParse("https://" + h).netloc == h
    ensures UrlParse("https://" + h).path == ""
  {
    var url := "https://" + h;
    assert url == "https" + "://" + h + "" + "";
    assert Lower("https") == "https";
    UrlParseOf(url, "https", h, "", "");
  }

  /**
   * An explicit scheme is kept (lower-cased), the host is the netloc, the path
   * is kept or becomes `/accounts` when empty, and any query or fragment is
   * dropped: `"HTTP://localhost:8000?x"` becomes `"http://localhost:8000/accounts"`.
   */
  lemma ExplicitSchemeUrl(scheme: string, h: string, path: string, tail: string)
    requires IsLetterString(scheme) && IsBareHost(h)
    requires path == "" || path[0] == '/'
    requires NoQueryMark(path) && ';' !in path
    requires tail == "" || tail[0] == '?' || tail[0] == '#'
    requires SupportedUrlText(scheme + "://" + h + path + tail)
    requires (scheme + "://" + h + path + tail)[|scheme + "://" + h + path + tail| - 1] != '/'
    ensures ProcessFaucetHostUrl(scheme + "://" + h + path + tail) ==
            Lower(scheme) + "://" + h + (if path == "" then "/accounts" else path)
  {
    var input := scheme + "://" + h + path + tail;
    assert RStrip(input, {'/'}) == input;
    assert OccursAt(input, "://", |scheme|) by {
      assert input[|scheme|..|scheme| + 3] == "://";
    }
    assert WithScheme(input) == input;
    UrlParseOf(input, scheme, h, path, tail);
    HostUrlOf(UrlParse(input));
  }

  lemma HttpsSpelled(h: string, path: string)
    ensures "https" + "://" + h + path + "" == "https://" + (h + path)
    ensures Lower("https") + "://" + h == "https://" + h
    ensures IsLetterString("https")
  {
    assert Lower("https") == "https";
  }

  /** Input without a scheme but with a path: `"abcd.com/x"` becomes `"https://abcd.com/x"`. */
  lemma HostAndPathGetHttps(h: string, path: string)
    requires IsBareHost(h)
    requires path == "" || path[0] == '/'
    requires NoQueryMark(path) && ';' !in path
    requires SupportedUrlText(h + path) && (h + path)[|h + path| - 1] != '/'
    requires !Contains(h + path, "://")
    ensures ProcessFaucetHostUrl(h + path) == "https://" + h + (if path == "" then "/accounts" else path)
  {
    var input := h + path;
    RStripAt(input, {'/'}, |input|);
    assert input[..|input|] == input;
    NoSchemeMeansHttps(input);
    HttpsSpelled(h, path);
    var url := "https://" + input;
    assert url[|url| - 1] == input[|input| - 1];
    ExplicitSchemeUrl("https", h, path, "");
  }

  lemma LowerKeepsSchemeChars(s: string)
    requires forall j :: 0 <= j < |s| ==> IsSchemeChar(s[j])
    ensures NoQueryMark(Lower(s))
  {
  }

  lemma SchemeHasNoMarks(url: string)
    ensures NoQueryMark(SplitScheme(url).0)
  {
    match Find(url, ":")
    case None =>
    case Some(i) =>
      if i > 0 && IsAsciiLetter(url[0]) && (forall j :: 0 <= j < i ==> IsSchemeChar(url[j])) {
        LowerKeepsSchemeChars(url[..i]);
      }
  }

  lemma NetlocHasNoMarks(rest: string)
    requires StartsWith(rest, "//")
    ensures NoQueryMark(SplitNetloc(rest).0)
  {
    var delim := IndexOfAny(rest, {'/', '?', '#'}, 2);
    forall j | 0 <= j < delim - 2 ensures rest[2..delim][j] == rest[j + 2] {
    }
  }

  /** The part before the first `c` holds no `c` and starts the text. */
  lemma SplitAtFirstHead(t: string, c: char)
    ensures var head := SplitAtFirst(t, c).0;
            |head| <= |t| && head == t[..|head|] && forall j :: 0 <= j < |head| ==> head[j] != c
  {
    var i := IndexOfAny(t, {c}, 0);
    if i < |t| {
      assert forall j :: 0 <= j < i ==> t[..i][j] == t[j];
    }
  }

  lemma PathHasNoMarks(afterNetloc: string)
    ensures NoQueryMark(SplitAtFirst(SplitAtFirst(afterNetloc, '#').0, '?').0)
  {
    var bf := SplitAtFirst(afterNetloc, '#').0;
    var path := SplitAtFirst(bf, '?').0;
    SplitAtFirstHead(afterNetloc, '#');
    SplitAtFirstHead(bf, '?');
    forall j | 0 <= j < |path| ensures path[j] != '#' {
      assert path[j] == bf[j];
    }
  }

  lemma ParamsKeepNoMarks(path: string)
    requires ';' in path && NoQueryMark(path)
    ensures NoQueryMark(SplitParams(path).0)
  {
    var p := SplitParams(path).0;
    assert |p| <= |path| && p == path[..|p|];
    forall j | 0 <= j < |p| ensures p[j] == path[j] {
    }
  }

  lemma SplitPartsHaveNoMarks(url: string)
    requires SupportedUrlText(url)
    ensures NoQueryMark(UrlParse(url).scheme)
    ensures NoQueryMark(UrlParse(url).netloc)
    ensures NoQueryMark(UrlParse(url).path)
  {
    var (scheme, rest) := SplitScheme(url);
    SchemeHasNoMarks(url);
    if StartsWith(rest, "//") {
      NetlocHasNoMarks(rest);
    }
    var afterNetloc := if StartsWith(rest, "//") then SplitNetloc(rest).1 else rest;
    PathHasNoMarks(afterNetloc);
    var path := SplitAtFirst(SplitAtFirst(afterNetloc, '#').0, '?').0;
    if ';' in path && scheme in UsesParams {
      ParamsKeepNoMarks(path);
    }
  }

  lemma ConcatNoMarks(a: string, b: string)
    requires NoQueryMark(a) && NoQueryMark(b)
    ensures NoQueryMark(a + b)
  {
    forall j | 0 <= j < |a + b| ensures (a + b)[j] != '?' && (a + b)[j] != '#' {
      if j < |a| {
        assert (a + b)[j] == a[j];
      } else {
        assert (a + b)[j] == b[j - |a|];
      }
    }
  }

  /** Without a query or a fragment, `urlunsplit` adds no `?` or `#` of its own. */
  lemma UnsplitNoMarks(scheme: string, netloc: string, url: string)
    requires NoQueryMark(scheme) && NoQueryMark(netloc) && NoQueryMark(url)
    ensures NoQueryMark(UrlUnsplit(scheme, netloc, url, "", ""))
  {
    var tail := if url != "" && url[0] != '/' then "/" + url else url;
    ConcatNoMarks("/", url);
    ConcatNoMarks("//", netloc);
    ConcatNoMarks("//" + netloc, tail);
    var withNetloc :=
      if netloc != "" || (scheme != "" && scheme in UsesNetloc && !StartsWith(url, "//"))
      then "//" + netloc + tail
      else url;
    ConcatNoMarks(scheme, ":");
    ConcatNoMarks(scheme + ":", withNetloc);
  }

  lemma HostUrlNoMarks(p: ParsedUrl)
    requires NoQueryMark(p.scheme) && NoQueryMark(p.netloc) && NoQueryMark(p.path)
    ensures NoQueryMark(HostUrl(p))
  {
    var scheme := if p.scheme != "" then p.scheme else "https";
    var netloc := if p.netloc != "" then p.netloc else p.path;
    var path := if p.netloc != "" then p.path else "";
    var path' := if path == "" then "/accounts" else path;
    assert NoQueryMark("https") && NoQueryMark("/accounts");
    assert HostUrl(p) == UrlUnsplit(scheme, netloc, path', "", "");
    UnsplitNoMarks(scheme, netloc, path');
  }

  /** The result never carries a query or a fragment: it contains neither `?` nor `#`. */
  lemma NoQueryOrFragment(input: string)
    requires SupportedUrlText(input)
    ensures NoQueryMark(ProcessFaucetHostUrl(input))
  {
    SplitPartsHaveNoMarks(WithScheme(input));
    HostUrlNoMarks(UrlParse(WithScheme(input)));
  }
}
