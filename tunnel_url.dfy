/** The match of the tunnel URL against `^tcp://(.+):(\d+)$` (ssh_to_pipeline.py lines 104-106),
    with Python's `re.match` semantics: `.` is any character but '\n', `\d` is taken as an ASCII
    digit, and `$` matches at the end of the text or just before one final '\n'. */
module TunnelUrl {
  import opened Base

  const Scheme := "tcp://"

  predicate IsDigit(c: char) {
    '0' <= c <= '9'
  }

  /** What `(\d+)` accepts. */
  predicate IsPort(p: string) {
    p != [] && forall i :: 0 <= i < |p| ==> IsDigit(p[i])
  }

  /** What `(.+)` accepts. */
  predicate IsHost(h: string) {
    h != [] && '\n' !in h
  }

  /** Independent statement of the pattern: the URL is the scheme, a host, a colon and a port,
      possibly followed by one newline. */
  ghost predicate Matches(url: string, host: string, port: string) {
    IsHost(host) && IsPort(port)
    && (url == Scheme + host + ":" + port || url == Scheme + host + ":" + port + "\n")
  }

  /** Index of the last ':' in `s`, if any. */
  function LastColon(s: string): (r: Option<nat>)
    ensures r.Some? ==> r.value < |s| && s[r.value] == ':'
    ensures r.Some? ==> forall j :: r.value < j < |s| ==> s[j] != ':'
    ensures r.None? ==> ':' !in s
    decreases |s|
  {
    if s == [] then None
    else if s[|s| - 1] == ':' then Some(|s| - 1)
    else LastColon(s[..|s| - 1])
  }

  /** The text the anchors `^tcp://` and `$` leave for `(.+):(\d+)`: the URL without its scheme
      and without one final newline, or `None` when the scheme is missing. */
  function Body(url: string): (r: Option<string>)
    ensures r.Some? ==> url == Scheme + r.value || url == Scheme + r.value + "\n"
    ensures r.None? ==> |url| < |Scheme| || url[..|Scheme|] != Scheme
  {
    if |url| < |Scheme| || url[..|Scheme|] != Scheme then None
    else
      var rest := url[|Scheme|..];
      assert url == Scheme + rest;
      if rest != [] && rest[|rest| - 1] == '\n' then
        assert rest == rest[..|rest| - 1] + "\n";
        Some(rest[..|rest| - 1])
      else Some(rest)
  }

  /** Splits `host:port` at the last colon and checks both groups. */
  function SplitHostPort(body: string): (r: Option<(string, string)>)
    ensures r.Some? ==> IsHost(r.value.0) && IsPort(r.value.1) && body == r.value.0 + ":" + r.value.1
  {
    match LastColon(body)
    case None => None
    case Some(i) =>
      var host, port := body[..i], body[i + 1..];
      assert body == host + ":" + port;
      if IsHost(host) && IsPort(port) then Some((host, port)) else None
  }

  /** The (host, port) groups of a successful match, or `None` when the pattern does not match.
      A port is colon-free, so a match can only split at the last colon. Every reported match is
      a real one. */
  function Match(url: string): (r: Option<(string, string)>)
    ensures r.Some? ==> Matches(url, r.value.0, r.value.1)
  {
    match Body(url)
    case None => None
    case Some(body) => SplitHostPort(body)
  }

  lemma LastColonIs(s: string, i: nat)
    requires i < |s| && s[i] == ':'
    requires forall j :: i < j < |s| ==> s[j] != ':'
    ensures LastColon(s) == Some(i)
  {
    var r := LastColon(s);
    assert r.Some?;
  }

  lemma SplitHostPortComplete(host: string, port: string)
    requires IsHost(host) && IsPort(port)
    ensures SplitHostPort(host + ":" + port) == Some((host, port))
  {
    var body := host + ":" + port;
    assert body[|host|] == ':';
    forall j | |host| < j < |body| ensures body[j] != ':' {
      assert body[j] == port[j - |host| - 1];
      assert IsDigit(port[j - |host| - 1]);
    }
    LastColonIs(body, |host|);
    assert body[..|host|] == host && body[|host| + 1..] == port;
  }

  lemma BodyOf(body: string, newline: bool)
    requires body == [] || body[|body| - 1] != '\n'
    ensures Body(Scheme + body + (if newline then "\n" else "")) == Some(body)
  {
    var url := Scheme + body + (if newline then "\n" else "");
    assert url[..|Scheme|] == Scheme;
    var rest := url[|Scheme|..];
    if newline {
      assert rest == body + "\n";
      assert rest[..|rest| - 1] == body;
    } else {
      assert rest == body + "";
      assert rest == body;
    }
  }

  /** Every real match is found, with exactly its groups: the match is unique. */
  lemma MatchComplete(url: string, host: string, port: string)
    requires Matches(url, host, port)
    ensures Match(url) == Some((host, port))
  {
    var body := host + ":" + port;
    assert body[|body| - 1] == port[|port| - 1];
    assert IsDigit(port[|port| - 1]);
    var newline := url != Scheme + body;
    assert url == Scheme + body + (if newline then "\n" else "");
    BodyOf(body, newline);
    SplitHostPortComplete(host, port);
  }

  /** The tunnel URL the client announces splits back into the host and port it was made from,
      colons inside the host included. */
  lemma RoundTrip(host: string, port: string)
    requires IsHost(host) && IsPort(port)
    ensures Match(Scheme + host + ":" + port) == Some((host, port))
  {
    MatchComplete(Scheme + host + ":" + port, host, port);
  }

  /** A URL without the "tcp://" prefix fails the match. */
  lemma WrongSchemeRejected(url: string)
    requires |url| < |Scheme| || url[..|Scheme|] != Scheme
    ensures Match(url) == None
  {
  }

  /** A newline-free URL in which no colon is followed by a run of digits up to the end fails the
      match. */
  lemma NoTrailingPortRejected(url: string)
    requires '\n' !in url
    requires forall i :: 0 <= i < |url| && url[i] == ':' ==> !IsPort(url[i + 1..])
    ensures Match(url) == None
  {
  }

  /** The host and port of the example address are well formed. */
  lemma ExampleParts()
    ensures IsHost("0.tcp.example.com") && IsPort("54321")
  {
    var host, port := "0.tcp.example.com", "54321";
    forall i | 0 <= i < |port| ensures IsDigit(port[i]) { }
    forall i | 0 <= i < |host| ensures host[i] != '\n' { }
  }

  /** The example address, spelled as its pattern pieces. It is proved apart from ExampleUrl
      because in that lemma's context the solver spends far more on the same string equality. */
  lemma ExampleSpelled()
    ensures Scheme + "0.tcp.example.com" + ":" + "54321" == "tcp://0.tcp.example.com:54321"
  {
  }

  /** The address the tunnel broker typically reports splits into its host and port. */
  lemma ExampleUrl()
    ensures Match("tcp://0.tcp.example.com:54321") == Some(("0.tcp.example.com", "54321"))
  {
    ExampleParts();
    ExampleSpelled();
    RoundTrip("0.tcp.example.com", "54321");
  }
}
