/** Git-over-SSH addresses of an instance (internal/core/bundle/manifest.go). */
module CloneURLs {
  import opened Prelude
  import opened Text

  const DEFAULT_PORT := 2222

  function PortOrDefault(declared: nat): nat {
    if declared == 0 then DEFAULT_PORT else declared
  }

  function Decimal(n: nat): (s: string)
    ensures s != "" && forall i :: 0 <= i < |s| ==> '0' <= s[i] <= '9'
  {
    if n < 10 then ['0' + n as char] else Decimal(n / 10) + ['0' + (n % 10) as char]
  }

  lemma {:induction false} DecimalRoundTrip(n: nat)
    ensures ReadDecimal(Decimal(n)) == Some(n)
  {
    if n >= 10 {
      DecimalRoundTrip(n / 10);
      assert Decimal(n)[..|Decimal(n)| - 1] == Decimal(n / 10);
    }
  }

  /** A host as a URL authority spells it: an IPv6 literal is bracketed, nothing else is. */
  predicate ValidHost(host: string) {
    if HasPrefix(host, "[")
    then |host| > 2 && Last(host) == ']' && HostText(host[1..|host| - 1])
    else host != "" && ':' !in host && HostText(host)
  }

  predicate HostText(s: string) {
    '[' !in s && ']' !in s && '/' !in s && '@' !in s
  }

  predicate ValidName(s: string) {
    s != "" && '/' !in s
  }

  function CloneURL(declaredPort: nat, host: string, owner: string, repo: string): string {
    var port := PortOrDefault(declaredPort);
    if port == 22 && !HasPrefix(host, "[")
    then "git@" + (host + (":" + (owner + ("/" + (repo + ".git")))))
    else "ssh://git@" + (host + (":" + (Decimal(port) + ("/" + (owner + ("/" + (repo + ".git")))))))
  }

  function Unbracket(host: string): string {
    if HasPrefix(host, "[") && HasSuffix(host, "]") && |host| >= 2 then host[1..|host| - 1] else host
  }

  function KnownHostsHost(declaredPort: nat, host: string): string {
    var port := PortOrDefault(declaredPort);
    if port == 22 then Unbracket(host) else "[" + (Unbracket(host) + ("]:" + Decimal(port)))
  }

  // Independent readers.

  datatype Remote = Remote(user: string, host: string, port: nat, owner: string, repo: string)

  /** owner/repo.git */
  function ReadPath(path: string): Option<(string, string)> {
    var r := Cut(path, '/');
    if r.Some? && HasSuffix(r.value.1, ".git")
    then Some((r.value.0, r.value.1[..|r.value.1| - 4])) else None
  }

  /** host ":" port, where a bracketed host ends at its bracket (RFC 3986 section 3.2.2). */
  function ReadHostPort(s: string): Option<(string, nat)> {
    var split := if HasPrefix(s, "[") then
                   var r := Cut(s, ']');
                   if r.Some? && HasPrefix(r.value.1, ":") then Some((r.value.0 + "]", r.value.1[1..])) else None
                 else Cut(s, ':');
    if split.None? then None
    else
      var port := ReadDecimal(split.value.1);
      if port.Some? then Some((split.value.0, port.value)) else None
  }

  /** An ssh:// URL by its authority, or git's scp-like form, whose host ends at the first colon. */
  function ReadRemote(url: string): Option<Remote> {
    if HasPrefix(url, "ssh://") then
      var halves := Cut(url[6..], '/');
      if halves.None? then None else
      var auth := Cut(halves.value.0, '@');
      if auth.None? then None else
      var place := ReadHostPort(auth.value.1);
      var path := ReadPath(halves.value.1);
      if place.None? || path.None? then None
      else Some(Remote(auth.value.0, place.value.0, place.value.1, path.value.0, path.value.1))
    else
      var halves := Cut(url, ':');
      if halves.None? then None else
      var auth := Cut(halves.value.0, '@');
      var path := ReadPath(halves.value.1);
      if auth.None? || path.None? then None
      else Some(Remote(auth.value.0, auth.value.1, 22, path.value.0, path.value.1))
  }

  /** A known_hosts name: `[host]:port`, or a bare host on port 22 (sshd(8), SSH_KNOWN_HOSTS FILE FORMAT). */
  function ReadKnownHost(s: string): Option<(string, nat)> {
    if HasPrefix(s, "[") then
      var r := Cut(s[1..], ']');
      if r.None? || !HasPrefix(r.value.1, ":") then None else
      var port := ReadDecimal(r.value.1[1..]);
      if port.Some? then Some((r.value.0, port.value)) else None
    else Some((s, 22))
  }

  lemma PathRoundTrip(owner: string, repo: string)
    requires ValidName(owner)
    ensures ReadPath(owner + ("/" + (repo + ".git"))) == Some((owner, repo))
  {
    CutAt(owner, '/', repo + ".git");
    assert (repo + ".git")[..|repo|] == repo && (repo + ".git")[|repo|..] == ".git";
  }

  lemma HostPortRoundTrip(host: string, port: nat)
    requires ValidHost(host)
    ensures ReadHostPort(host + (":" + Decimal(port))) == Some((host, port))
  {
    DecimalRoundTrip(port);
    hide Cut, Decimal, ReadDecimal;
    var s := host + (":" + Decimal(port));
    if HasPrefix(host, "[") {
      var open := host[..|host| - 1];
      assert open == "[" + host[1..|host| - 1];
      assert s == open + ("]" + (":" + Decimal(port)));
      CutAt(open, ']', ":" + Decimal(port));
      assert (":" + Decimal(port))[1..] == Decimal(port);
      assert open + "]" == host;
    } else {
      CutAt(host, ':', Decimal(port));
    }
  }

  /** The clone URL parses back to the host, port, owner and repository it was built
      from, in both spellings. */
  lemma CloneURLRoundTrip(declaredPort: nat, host: string, owner: string, repo: string)
    requires ValidHost(host) && ValidName(owner) && ValidName(repo)
    ensures ReadRemote(CloneURL(declaredPort, host, owner, repo)) ==
            Some(Remote("git", host, if declaredPort == 0 then 2222 else declaredPort, owner, repo))
  {
    hide Cut, ReadPath, ReadHostPort, Decimal;
    var port := PortOrDefault(declaredPort);
    var path := owner + ("/" + (repo + ".git"));
    PathRoundTrip(owner, repo);
    var url := CloneURL(declaredPort, host, owner, repo);
    if port == 22 && !HasPrefix(host, "[") {
      assert url == ("git@" + host) + (":" + path);
      assert url[0] == 'g';
      CutAt("git@" + host, ':', path);
      assert "git@" + host == "git" + ("@" + host);
      CutAt("git", '@', host);
    } else {
      var place := host + (":" + Decimal(port));
      assert url[6..] == ("git@" + place) + ("/" + path);
      assert url[..6] == "ssh://";
      NoSlash(host);
      CutAt("git@" + place, '/', path);
      assert "git@" + place == "git" + ("@" + place);
      CutAt("git", '@', place);
      HostPortRoundTrip(host, port);
    }
  }

  /** Which spelling is used: the short ones exactly on port 22, and of the two the URL's only where the
      host is no bracketed address. */
  lemma SpellingsExactly(declaredPort: nat, host: string, owner: string, repo: string)
    requires ValidHost(host)
    ensures HasPrefix(CloneURL(declaredPort, host, owner, repo), "ssh://") <==> declaredPort != 22 || host[0] == '['
    ensures !HasPrefix(CloneURL(declaredPort, host, owner, repo), "ssh://") ==>
              CloneURL(declaredPort, host, owner, repo) == "git@" + host + ":" + owner + "/" + repo + ".git"
    ensures HasPrefix(KnownHostsHost(declaredPort, host), "[") <==> declaredPort != 22
  {
    BareHost(host);
    assert HostText(Unbracket(host)) ==> Unbracket(host)[0] != '[';
    hide Decimal, Unbracket;
    var url := CloneURL(declaredPort, host, owner, repo);
    if declaredPort == 22 && host[0] != '[' {
      assert !HasPrefix(host, "[") && url[0] == 'g';
    } else {
      assert url[..6] == "ssh://";
    }
  }

  lemma NoSlash(host: string)
    requires ValidHost(host)
    ensures '/' !in host
  {
    if HasPrefix(host, "[") {
      assert host == "[" + host[1..|host| - 1] + "]";
    }
  }

  lemma BareHost(host: string)
    requires ValidHost(host)
    ensures HostText(Unbracket(host)) && Unbracket(host) != ""
  {
  }

  lemma KnownHostReads(bare: string, port: nat)
    requires HostText(bare)
    ensures ReadKnownHost("[" + (bare + ("]:" + Decimal(port)))) == Some((bare, port))
  {
    hide Cut;
    var tail := ":" + Decimal(port);
    var s := "[" + (bare + ("]:" + Decimal(port)));
    assert s[1..] == bare + ("]" + tail);
    CutAt(bare, ']', tail);
    assert tail[1..] == Decimal(port);
    DecimalRoundTrip(port);
  }

  /** The known_hosts spelling denotes the host and port the clone URL leads to. */
  lemma KnownHostsAgrees(declaredPort: nat, host: string, owner: string, repo: string)
    requires ValidHost(host) && ValidName(owner) && ValidName(repo)
    ensures var remote := ReadRemote(CloneURL(declaredPort, host, owner, repo));
            remote.Some? && ReadKnownHost(KnownHostsHost(declaredPort, host)) ==
                            Some((Unbracket(remote.value.host), remote.value.port))
  {
    CloneURLRoundTrip(declaredPort, host, owner, repo);
    BareHost(host);
    KnownHostReads(Unbracket(host), PortOrDefault(declaredPort));
    hide Cut, ReadRemote, Decimal, CloneURL, Unbracket;
  }
}
