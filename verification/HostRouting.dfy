/**
 One deployment, several hostnames: the redirect decisions of the middleware and the
 derivation of sibling hosts.  A redirect answers a request with another request, so
 following redirects is a transition system over arbitrary host, path and query strings.
 */
module HostRouting {
  import opened Text

  // ---------------------------------------------------------------- hosts

  /** Nothing, or a colon and a port number. */
  predicate MaybePort(s: string) {
    s == "" || (|s| > 1 && s[0] == ':' && AllDigits(s[1..]))
  }

  predicate IsLocalHost(host: string) {
    || (StartsWith(host, "localhost") && MaybePort(host[9..]))
    || (StartsWith(host, "127.0.0.1") && MaybePort(host[9..]))
    || (StartsWith(host, "[::1]") && MaybePort(host[5..]))
  }

  function BaseHost(host: string): string {
    if StartsWith(host, "app.") then host[4..]
    else if StartsWith(host, "api.") then host[4..]
    else if StartsWith(host, "admin.") then host[6..]
    else if StartsWith(host, "org.") then host[4..]
    else if StartsWith(host, "www.") then host[4..]
    else host
  }

  datatype Surface = App | Api | Admin | Org | Bare

  /** A surface's prefix in a hostname. */
  function Prefix(s: Surface): string {
    match s
    case App => "app."
    case Api => "api."
    case Admin => "admin."
    case Org => "org."
    case Bare => ""
  }

  function SiblingOrigin(host: string, s: Surface): string {
    if IsLocalHost(host) then
      "http://localhost:" +
      (match s case App => "3000" case Bare => "3000" case Api => "3001" case Org => "3002" case Admin => "3003")
    else "https://" + Prefix(s) + BaseHost(host)
  }

  datatype Portal = AppPortal | OrgPortal

  function PortalOf(host: string): Portal {
    if StartsWith(host, "org.") then OrgPortal else AppPortal
  }

  // ---------------------------------------------------------------- paths

  const MARKETING_PATHS: seq<string> :=
    ["/", "/org", "/pricing", "/developers", "/why", "/careers", "/terms", "/privacy", "/refunds"]

  const AUTH_PATHS: seq<string> := ["/login", "/signup", "/forgot", "/reset"]

  const APP_PREFIXES: seq<string> :=
    ["/auth", "/verify", "/email-change", "/invite", "/welcome", "/today", "/studio", "/create", "/library",
     "/products", "/brand", "/publishing", "/insights", "/developer", "/notifications", "/billing", "/settings", "/api"]

  /** `path` is `root` or lies below it. */
  predicate Under(path: string, root: string) {
    path == root || StartsWith(path, root + "/")
  }

  predicate IsMarketing(path: string) {
    path in MARKETING_PATHS || StartsWith(path, "/careers/") || path in AUTH_PATHS
  }

  predicate IsApp(path: string) {
    exists i :: 0 <= i < |APP_PREFIXES| && Under(path, APP_PREFIXES[i])
  }

  /** The paths the middleware is run for: no Next internals, nothing with a dot. */
  predicate Matched(path: string) {
    path != "" && path[0] == '/' && !StartsWith(path, "/_next/") && '.' !in path
  }

  // ---------------------------------------------------------------- the query parameter `next`

  /** Form decoding, one character per byte: enough to compare with ASCII and to tell an empty value. */
  function FormDecode(s: string): string
    decreases |s|
  {
    if s == "" then ""
    else if |s| >= 3 && s[0] == '%' && HexValue(s[1]) >= 0 && HexValue(s[2]) >= 0 then
      [(16 * HexValue(s[1]) + HexValue(s[2])) as char] + FormDecode(s[3..])
    else [if s[0] == '+' then ' ' else s[0]] + FormDecode(s[1..])
  }

  function Before(s: string, c: char): string {
    if s == "" || s[0] == c then "" else [s[0]] + Before(s[1..], c)
  }

  function After(s: string, c: char): string {
    if s == "" then "" else if s[0] == c then s[1..] else After(s[1..], c)
  }

  /** The value of the first parameter called `next`, empty when there is none. */
  function FirstNext(pieces: seq<string>): string {
    if pieces == [] then ""
    else if FormDecode(Before(pieces[0], '=')) == "next" then FormDecode(After(pieces[0], '='))
    else FirstNext(pieces[1..])
  }

  predicate HasNext(query: string) {
    FirstNext(Split(if StartsWith(query, "?") then query[1..] else query, '&')) != ""
  }

  // ---------------------------------------------------------------- the decision

  datatype Request = Request(host: string, path: string, query: string)
  datatype Decision = Pass | Proxy(origin: string) | Redirect(to: Request, status: nat)

  function AdminDecision(r: Request): Decision {
    if r.path == "/" then Redirect(Request(r.host, "/admin", ""), 307)
    else if r.path == "/login" && !HasNext(r.query) then Redirect(Request(r.host, "/login", "?next=/admin"), 307)
    else if Under(r.path, "/admin") || r.path == "/login" || r.path == "/forgot" || r.path == "/reset" then Pass
    else Redirect(Request(r.host, "/admin", ""), 307)
  }

  function Middleware(r: Request): Decision {
    if Under(r.path, "/api") then Proxy(SiblingOrigin(r.host, Api))
    else if IsLocalHost(r.host) then Pass
    else if StartsWith(r.host, "www.") then Redirect(r.(host := r.host[4..]), 308)
    else if StartsWith(r.host, "admin.") then AdminDecision(r)
    else if Under(r.path, "/admin") then Redirect(r.(host := "admin." + BaseHost(r.host)), 307)
    else if StartsWith(r.host, "app.") || StartsWith(r.host, "org.") then
      if r.path == "/" then Redirect(Request(r.host, "/today", ""), 307)
      else if IsMarketing(r.path) then Redirect(r.(host := BaseHost(r.host)), 307)
      else Pass
    else if IsApp(r.path) then Redirect(r.(host := "app." + r.host), 307)
    else Pass
  }

  function Serve(r: Request): Decision {
    if Matched(r.path) then Middleware(r) else Pass
  }

  // ---------------------------------------------------------------- who claims a path

  /** The first segment of a path, with its slash. */
  function Segment(path: string): string {
    if path == "" then "" else [path[0]] + Before(path[1..], '/')
  }

  lemma {:induction false} BeforePrefix(s: string, rest: string, c: char)
    requires c !in s
    ensures Before(s, c) == s && Before(s + [c] + rest, c) == s
  {
    if s != "" {
      BeforePrefix(s[1..], rest, c);
      assert (s + [c] + rest)[1..] == s[1..] + [c] + rest;
    }
  }

  /** A root of one segment. */
  predicate OneSegment(root: string) {
    root != "" && forall k :: 1 <= k < |root| ==> root[k] != '/'
  }

  lemma UnderSegment(path: string, root: string)
    requires Under(path, root) && OneSegment(root)
    ensures Segment(path) == root
  {
    if path == root {
      BeforePrefix(root[1..], "", '/');
    } else {
      var rest := path[|root| + 1..];
      assert path == root + "/" + rest;
      assert path[1..] == root[1..] + ['/'] + rest;
      BeforePrefix(root[1..], rest, '/');
    }
  }

  lemma TablesDisjoint(i: nat)
    requires i < |APP_PREFIXES|
    ensures APP_PREFIXES[i] !in MARKETING_PATHS && APP_PREFIXES[i] !in AUTH_PATHS && APP_PREFIXES[i] != "/admin"
  {
    forall j | 0 <= j < |MARKETING_PATHS| ensures APP_PREFIXES[i] != MARKETING_PATHS[j] {}
    forall j | 0 <= j < |AUTH_PATHS| ensures APP_PREFIXES[i] != AUTH_PATHS[j] {}
  }

  lemma AppPrefixShape(i: nat)
    requires i < |APP_PREFIXES|
    ensures OneSegment(APP_PREFIXES[i])
  {
  }

  lemma MarketingShape(path: string)
    requires path in MARKETING_PATHS || path in AUTH_PATHS
    ensures OneSegment(path)
  {
    if path in MARKETING_PATHS {
      var j :| 0 <= j < |MARKETING_PATHS| && path == MARKETING_PATHS[j];
    } else {
      var j :| 0 <= j < |AUTH_PATHS| && path == AUTH_PATHS[j];
    }
  }

  /** A marketing path starts with a segment of the marketing tables. */
  lemma MarketingSegment(path: string)
    requires IsMarketing(path)
    ensures Segment(path) in MARKETING_PATHS || Segment(path) in AUTH_PATHS
  {
    if path in MARKETING_PATHS || path in AUTH_PATHS {
      MarketingShape(path);
      UnderSegment(path, path);
    } else {
      assert Under(path, "/careers");
      UnderSegment(path, "/careers");
      assert "/careers" == MARKETING_PATHS[5];
    }
  }

  lemma AdminIsNoMarketing()
    ensures "/admin" !in MARKETING_PATHS && "/admin" !in AUTH_PATHS
  {
    forall j | 0 <= j < |MARKETING_PATHS| ensures "/admin" != MARKETING_PATHS[j] {}
    forall j | 0 <= j < |AUTH_PATHS| ensures "/admin" != AUTH_PATHS[j] {}
  }

  /** No path is claimed twice, so no bounced path is bounced back. */
  lemma ClaimsAreDisjoint(path: string)
    ensures IsApp(path) ==> !IsMarketing(path) && !Under(path, "/admin")
    ensures IsMarketing(path) ==> !Under(path, "/admin")
  {
    if IsMarketing(path) { MarketingSegment(path); }
    if Under(path, "/admin") { UnderSegment(path, "/admin"); }
    AdminIsNoMarketing();
    if IsApp(path) {
      var i :| 0 <= i < |APP_PREFIXES| && Under(path, APP_PREFIXES[i]);
      hide IsMarketing;
      TablesDisjoint(i);
      AppPrefixShape(i);
      UnderSegment(path, APP_PREFIXES[i]);
    }
  }

  /** Lying below a root of one segment is starting with that segment. */
  lemma UnderIsSegment(path: string, root: string)
    requires OneSegment(root)
    ensures Under(path, root) <==> Segment(path) == root
  {
    if Segment(path) == root { BeforeIsCut(path[1..], '/'); }
    if Under(path, root) { UnderSegment(path, root); }
  }

  lemma {:induction false} BeforeIsCut(s: string, c: char)
    ensures Before(s, c) <= s && (Before(s, c) == s || s[|Before(s, c)|] == c)
  {
    if s != "" { BeforeIsCut(s[1..], c); }
  }

  /** The portal's paths, told by their first segment: `/developer` is one and `/developers` is not. */
  lemma AppPathsBySegment(path: string)
    ensures Segment(path) in
              ["/auth", "/verify", "/email-change", "/invite", "/welcome", "/today", "/studio", "/create", "/library",
               "/products", "/brand", "/publishing", "/insights", "/developer", "/notifications", "/billing",
               "/settings", "/api"]
            <==> IsApp(path)
  {
    forall i | 0 <= i < |APP_PREFIXES| ensures Under(path, APP_PREFIXES[i]) <==> Segment(path) == APP_PREFIXES[i] {
      AppPrefixShape(i);
      UnderIsSegment(path, APP_PREFIXES[i]);
    }
    hide Segment, Under;
    assert IsApp(path) <==> Segment(path) in APP_PREFIXES;
  }

  /** The marketing host's paths: these thirteen pages as they are, and everything below `/careers/`. */
  lemma MarketingPathsByName(path: string)
    ensures IsMarketing(path) <==>
      || path == "/" || path == "/org" || path == "/pricing" || path == "/developers" || path == "/why"
      || path == "/careers" || path == "/terms" || path == "/privacy" || path == "/refunds"
      || path == "/login" || path == "/signup" || path == "/forgot" || path == "/reset"
      || (Segment(path) == "/careers" && path != "/careers")
  {
    UnderIsSegment(path, "/careers");
    hide Segment;
    assert MARKETING_PATHS[0] == "/" && MARKETING_PATHS[1] == "/org" && MARKETING_PATHS[2] == "/pricing";
    assert MARKETING_PATHS[3] == "/developers" && MARKETING_PATHS[4] == "/why" && MARKETING_PATHS[5] == "/careers";
    assert MARKETING_PATHS[6] == "/terms" && MARKETING_PATHS[7] == "/privacy" && MARKETING_PATHS[8] == "/refunds";
    assert AUTH_PATHS[0] == "/login" && AUTH_PATHS[1] == "/signup" && AUTH_PATHS[2] == "/forgot";
    assert AUTH_PATHS[3] == "/reset" && |MARKETING_PATHS| == 9 && |AUTH_PATHS| == 4;
  }

  /** Requests for Next's internals and for files are not the middleware's, nor anything that is no path. */
  lemma MatchedExactly(r: Request)
    ensures Matched(r.path) <==>
      "/" <= r.path && !("/_next/" <= r.path) && forall i :: 0 <= i < |r.path| ==> r.path[i] != '.'
    ensures !Matched(r.path) ==> Serve(r) == Pass
  {
  }

  // ---------------------------------------------------------------- redirects end

  predicate Shortens(r: Request) {
    Serve(r).Redirect? && |Serve(r).to.host| < |r.host|
  }

  /** A hop that shortens the host leaves a shorter one; any other hop is the last. */
  function Rank(r: Request): nat {
    if Shortens(r) then 2 + |r.host| else if Serve(r).Redirect? then 1 else 0
  }

  lemma {:induction false} AfterPrefix(s: string, rest: string, c: char)
    requires c !in s
    ensures After(s + [c] + rest, c) == rest
  {
    var t := s + [c] + rest;
    if s == "" {
      assert t[1..] == rest;
    } else {
      AfterPrefix(s[1..], rest, c);
      assert t[1..] == s[1..] + [c] + rest;
    }
  }

  lemma {:induction false} AfterNothing(s: string, c: char)
    requires c !in s
    ensures After(s, c) == ""
  {
    if s != "" { AfterNothing(s[1..], c); }
  }

  lemma {:induction false} DecodePlain(s: string)
    requires '%' !in s && '+' !in s
    ensures FormDecode(s) == s
  {
    if s != "" { DecodePlain(s[1..]); }
  }

  lemma OnlyNext(value: string)
    requires value != "" && '%' !in value && '+' !in value && '&' !in value
    ensures HasNext("?" + ("next" + ['='] + value))
  {
    var q := "next" + ['='] + value;
    DecodePlain("next");
    DecodePlain(value);
    hide FormDecode, Before, After, Split;
    assert '&' !in q;
    JoinSplits([q], '&');
    BeforePrefix("next", value, '=');
    AfterPrefix("next", value, '=');
    assert ("?" + q)[1..] == q;
    assert FirstNext([q]) == value;
  }

  /** A parameter, perhaps without an equals sign and a value. */
  datatype Param = Param(name: string, value: Option<string>)

  const HEX := "0123456789ABCDEF"

  /** How a form writes one character of a byte's size: letters and digits as they are, a blank as a plus. */
  function EncodeByte(c: char): (r: string)
    requires c as int < 256
  {
    if 'a' <= c <= 'z' || 'A' <= c <= 'Z' || '0' <= c <= '9' then [c] else if c == ' ' then "+"
    else ['%', HEX[c as int / 16], HEX[c as int % 16]]
  }

  predicate Bytes(s: string) {
    forall i :: 0 <= i < |s| ==> s[i] as int < 256
  }

  function FormEncode(s: string): string
    requires Bytes(s)
  {
    if s == "" then "" else EncodeByte(s[0]) + FormEncode(s[1..])
  }

  lemma HexWrites(v: nat)
    requires v < 16
    ensures HexValue(HEX[v]) == v && HEX[v] != '&' && HEX[v] != '='
  {
  }

  lemma DecodeOne(c: char, rest: string)
    requires c as int < 256
    ensures FormDecode(EncodeByte(c) + rest) == [c] + FormDecode(rest)
    ensures '&' !in EncodeByte(c) && '=' !in EncodeByte(c)
  {
    var s := EncodeByte(c) + rest;
    HexWrites(c as int / 16);
    HexWrites(c as int % 16);
    hide HexValue;
    if |EncodeByte(c)| == 1 { assert s[1..] == rest; } else { assert s[3..] == rest; }
  }

  /** What a form writes reads back as it was, and separates nothing. */
  lemma {:induction false} DecodeEncoded(s: string)
    requires Bytes(s)
    ensures FormDecode(FormEncode(s)) == s
    ensures '&' !in FormEncode(s) && '=' !in FormEncode(s)
  {
    if s != "" {
      DecodeEncoded(s[1..]);
      DecodeOne(s[0], FormEncode(s[1..]));
      hide FormDecode, EncodeByte, FormEncode;
      assert s == [s[0]] + s[1..];
    }
  }

  ghost predicate Sendable(params: seq<Param>) {
    forall i :: 0 <= i < |params| ==>
      Bytes(params[i].name) && (params[i].value.Some? ==> Bytes(params[i].value.value))
  }

  function Written(params: seq<Param>): (r: seq<string>)
    requires Sendable(params)
    ensures |r| == |params|
  {
    if params == [] then []
    else
      var p := params[0];
      var name := FormEncode(p.name);
      [if p.value.Some? then name + ['='] + FormEncode(p.value.value) else name] + Written(params[1..])
  }

  /** The first `next` of a form, where there is one with something in it. */
  function NextOf(params: seq<Param>): string {
    if params == [] then ""
    else if params[0].name != "next" then NextOf(params[1..])
    else if params[0].value.Some? then params[0].value.value else ""
  }

  lemma {:induction false} NextIsFound(params: seq<Param>)
    requires Sendable(params)
    ensures FirstNext(Written(params)) == NextOf(params)
    ensures forall p :: p in Written(params) ==> '&' !in p
  {
    if params != [] {
      var p := params[0];
      var name, value := FormEncode(p.name), if p.value.Some? then FormEncode(p.value.value) else "";
      assert FormDecode("") == "";
      DecodeEncoded(p.name);
      if p.value.Some? { DecodeEncoded(p.value.value); }
      hide FormDecode, FormEncode, Before, After;
      BeforePrefix(name, value, '=');
      AfterPrefix(name, value, '=');
      AfterNothing(name, '=');
      NextIsFound(params[1..]);
    }
  }

  /** A query that a form wrote has a `next` exactly when its first parameter of that name has a value. */
  lemma NextIsRead(params: seq<Param>)
    requires Sendable(params) && params != []
    ensures HasNext("?" + Join(Written(params), "&")) <==> NextOf(params) != ""
  {
    NextIsFound(params);
    JoinSplits(Written(params), '&');
    var q := Join(Written(params), "&");
    assert ("?" + q)[1..] == q;
  }

  lemma AdminNext()
    ensures HasNext("?next=/admin")
  {
    OnlyNext("/admin");
    assert "?next=/admin" == "?" + ("next" + ['='] + "/admin");
  }

  /** A hop on the admin host is the last. */
  lemma AdminSettles(r: Request)
    requires StartsWith(r.host, "admin.") && Serve(r).Redirect?
    ensures Serve(r).to.host == r.host && !Serve(Serve(r).to).Redirect?
  {
    AdminNext();
    hide HasNext;
    assert r.host[0] == 'a' && r.host[1] == 'd';
    assert Under("/admin", "/admin");
  }

  lemma PathFacts(path: string)
    ensures IsMarketing("/") && IsApp("/today") && Under("/today", "/today")
    ensures Under(path, "/admin") ==> path != "/" && path != "/login"
  {
    assert MARKETING_PATHS[0] == "/" && APP_PREFIXES[5] == "/today";
    assert Under("/today", APP_PREFIXES[5]);
  }

  lemma PrefixedHost(s: Surface, host: string)
    ensures var h := Prefix(s) + host; s != Bare ==>
      StartsWith(h, Prefix(s)) && h[|Prefix(s)|..] == host && !StartsWith(h, "www.") && !IsLocalHost(h)
      && (s != Admin ==> !StartsWith(h, "admin."))
      && (s == App || s == Org <==> StartsWith(h, "app.") || StartsWith(h, "org."))
      && BaseHost(h) == host
  {
    var h := Prefix(s) + host;
    if s != Bare {
      assert h[0] == Prefix(s)[0] && h[1] == Prefix(s)[1] && h[2] == Prefix(s)[2];
    }
  }

  lemma WwwHost(host: string)
    ensures var w := "www." + host; StartsWith(w, "www.") && w[4..] == host && BaseHost(w) == host && !IsLocalHost(w)
  {
    assert ("www." + host)[0] == 'w';
  }

  /** A hop from any other host that does not shorten it is the last. */
  lemma SurfaceSettles(r: Request)
    requires Serve(r).Redirect? && !StartsWith(r.host, "admin.") && !Shortens(r)
    ensures !Serve(Serve(r).to).Redirect?
  {
    ClaimsAreDisjoint(r.path);
    ClaimsAreDisjoint("/today");
    PathFacts(r.path);
    PrefixedHost(Admin, BaseHost(r.host));
    PrefixedHost(App, r.host);
    hide IsApp, IsMarketing, IsLocalHost, HasNext;
  }

  lemma RankDecreases(r: Request)
    requires Serve(r).Redirect?
    ensures Rank(Serve(r).to) < Rank(r)
    ensures Shortens(r) ==> |Serve(r).to.host| + 4 == |r.host|
    ensures Serve(r).status == if StartsWith(r.host, "www.") then 308 else 307
  {
    if StartsWith(r.host, "admin.") { AdminSettles(r); } else if !Shortens(r) { SurfaceSettles(r); }
  }

  /** Where following redirects from `r` ends. */
  function Settle(r: Request): Request
    decreases Rank(r)
  {
    if Serve(r).Redirect? then RankDecreases(r); Settle(Serve(r).to) else r
  }

  /** How many redirects that takes. */
  function Hops(r: Request): nat
    decreases Rank(r)
  {
    if Serve(r).Redirect? then RankDecreases(r); 1 + Hops(Serve(r).to) else 0
  }

  /** Redirects end from everywhere, after at most one more hop than the host has four-letter prefixes. */
  lemma {:induction false} RedirectsEnd(r: Request)
    ensures !Serve(Settle(r)).Redirect?
    ensures Hops(r) <= |r.host| / 4 + 1
    decreases Rank(r)
  {
    if Serve(r).Redirect? {
      hide Serve, Shortens;
      RankDecreases(r);
      RedirectsEnd(Serve(r).to);
      if !Shortens(r) { SettlesInOne(r); }
    }
  }

  lemma SettlesInOne(r: Request)
    requires Serve(r).Redirect? && !Shortens(r)
    ensures Hops(r) == 1 && Settle(r) == Serve(r).to
  {
    RankDecreases(r);
    hide Serve;
  }

  /** A redirect keeps the page and its query, except from a portal's landing and on the console. */
  lemma RedirectsKeepThePage(r: Request)
    requires Serve(r).Redirect?
    ensures (r.path != "/" && !StartsWith(r.host, "admin.")) || StartsWith(r.host, "www.") ==>
      Serve(r).to.path == r.path && Serve(r).to.query == r.query
  {
    PathFacts(r.path);
    hide IsApp, IsMarketing, IsLocalHost, HasNext;
  }

  // ---------------------------------------------------------------- on a developer's machine

  /** Nothing, or a colon and some digits. */
  predicate PortSuffix(port: string) {
    port == "" || (|port| >= 2 && port[0] == ':' && forall i :: 1 <= i < |port| ==> port[i] in "0123456789")
  }

  /** `localhost` and the loopback addresses, with or without a port. */
  ghost predicate ThisMachine(host: string) {
    exists port :: PortSuffix(port) &&
      (host == "localhost" + port || host == "127.0.0.1" + port || host == "[::1]" + port)
  }

  lemma PortIsSuffix(port: string)
    ensures MaybePort(port) <==> PortSuffix(port)
  {
    assert forall c: char :: c in "0123456789" <==> '0' <= c <= '9';
    if PortSuffix(port) && port != "" {
      forall i | 0 <= i < |port[1..]| ensures '0' <= port[1..][i] <= '9' { assert port[1..][i] == port[i + 1]; }
    }
    if MaybePort(port) && port != "" {
      forall i | 1 <= i < |port| ensures port[i] in "0123456789" { assert port[1..][i - 1] == port[i]; }
    }
  }

  lemma LocalNames(host: string, name: string)
    ensures StartsWith(host, name) && MaybePort(host[|name|..])
            <==> exists port :: PortSuffix(port) && host == name + port
  {
    if StartsWith(host, name) {
      PortIsSuffix(host[|name|..]);
      assert host == name + host[|name|..];
    }
    if port :| PortSuffix(port) && host == name + port {
      assert host[|name|..] == port;
      PortIsSuffix(port);
    }
  }

  /** Those are the local hosts, and no others. */
  lemma LocalMeansThisMachine(host: string)
    ensures IsLocalHost(host) <==> ThisMachine(host)
  {
    LocalNames(host, "localhost");
    LocalNames(host, "127.0.0.1");
    LocalNames(host, "[::1]");
    hide PortSuffix, MaybePort;
  }

  /** On a developer's machine nothing is redirected: pages are served as they are, the API is the local one. */
  lemma LocalHostsServeEverything(host: string, path: string, query: string)
    requires ThisMachine(host)
    ensures var r := Request(host, path, query);
      && Hops(r) == 0 && Settle(r) == r
      && Serve(r) ==
           if Matched(path) && (path == "/api" || "/api/" <= path) then Proxy("http://localhost:3001") else Pass
  {
    LocalMeansThisMachine(host);
  }

  /** Where the sibling surfaces are, locally by port. */
  lemma LocalSiblings(host: string)
    requires ThisMachine(host)
    ensures SiblingOrigin(host, App) == SiblingOrigin(host, Bare) == "http://localhost:3000"
    ensures SiblingOrigin(host, Api) == "http://localhost:3001"
    ensures SiblingOrigin(host, Org) == "http://localhost:3002"
    ensures SiblingOrigin(host, Admin) == "http://localhost:3003"
  {
    LocalMeansThisMachine(host);
  }

  // ---------------------------------------------------------------- one environment

  /** An environment's base host: not local, and without a surface or `www.` prefix of its own. */
  predicate IsBase(b: string) {
    !IsLocalHost(b) && BaseHost(b) == b
  }

  lemma BaseHasNoPrefix(b: string)
    requires BaseHost(b) == b
    ensures !StartsWith(b, "www.") && forall s :: s != Bare ==> !StartsWith(b, Prefix(s))
  {
  }

  /** Every other host is a base, unless it starts with one of the five prefixes. */
  lemma BaseIsExactly(b: string)
    ensures IsBase(b) <==>
      && !ThisMachine(b)
      && !("app." <= b) && !("api." <= b) && !("admin." <= b) && !("org." <= b) && !("www." <= b)
  {
    LocalMeansThisMachine(b);
  }

  /** Where the sibling surfaces of an environment are. */
  lemma SiblingsByName(b: string)
    requires IsBase(b)
    ensures SiblingOrigin(b, Bare) == "https://" + b
    ensures SiblingOrigin(b, App) == "https://app." + b && SiblingOrigin(b, Api) == "https://api." + b
    ensures SiblingOrigin(b, Org) == "https://org." + b && SiblingOrigin(b, Admin) == "https://admin." + b
  {
    assert "https://" + "" + b == "https://" + b;
    assert "https://" + "app." + b == "https://app." + b && "https://" + "api." + b == "https://api." + b;
    assert "https://" + "org." + b == "https://org." + b && "https://" + "admin." + b == "https://admin." + b;
  }

  /** The hosts of an environment people arrive at. */
  function Doors(b: string): seq<string> {
    [b, "www." + b, "app." + b, "org." + b, "api." + b, "admin." + b]
  }

  /** From any of an environment's hosts at most one redirect, from `www.` at most two. */
  lemma FewHops(b: string, door: nat, path: string, query: string)
    requires IsBase(b) && door < |Doors(b)|
    ensures Hops(Request(Doors(b)[door], path, query)) <= if door == 1 then 2 else 1
  {
    hide Serve, IsMarketing, Shortens, Doors;
    var r := Request(Doors(b)[door], path, query);
    if Serve(r).Redirect? {
      if Shortens(r) {
        ShorteningHop(b, door, path, query);
        var to := Serve(r).to;
        RankDecreases(r);
        if Serve(to).Redirect? {
          BaseDoesNotShorten(to);
          SettlesInOne(to);
        }
      } else {
        SettlesInOne(r);
      }
    }
  }

  lemma BaseDoesNotShorten(r: Request)
    requires IsBase(r.host)
    ensures !Shortens(r)
    ensures IsMarketing(r.path) ==> !Serve(r).Redirect?
  {
    BaseHasNoPrefix(r.host);
    assert !StartsWith(r.host, Prefix(App)) && !StartsWith(r.host, Prefix(Org)) && !StartsWith(r.host, Prefix(Admin));
    ClaimsAreDisjoint(r.path);
    hide IsMarketing, IsApp, HasNext, IsLocalHost;
  }

  lemma PortalShortens(b: string, portal: Surface, path: string, query: string)
    requires IsBase(b) && (portal == App || portal == Org)
    requires Shortens(Request(Prefix(portal) + b, path, query))
    ensures Serve(Request(Prefix(portal) + b, path, query)).to == Request(b, path, query)
    ensures IsMarketing(path)
  {
    PrefixedHost(portal, b);
    hide IsMarketing, IsApp, HasNext, IsLocalHost, BaseHost;
  }

  lemma OthersDoNotShorten(b: string, s: Surface, path: string, query: string)
    requires IsBase(b) && (s == Api || s == Admin)
    ensures !Shortens(Request(Prefix(s) + b, path, query))
  {
    PrefixedHost(s, b);
    hide IsMarketing, IsApp, HasNext, IsLocalHost, BaseHost;
  }

  /** A hop to a shorter host leads to the base. */
  lemma ShorteningHop(b: string, door: nat, path: string, query: string)
    requires IsBase(b) && door < |Doors(b)|
    requires Shortens(Request(Doors(b)[door], path, query))
    ensures Serve(Request(Doors(b)[door], path, query)).to == Request(b, path, query)
    ensures door == 1 || IsMarketing(path)
  {
    BaseDoesNotShorten(Request(b, path, query));
    OthersDoNotShorten(b, Api, path, query);
    OthersDoNotShorten(b, Admin, path, query);
    WwwHost(b);
    hide IsMarketing, IsApp, HasNext, IsLocalHost, BaseHost;
    if door == 2 { PortalShortens(b, App, path, query); }
    if door == 3 { PortalShortens(b, Org, path, query); }
  }

  predicate Claimed(path: string) {
    IsMarketing(path) || IsApp(path) || Under(path, "/admin")
  }

  /** The one host of an environment that answers for a claimed path. */
  function HomeOf(b: string, path: string): string {
    if Under(path, "/admin") then "admin." + b else if IsApp(path) then "app." + b else b
  }

  /** Paths the middleware routes by host at all: seen by it, not proxied, not the landing. */
  predicate Routed(path: string) {
    Matched(path) && !Under(path, "/api") && path != "/"
  }

  lemma SettlesAtOnce(r: Request)
    requires Serve(r).Redirect? && !Serve(Serve(r).to).Redirect?
    ensures Settle(r) == Serve(r).to
  {
    RankDecreases(r);
    hide Serve;
  }

  lemma FromBase(b: string, path: string, query: string)
    requires IsBase(b) && Routed(path)
    ensures Settle(Request(b, path, query)) == Request(HomeOf(b, path), path, query)
  {
    var r := Request(b, path, query);
    BaseHasNoPrefix(b);
    assert !StartsWith(b, Prefix(App)) && !StartsWith(b, Prefix(Org)) && !StartsWith(b, Prefix(Admin));
    ClaimsAreDisjoint(path);
    BaseDoesNotShorten(r);
    hide IsMarketing, IsApp, HasNext, IsLocalHost, BaseHost;
    if Serve(r).Redirect? { SettlesInOne(r); }
  }

  lemma FromWww(b: string, path: string, query: string)
    requires IsBase(b) && Routed(path)
    ensures Settle(Request("www." + b, path, query)) == Request(HomeOf(b, path), path, query)
  {
    var r := Request("www." + b, path, query);
    WwwHost(b);
    hide IsMarketing, IsApp, HasNext, IsLocalHost, BaseHost;
    RankDecreases(r);
    FromBase(b, path, query);
  }

  /** From a portal host everything goes home too, except that the portal keeps its own paths and unclaimed ones. */
  lemma FromPortal(b: string, portal: Surface, path: string, query: string)
    requires IsBase(b) && Routed(path) && (portal == App || portal == Org)
    ensures Settle(Request(Prefix(portal) + b, path, query))
            == Request(if IsMarketing(path) || Under(path, "/admin") then HomeOf(b, path) else Prefix(portal) + b,
                       path, query)
  {
    var r := Request(Prefix(portal) + b, path, query);
    PrefixedHost(portal, b);
    PrefixedHost(Admin, b);
    ClaimsAreDisjoint(path);
    BaseDoesNotShorten(Request(b, path, query));
    PathFacts(path);
    hide IsMarketing, IsApp, HasNext, IsLocalHost, BaseHost;
    if Serve(r).Redirect? { SettlesAtOnce(r); }
  }

  /**
   For a claimed path the base, `www.` and `app.` hosts agree on where it is answered, with path
   and query intact; for any other path the base and `app.` keep it to themselves.
   */
  lemma OneHomePerClaimedPath(b: string, path: string, query: string)
    requires IsBase(b) && Routed(path)
    ensures var home := Request(HomeOf(b, path), path, query);
      && Settle(Request(b, path, query)) == home
      && Settle(Request("www." + b, path, query)) == home
      && (Settle(Request("app." + b, path, query)) == home <==> Claimed(path))
  {
    FromBase(b, path, query);
    FromWww(b, path, query);
    FromPortal(b, App, path, query);
    ClaimsAreDisjoint(path);
    assert |"app." + b| != |b|;
  }

  /** The organization portal keeps the portal's paths, and hands over marketing and console paths. */
  lemma OrgKeepsItsOwn(b: string, path: string, query: string)
    requires IsBase(b) && Routed(path)
    ensures Settle(Request("org." + b, path, query)).host ==
            if IsMarketing(path) || Under(path, "/admin") then HomeOf(b, path) else "org." + b
    ensures Settle(Request("org." + b, path, query)) == Settle(Request(b, path, query))
            <==> IsMarketing(path) || Under(path, "/admin")
  {
    FromPortal(b, Org, path, query);
    FromBase(b, path, query);
    ClaimsAreDisjoint(path);
    assert "org." + b != "app." + b by { assert ("org." + b)[0] != ("app." + b)[0]; }
    assert |"org." + b| != |b|;
  }

  /** Every host of an environment derives the same siblings, the same API host among them. */
  lemma SiblingsAgree(b: string, s: Surface, t: Surface)
    requires IsBase(b)
    ensures SiblingOrigin(Prefix(s) + b, t) == SiblingOrigin(b, t) == "https://" + Prefix(t) + b
    ensures SiblingOrigin("www." + b, t) == SiblingOrigin(b, t)
    ensures s != Bare ==> (PortalOf(Prefix(s) + b) == OrgPortal <==> s == Org)
  {
    PrefixedHost(s, b);
    if s == Bare { assert Prefix(s) + b == b; }
    WwwHost(b);
  }

  /** Every host of an environment sends its API requests to the same place. */
  lemma OneApi(b: string, s: Surface, path: string, query: string)
    requires IsBase(b) && Matched(path) && Under(path, "/api")
    ensures Serve(Request(Prefix(s) + b, path, query)) == Proxy("https://" + Prefix(Api) + b)
    ensures Serve(Request("www." + b, path, query)) == Proxy("https://" + Prefix(Api) + b)
  {
    SiblingsAgree(b, s, Api);
  }

  /** The landing is the base's, query intact; portals and the console go to their first screen without it. */
  lemma Landings(b: string, s: Surface, query: string)
    requires IsBase(b) && (s == App || s == Org || s == Admin)
    ensures Settle(Request(b, "/", query)) == Settle(Request("www." + b, "/", query)) == Request(b, "/", query)
    ensures Settle(Request(Prefix(s) + b, "/", query))
            == Request(Prefix(s) + b, if s == Admin then "/admin" else "/today", "")
  {
    PathFacts("/");
    BaseDoesNotShorten(Request(b, "/", query));
    WwwHost(b);
    ScreenOf(b, s, query);
    hide IsMarketing, IsApp, HasNext, IsLocalHost, BaseHost;
    SettlesAtOnce(Request("www." + b, "/", query));
  }

  lemma ScreenOf(b: string, s: Surface, query: string)
    requires IsBase(b) && (s == App || s == Org || s == Admin)
    ensures Settle(Request(Prefix(s) + b, "/", query))
            == Request(Prefix(s) + b, if s == Admin then "/admin" else "/today", "")
  {
    PathFacts("/admin");
    ClaimsAreDisjoint("/today");
    PrefixedHost(s, b);
    hide IsMarketing, IsApp, HasNext, IsLocalHost, BaseHost;
    assert Under("/admin", "/admin");
    SettlesAtOnce(Request(Prefix(s) + b, "/", query));
  }

  /** What the console's hostname answers itself. */
  predicate ConsolePage(r: Request) {
    Under(r.path, "/admin") || (r.path == "/login" && HasNext(r.query)) || r.path == "/forgot" || r.path == "/reset"
  }

  /** On the console's hostname only the console and its sign-in pages answer; anything else leads to one of them. */
  lemma ConsoleAnswersOnlyItsOwn(b: string, path: string, query: string)
    requires IsBase(b) && Matched(path) && !Under(path, "/api")
    ensures var r := Request("admin." + b, path, query); var end := Settle(r);
      && end.host == r.host && ConsolePage(end) && (ConsolePage(r) ==> end == r)
      && (!ConsolePage(r) ==>
            end == if path == "/login" then Request(r.host, path, "?next=/admin") else Request(r.host, "/admin", ""))
  {
    var r := Request("admin." + b, path, query);
    PrefixedHost(Admin, b);
    AdminNext();
    PathFacts(path);
    hide IsMarketing, IsApp, HasNext, IsLocalHost, BaseHost;
    assert Under("/admin", "/admin");
    if Serve(r).Redirect? {
      AdminSettles(r);
      SettlesAtOnce(r);
    }
  }
}
