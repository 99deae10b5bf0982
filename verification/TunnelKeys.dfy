/** The string under which a tunnel is cached, and exactly which requests it tells apart. */
module TunnelKeys {
  import Decimal
  import opened Text

  /** Go's `int` on 64-bit platforms. */
  type GoInt = x: int | -0x8000_0000_0000_0000 <= x < 0x8000_0000_0000_0000

  datatype Request = Request(sshHost: string, sshPort: GoInt, sshUser: string, dbHost: string, dbPort: GoInt)

  function TunnelKey(r: Request): string {
    r.sshHost + ":" + Decimal.Print(r.sshPort) + ":" + r.sshUser + "->" + r.dbHost + ":" + Decimal.Print(r.dbPort)
  }

  // ---------- Arrows and ports in strings ----------

  predicate ArrowAt(s: string, i: int) {
    0 <= i < |s| - 1 && s[i] == '-' && s[i + 1] == '>'
  }

  predicate HasArrow(s: string) {
    exists i | 0 <= i < |s| - 1 :: ArrowAt(s, i)
  }

  /** `w` between two colons. */
  predicate PortAt(s: string, i: int, w: string) {
    && 0 <= i && i + |w| + 1 < |s|
    && s[i] == ':' && s[i + 1 + |w|] == ':'
    && forall k | 0 <= k < |w| :: s[i + 1 + k] == w[k]
  }

  /** A number between two colons. */
  ghost predicate HasPort(s: string) {
    exists i: int, n: GoInt :: PortAt(s, i, Decimal.Print(n))
  }

  predicate Bare(w: string) { ':' !in w && '>' !in w }

  lemma NumberIsBare(n: int)
    ensures Bare(Decimal.Print(n))
  {
  }

  lemma CharInPort(s: string, i: int, w: string, k: int)
    requires PortAt(s, i, w) && Bare(w) && i < k < i + 1 + |w|
    ensures s[k] != ':' && s[k] != '>'
  {
    assert s[i + 1 + (k - i - 1)] == w[k - i - 1];
  }

  /** Two ports that start apart share at most a colon. */
  lemma PortsApart(s: string, i: int, w: string, j: int, x: string)
    requires PortAt(s, i, w) && PortAt(s, j, x) && i < j && Bare(w)
    ensures i + 1 + |w| <= j
  {
    if j < i + 1 + |w| {
      CharInPort(s, i, w, j);
      assert false;
    }
  }

  lemma NoWider(s: string, i: int, w: string, x: string)
    requires PortAt(s, i, w) && PortAt(s, i, x) && Bare(w)
    ensures |w| <= |x|
  {
    if |x| < |w| {
      CharInPort(s, i, w, i + 1 + |x|);
      assert false;
    }
  }

  lemma SamePort(s: string, i: int, w: string, x: string)
    requires PortAt(s, i, w) && PortAt(s, i, x) && Bare(w) && Bare(x)
    ensures w == x
  {
    NoWider(s, i, w, x);
    NoWider(s, i, x, w);
    forall k | 0 <= k < |w| ensures w[k] == x[k] {
      assert s[i + 1 + k] == w[k];
    }
  }

  lemma ArrowOutsidePort(s: string, i: int, w: string, a: int)
    requires PortAt(s, i, w) && ArrowAt(s, a) && Bare(w)
    ensures a + 2 <= i || i + 2 + |w| <= a
  {
    if i < a + 1 < i + 1 + |w| {
      CharInPort(s, i, w, a + 1);
      assert false;
    }
  }

  lemma PortIntoSlice(s: string, lo: nat, hi: nat, i: int, w: string)
    requires lo <= hi <= |s| && 0 <= i && i + |w| + 1 < hi - lo && PortAt(s, lo + i, w)
    ensures PortAt(s[lo..hi], i, w)
  {
    var t := s[lo..hi];
    assert t[i] == s[lo + i] && t[i + 1 + |w|] == s[lo + i + 1 + |w|];
    forall k | 0 <= k < |w| ensures t[i + 1 + k] == w[k] {
      assert t[i + 1 + k] == s[lo + i + 1 + k];
    }
  }

  lemma PortOutOfSlice(s: string, lo: nat, hi: nat, i: int, w: string)
    requires lo <= hi <= |s| && PortAt(s[lo..hi], i, w)
    ensures PortAt(s, lo + i, w) && lo + i + 1 + |w| < hi
  {
    var t := s[lo..hi];
    assert t[i] == s[lo + i] && t[i + 1 + |w|] == s[lo + i + 1 + |w|];
    forall k | 0 <= k < |w| ensures s[lo + i + 1 + k] == w[k] {
      assert t[i + 1 + k] == s[lo + i + 1 + k];
    }
  }

  lemma ArrowInSlice(s: string, lo: nat, hi: nat, i: int)
    requires lo <= hi <= |s|
    ensures ArrowAt(s[lo..hi], i) <==> 0 <= i && i + 1 < hi - lo && ArrowAt(s, lo + i)
  {
  }

  lemma ArrowBehind(s: string, a: int, b: int)
    requires ArrowAt(s, a) && ArrowAt(s, b) && a < b
    ensures HasArrow(s[a + 2..|s|])
  {
    ArrowInSlice(s, a + 2, |s|, b - a - 2);
    assert ArrowAt(s[a + 2..|s|], b - a - 2);
  }

  lemma ArrowBefore(s: string, u: nat, b: int, a: int)
    requires ArrowAt(s, a) && ArrowAt(s, b) && u <= b < a
    ensures HasArrow(s[u..a])
  {
    ArrowInSlice(s, u, a, b - u);
    assert ArrowAt(s[u..a], b - u);
  }

  /** A later port lies before the arrow or behind it, but not across it. */
  lemma PortAfter(s: string, h: int, w: string, a: int, j: int, x: string, b: int)
    requires PortAt(s, h, w) && ArrowAt(s, a) && h + 2 + |w| <= a && Bare(w)
    requires PortAt(s, j, x) && ArrowAt(s, b) && j + 2 + |x| <= b && h < j && Bare(x)
    ensures PortAt(s[h + 1 + |w|..a], j - h - 1 - |w|, x) || HasArrow(s[a + 2..|s|])
  {
    PortsApart(s, h, w, j, x);
    ArrowOutsidePort(s, j, x, a);
    if a + 2 <= j {
      ArrowBehind(s, a, b);
    } else {
      PortIntoSlice(s, h + 1 + |w|, a, j - h - 1 - |w|, x);
    }
  }

  lemma PortIsSlice(s: string, i: int, w: string)
    requires PortAt(s, i, w)
    ensures s[i + 1..i + 1 + |w|] == w
  {
    forall k | 0 <= k < |w| ensures s[i + 1..i + 1 + |w|][k] == w[k] {
      assert s[i + 1 + k] == w[k];
    }
  }

  lemma SliceIsPort(s: string, i: int, w: string)
    requires 0 <= i && i + |w| + 1 < |s| && s[i] == ':' && s[i + 1 + |w|] == ':' && s[i + 1..i + 1 + |w|] == w
    ensures PortAt(s, i, w)
  {
    forall k | 0 <= k < |w| ensures s[i + 1 + k] == w[k] {
      assert s[i + 1..i + 1 + |w|][k] == s[i + 1 + k];
    }
  }

  // ---------- The parts of a key ----------

  /** The key up to the colon before the database port. */
  function Route(r: Request): string {
    r.sshHost + ":" + Decimal.Print(r.sshPort) + ":" + r.sshUser + "->" + r.dbHost
  }

  function Port(r: Request): string { Decimal.Print(r.sshPort) }

  function UserStart(r: Request): nat { |r.sshHost| + |Port(r)| + 2 }

  function ArrowPlace(r: Request): nat { UserStart(r) + |r.sshUser| }

  /** Where the colons, the SSH port and the arrow of a request lie in its route. */
  predicate Marked(s: string, r: Request) {
    PortAt(s, |r.sshHost|, Port(r)) && ArrowAt(s, ArrowPlace(r))
  }

  /** And where its strings lie. */
  predicate Filled(s: string, r: Request) {
    && ArrowPlace(r) + 2 <= |s|
    && s[..|r.sshHost|] == r.sshHost && s[UserStart(r)..ArrowPlace(r)] == r.sshUser
      && s[ArrowPlace(r) + 2..] == r.dbHost
  }

  predicate LaidOut(s: string, r: Request) {
    Marked(s, r) && Filled(s, r)
  }

  lemma Pieces(h: string, p: string, u: string, d: string)
    ensures var s := h + ":" + p + ":" + u + "->" + d;
      && |s| == |h| + |p| + |u| + |d| + 4
      && s[..|h|] == h && s[|h|] == ':' && s[|h| + 1..|h| + 1 + |p|] == p && s[|h| + 1 + |p|] == ':'
      && s[|h| + |p| + 2..|h| + |p| + 2 + |u|] == u
      && s[|h| + |p| + 2 + |u|] == '-' && s[|h| + |p| + 3 + |u|] == '>' && s[|h| + |p| + 4 + |u|..] == d
  {
  }

  lemma RouteIsLaidOut(r: Request)
    ensures LaidOut(Route(r), r)
  {
    Pieces(r.sshHost, Decimal.Print(r.sshPort), r.sshUser, r.dbHost);
    SliceIsPort(Route(r), |r.sshHost|, Port(r));
  }

  lemma Extend(s: string, i: nat, j: nat)
    requires i <= j <= |s|
    ensures s[..j] == s[..i] + s[i..j]
  {
  }

  lemma Assembled(s: string, h: nat, u: nat, a: nat)
    requires h + 1 < u <= a && a + 2 <= |s|
    requires s[h] == ':' && s[u - 1] == ':' && s[a] == '-' && s[a + 1] == '>'
    ensures s == s[..h] + ":" + s[h + 1..u - 1] + ":" + s[u..a] + "->" + s[a + 2..]
  {
    Extend(s, h, h + 1);
    Extend(s, h + 1, u - 1);
    Extend(s, u - 1, u);
    Extend(s, u, a);
    Extend(s, a, a + 2);
    assert s[h..h + 1] == ":" && s[u - 1..u] == ":" && s[a..a + 2] == "->";
  }

  /** What is laid out like a route is one. */
  lemma LaidOutIsRoute(s: string, r: Request)
    requires LaidOut(s, r)
    ensures s == Route(r)
  {
    PortIsSlice(s, |r.sshHost|, Port(r));
    Assembled(s, |r.sshHost|, UserStart(r), ArrowPlace(r));
  }

  /** Equal keys are equal routes and equal database ports. */
  lemma KeyIsRouteAndPort(r: Request, r': Request)
    ensures TunnelKey(r) == TunnelKey(r') <==> Route(r) == Route(r') && r.dbPort == r'.dbPort
  {
    assert TunnelKey(r) == Route(r) + [':'] + Decimal.Print(r.dbPort);
    assert TunnelKey(r') == Route(r') + [':'] + Decimal.Print(r'.dbPort);
    NumberIsBare(r.dbPort);
    NumberIsBare(r'.dbPort);
    if TunnelKey(r) == TunnelKey(r') {
      SplitAtSeparator(Route(r), Decimal.Print(r.dbPort), Route(r'), Decimal.Print(r'.dbPort), ':');
      Decimal.PrintIsInjective(r.dbPort, r'.dbPort);
    }
  }

  // ---------- Two readings of one key ----------

  /** No number stands between colons in the SSH host and the colon behind it, and the SSH user contains no arrow. */
  ghost predicate Plain(r: Request) {
    !HasPort(r.sshHost + ":") && !HasArrow(r.sshUser)
  }

  /** What a request without a twin satisfies. */
  ghost predicate Unambiguous(r: Request) {
    !HasArrow(r.sshUser) && !HasArrow(r.dbHost) && !HasPort(r.sshHost + ":") && !HasPort(":" + r.sshUser)
  }

  lemma ColonBehind(s: string, h: nat)
    requires h < |s| && s[h] == ':'
    ensures s[0..h + 1] == s[..h] + ":"
  {
    assert s[..h + 1] == s[..h] + [s[h]];
  }

  lemma ColonBefore(s: string, u: nat, a: nat)
    requires 0 < u <= a <= |s| && s[u - 1] == ':'
    ensures s[u - 1..a] == ":" + s[u..a]
  {
    assert s[u - 1..a] == [s[u - 1]] + s[u..a];
  }

  /** The SSH host with the colon behind it, and the SSH user with the colon before it, in a route. */
  lemma WithColons(s: string, r: Request)
    requires LaidOut(s, r)
    ensures s[0..|r.sshHost| + 1] == r.sshHost + ":"
    ensures s[UserStart(r) - 1..ArrowPlace(r)] == ":" + r.sshUser
  {
    ColonBehind(s, |r.sshHost|);
    ColonBefore(s, UserStart(r), ArrowPlace(r));
  }

  lemma EarlierPort(s: string, r: Request, r': Request)
    requires LaidOut(s, r) && LaidOut(s, r') && |r'.sshHost| < |r.sshHost|
    ensures HasPort(r.sshHost + ":")
  {
    NumberIsBare(r'.sshPort);
    PortsApart(s, |r'.sshHost|, Port(r'), |r.sshHost|, Port(r));
    PortIntoSlice(s, 0, |r.sshHost| + 1, |r'.sshHost|, Port(r'));
    WithColons(s, r);
    assert PortAt(r.sshHost + ":", |r'.sshHost|, Decimal.Print(r'.sshPort));
  }

  lemma LaterArrow(s: string, r: Request, r': Request)
    requires LaidOut(s, r) && LaidOut(s, r') && ArrowPlace(r) < ArrowPlace(r')
    ensures HasArrow(r.dbHost)
  {
    ArrowBehind(s, ArrowPlace(r), ArrowPlace(r'));
    assert s[ArrowPlace(r) + 2..|s|] == r.dbHost;
  }

  lemma EarlierArrow(s: string, r: Request, r': Request)
    requires LaidOut(s, r) && LaidOut(s, r') && UserStart(r) <= ArrowPlace(r') < ArrowPlace(r)
    ensures HasArrow(r.sshUser)
  {
    ArrowBefore(s, UserStart(r), ArrowPlace(r'), ArrowPlace(r));
  }

  lemma PortBehindColon(s: string, r: Request, j: int, w: string)
    requires LaidOut(s, r)
    ensures PortAt(s[UserStart(r) - 1..ArrowPlace(r)], j, w) <==> PortAt(":" + r.sshUser, j, w)
  {
    WithColons(s, r);
  }

  lemma LaterPortAt(s: string, r: Request, h: int, w: string, b: int)
    requires LaidOut(s, r) && |r.sshHost| < h && PortAt(s, h, w) && Bare(w) && ArrowAt(s, b) && h + 2 + |w| <= b
    ensures PortAt(":" + r.sshUser, h - UserStart(r) + 1, w) || HasArrow(r.dbHost)
  {
    NumberIsBare(r.sshPort);
    PortAfter(s, |r.sshHost|, Port(r), ArrowPlace(r), h, w, b);
    PortBehindColon(s, r, h - UserStart(r) + 1, w);
    assert s[ArrowPlace(r) + 2..|s|] == r.dbHost;
  }

  lemma LaterPort(s: string, r: Request, r': Request)
    requires LaidOut(s, r) && LaidOut(s, r') && |r.sshHost| < |r'.sshHost|
    ensures HasPort(":" + r.sshUser) || HasArrow(r.dbHost)
  {
    NumberIsBare(r'.sshPort);
    LaterPortAt(s, r, |r'.sshHost|, Decimal.Print(r'.sshPort), ArrowPlace(r'));
  }

  lemma SamePortNumber(s: string, r: Request, r': Request)
    requires Marked(s, r) && Marked(s, r') && |r.sshHost| == |r'.sshHost|
    ensures r.sshPort == r'.sshPort
  {
    NumberIsBare(r.sshPort);
    NumberIsBare(r'.sshPort);
    SamePort(s, |r.sshHost|, Port(r), Port(r'));
    Decimal.PrintIsInjective(r.sshPort, r'.sshPort);
  }

  lemma SamePlaces(s: string, r: Request, r': Request)
    requires LaidOut(s, r) && LaidOut(s, r') && r.dbPort == r'.dbPort
    requires |r.sshHost| == |r'.sshHost| && ArrowPlace(r) == ArrowPlace(r')
    ensures r == r'
  {
    SamePortNumber(s, r, r');
  }

  /** Different requests with one key start their SSH ports or their arrows at different places. */
  lemma TwinsDiffer(r: Request, r': Request)
    requires TunnelKey(r) == TunnelKey(r') && r != r'
    ensures LaidOut(Route(r), r) && LaidOut(Route(r), r')
    ensures |r.sshHost| != |r'.sshHost| || (ArrowPlace(r) != ArrowPlace(r') && UserStart(r) == UserStart(r'))
  {
    KeyIsRouteAndPort(r, r');
    RouteIsLaidOut(r);
    RouteIsLaidOut(r');
    if |r.sshHost| == |r'.sshHost| {
      SamePortNumber(Route(r), r, r');
      if ArrowPlace(r) == ArrowPlace(r') { SamePlaces(Route(r), r, r'); }
    }
  }

  /** Plain requests with equal keys are equal in all five fields. */
  lemma TunnelKeyIsInjective(r: Request, r': Request)
    requires Plain(r) && Plain(r') && TunnelKey(r) == TunnelKey(r')
    ensures r == r'
  {
    if r != r' {
      var s := Route(r);
      TwinsDiffer(r, r');
      if |r.sshHost| < |r'.sshHost| { EarlierPort(s, r', r); }
      else if |r'.sshHost| < |r.sshHost| { EarlierPort(s, r, r'); }
      else if ArrowPlace(r) < ArrowPlace(r') { EarlierArrow(s, r', r); }
      else { EarlierArrow(s, r, r'); }
    }
  }

  /** An unambiguous request shares its key with no other request at all. */
  lemma UnambiguousHasNoTwin(r: Request, r': Request)
    requires Unambiguous(r) && TunnelKey(r') == TunnelKey(r)
    ensures r' == r
  {
    if r != r' {
      var s := Route(r);
      TwinsDiffer(r, r');
      if |r.sshHost| < |r'.sshHost| { LaterPort(s, r, r'); }
      else if |r'.sshHost| < |r.sshHost| { EarlierPort(s, r, r'); }
      else if ArrowPlace(r) < ArrowPlace(r') { LaterArrow(s, r, r'); }
      else { EarlierArrow(s, r, r'); }
    }
  }

  // ---------- The twins of the others ----------

  lemma SlicesAreLaidOut(s: string, i: nat, n: GoInt, a: nat, dbPort: GoInt) returns (r: Request)
    requires PortAt(s, i, Decimal.Print(n)) && ArrowAt(s, a) && i + 2 + |Decimal.Print(n)| <= a
    ensures r == Request(s[..i], n, s[i + 2 + |Decimal.Print(n)|..a], s[a + 2..], dbPort) && LaidOut(s, r)
  {
    r := Request(s[..i], n, s[i + 2 + |Decimal.Print(n)|..a], s[a + 2..], dbPort);
    assert |r.sshHost| == i && UserStart(r) == i + 2 + |Decimal.Print(n)| && ArrowPlace(r) == a;
  }

  /** Any port and any later arrow in a route give a request with the same key. */
  lemma RereadIsTwin(r: Request, i: nat, n: GoInt, a: nat) returns (r': Request)
    requires PortAt(Route(r), i, Decimal.Print(n)) && ArrowAt(Route(r), a) && i + 2 + |Decimal.Print(n)| <= a
    ensures TunnelKey(r') == TunnelKey(r)
    ensures |r'.sshHost| == i && |r'.sshUser| == a - i - 2 - |Decimal.Print(n)| && |r'.dbHost| == |Route(r)| - a - 2
  {
    var s := Route(r);
    r' := SlicesAreLaidOut(s, i, n, a, r.dbPort);
    LaidOutIsRoute(s, r');
    KeyIsRouteAndPort(r, r');
  }

  lemma SomePort(t: string) returns (i: int, n: GoInt)
    requires HasPort(t)
    ensures PortAt(t, i, Decimal.Print(n))
  {
    i, n :| PortAt(t, i, Decimal.Print(n));
  }

  lemma PortInHost(r: Request, i: int, w: string)
    requires PortAt(r.sshHost + ":", i, w)
    ensures PortAt(Route(r), i, w) && ArrowAt(Route(r), ArrowPlace(r))
    ensures 0 <= i && i + 1 + |w| <= |r.sshHost|
  {
    RouteIsLaidOut(r);
    WithColons(Route(r), r);
    PortOutOfSlice(Route(r), 0, |r.sshHost| + 1, i, w);
  }

  /** A port before the end of the SSH host, read as the SSH port: the twin has a shorter host. */
  lemma PortInHostIsAmbiguous(r: Request) returns (r': Request)
    requires HasPort(r.sshHost + ":")
    ensures TunnelKey(r') == TunnelKey(r) && |r'.sshHost| < |r.sshHost|
  {
    var i, n := SomePort(r.sshHost + ":");
    PortInHost(r, i, Decimal.Print(n));
    r' := RereadIsTwin(r, i, n, ArrowPlace(r));
  }

  lemma PortOfUser(s: string, r: Request, i: int, w: string)
    requires LaidOut(s, r) && PortAt(":" + r.sshUser, i, w)
    ensures PortAt(s, UserStart(r) - 1 + i, w) && 0 <= i && UserStart(r) + 1 + i + |w| <= ArrowPlace(r)
  {
    PortBehindColon(s, r, i, w);
    PortOutOfSlice(s, UserStart(r) - 1, ArrowPlace(r), i, w);
  }

  lemma PortInUser(r: Request, i: int, w: string)
    requires PortAt(":" + r.sshUser, i, w)
    ensures PortAt(Route(r), UserStart(r) - 1 + i, w) && ArrowAt(Route(r), ArrowPlace(r))
    ensures 0 <= i && UserStart(r) + 1 + i + |w| <= ArrowPlace(r)
  {
    RouteIsLaidOut(r);
    PortOfUser(Route(r), r, i, w);
  }

  lemma UserPortTwin(r: Request, i: int, n: GoInt) returns (r': Request)
    requires PortAt(":" + r.sshUser, i, Decimal.Print(n))
    ensures TunnelKey(r') == TunnelKey(r) && |r.sshHost| < |r'.sshHost|
  {
    PortInUser(r, i, Decimal.Print(n));
    r' := RereadIsTwin(r, UserStart(r) - 1 + i, n, ArrowPlace(r));
  }

  /** A port in the SSH user. */
  lemma PortInUserIsAmbiguous(r: Request) returns (r': Request)
    requires HasPort(":" + r.sshUser)
    ensures TunnelKey(r') == TunnelKey(r) && |r.sshHost| < |r'.sshHost|
  {
    var i, n := SomePort(":" + r.sshUser);
    r' := UserPortTwin(r, i, n);
  }

  lemma ArrowInUser(s: string, r: Request, i: int)
    requires LaidOut(s, r) && ArrowAt(r.sshUser, i)
    ensures ArrowAt(s, UserStart(r) + i)
  {
    ArrowInSlice(s, UserStart(r), ArrowPlace(r), i);
  }

  lemma ArrowInDatabase(s: string, r: Request, i: int)
    requires LaidOut(s, r) && ArrowAt(r.dbHost, i)
    ensures ArrowAt(s, ArrowPlace(r) + 2 + i)
  {
    assert r.dbHost == s[ArrowPlace(r) + 2..|s|];
    ArrowInSlice(s, ArrowPlace(r) + 2, |s|, i);
  }

  /** An arrow in the SSH user: the part behind it may belong to the database host. */
  lemma ArrowInUserIsAmbiguous(r: Request) returns (r': Request)
    requires HasArrow(r.sshUser)
    ensures TunnelKey(r') == TunnelKey(r) && |r'.sshHost| == |r.sshHost| && |r'.sshUser| < |r.sshUser|
  {
    RouteIsLaidOut(r);
    var i :| 0 <= i < |r.sshUser| - 1 && ArrowAt(r.sshUser, i);
    ArrowInUser(Route(r), r, i);
    r' := RereadIsTwin(r, |r.sshHost|, r.sshPort, UserStart(r) + i);
  }

  /** An arrow in the database host: the part before it may belong to the SSH user. */
  lemma ArrowInDatabaseIsAmbiguous(r: Request) returns (r': Request)
    requires HasArrow(r.dbHost)
    ensures TunnelKey(r') == TunnelKey(r) && |r'.dbHost| < |r.dbHost|
  {
    RouteIsLaidOut(r);
    var i :| 0 <= i < |r.dbHost| - 1 && ArrowAt(r.dbHost, i);
    ArrowInDatabase(Route(r), r, i);
    r' := RereadIsTwin(r, |r.sshHost|, r.sshPort, ArrowPlace(r) + 2 + i);
    assert |Route(r)| == ArrowPlace(r) + 2 + |r.dbHost|;
  }

  lemma AmbiguousHasTwin(r: Request) returns (r': Request)
    requires !Unambiguous(r)
    ensures r' != r && TunnelKey(r') == TunnelKey(r)
  {
    if HasArrow(r.sshUser) { r' := ArrowInUserIsAmbiguous(r); }
    else if HasArrow(r.dbHost) { r' := ArrowInDatabaseIsAmbiguous(r); }
    else if HasPort(r.sshHost + ":") { r' := PortInHostIsAmbiguous(r); }
    else { r' := PortInUserIsAmbiguous(r); }
  }

  /** A request has its key to itself if and only if it is unambiguous. */
  lemma KeyIsOwnExactly(r: Request)
    ensures (forall r' :: TunnelKey(r') == TunnelKey(r) ==> r' == r) <==> Unambiguous(r)
  {
    if Unambiguous(r) {
      forall r' | TunnelKey(r') == TunnelKey(r) ensures r' == r { UnambiguousHasNoTwin(r, r'); }
    } else {
      var r' := AmbiguousHasTwin(r);
    }
  }

  /** Each key belongs to exactly one plain request. */
  lemma {:induction false} OnePlainRequestPerKey(r: Request) returns (p: Request)
    ensures Plain(p) && TunnelKey(p) == TunnelKey(r)
    ensures forall q | Plain(q) && TunnelKey(q) == TunnelKey(r) :: q == p
    decreases |r.sshHost|, |r.sshUser|
  {
    if HasPort(r.sshHost + ":") {
      var r' := PortInHostIsAmbiguous(r);
      p := OnePlainRequestPerKey(r');
    } else if HasArrow(r.sshUser) {
      var r' := ArrowInUserIsAmbiguous(r);
      p := OnePlainRequestPerKey(r');
    } else {
      p := r;
      forall q | Plain(q) && TunnelKey(q) == TunnelKey(r) ensures q == p { TunnelKeyIsInjective(q, p); }
    }
  }
}
