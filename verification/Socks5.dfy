/** The SOCKS5 client: the bytes it sends (RFC 1928, RFC 1929) and the handshake it
    reads from a stream. */
module Socks5 {
  import opened Text

  type Byte = b: int | 0 <= b < 256
  type Bytes = seq<Byte>

  datatype Credentials = Credentials(user: Bytes, pass: Bytes)

  /** A destination host as net.ParseIP sees it: an address, or else a name. */
  datatype Host = V4(ip: Bytes) | V6(ip: Bytes) | Name(name: Bytes)

  /** The address to dial, after net.SplitHostPort and strconv.Atoi. */
  datatype Target = Unsplittable | NoPort | Target(host: Host, port: int)

  datatype Error =
    | WriteFailed
    | ShortRead
    | WrongVersion(version: Byte)
    | NoMethod(choice: Byte)
    | CredentialsTooLong
    | AuthFailed
    | BadTarget
    | BadPort
    | NameTooLong
    | Refused(code: Byte)
    | BadAddressType(atyp: Byte)

  // ---------- Messages ----------

  function Greeting(c: Credentials): Bytes {
    if c.user == [] then [5, 1, 0] else [5, 2, 0, 2]
  }

  predicate Fits(c: Credentials) {
    |c.user| <= 255 && |c.pass| <= 255
  }

  function AuthMessage(c: Credentials): Bytes
    requires Fits(c)
  {
    [1, |c.user|] + c.user + [|c.pass|] + c.pass
  }

  /** The size of an address is that of its kind; names fit a length byte. */
  predicate Encodable(h: Host) {
    match h
    case V4(ip) => |ip| == 4
    case V6(ip) => |ip| == 16
    case Name(n) => |n| <= 255
  }

  predicate ValidIP(h: Host) {
    (h.V4? ==> |h.ip| == 4) && (h.V6? ==> |h.ip| == 16)
  }

  function Dest(h: Host): (r: Bytes)
    requires Encodable(h)
  {
    match h
    case V4(ip) => [1] + ip
    case V6(ip) => [4] + ip
    case Name(n) => [3, |n|] + n
  }

  function Connect(h: Host, port: nat): Bytes
    requires Encodable(h) && port < 0x1_0000
  {
    [5, 1, 0] + Dest(h) + [port / 256, port % 256]
  }

  // ---------- Reading the messages by the standards ----------

  function Take(s: Bytes, n: nat): Option<(Bytes, Bytes)> {
    if |s| < n then None else Some((s[..n], s[n..]))
  }

  /** Section 3 of RFC 1928: VER, NMETHODS and METHODS, and what follows. */
  function ParseGreeting(s: Bytes): Option<(Bytes, Bytes)> {
    if |s| < 2 || s[0] != 5 then None else Take(s[2..], s[1])
  }

  /** A server that reads the greeting finds the methods offered: none at all, and
      user name and password exactly when there is a user name. */
  lemma GreetingOffers(c: Credentials, rest: Bytes)
    ensures ParseGreeting(Greeting(c) + rest).Some?
    ensures var (methods, after) := ParseGreeting(Greeting(c) + rest).value;
            && after == rest && |methods| >= 1 && (forall m | m in methods :: m == 0 || m == 2)
            && 0 in methods && (2 in methods <==> |c.user| > 0)
            && |methods| == if |c.user| > 0 then 2 else 1
  {
    hide Take;
    var g := Greeting(c);
    var s := g + rest;
    assert s[2..] == g[2..] + rest && s[0] == g[0] && s[1] == g[1];
    TakeFront(g[2..], rest);
    if c.user == [] {
      assert g[2..] == [0];
    } else {
      assert g[2..] == [0, 2];
    }
  }

  /** Section 5 of RFC 1928: ATYP and DST.ADDR, and what follows. */
  function ParseHost(s: Bytes): Option<(Host, Bytes)> {
    if s == [] then None
    else if s[0] == 1 then
      match Take(s[1..], 4) { case None => None case Some((ip, rest)) => Some((V4(ip), rest)) }
    else if s[0] == 4 then
      match Take(s[1..], 16) { case None => None case Some((ip, rest)) => Some((V6(ip), rest)) }
    else if s[0] == 3 && |s| > 1 then
      match Take(s[2..], s[1]) { case None => None case Some((n, rest)) => Some((Name(n), rest)) }
    else None
  }

  /** Section 4 of RFC 1928: VER, CMD = CONNECT, RSV, ATYP, DST.ADDR and DST.PORT in
      network order, and what follows. */
  function ParseConnect(s: Bytes): Option<(Host, nat, Bytes)> {
    if |s| < 3 || s[..3] != [5, 1, 0] then None
    else
      match ParseHost(s[3..])
      case None => None
      case Some((h, rest)) =>
        if |rest| < 2 then None else Some((h, 256 * (rest[0] as int) + rest[1] as int, rest[2..]))
  }

  /** Section 2 of RFC 1929: VER, ULEN, UNAME, PLEN, PASSWD, and what follows. */
  function ParseAuth(s: Bytes): Option<(Credentials, Bytes)> {
    if |s| < 2 || s[0] != 1 || |s| < 3 + s[1] as int then None
    else
      var u, t := s[2..2 + s[1]], s[2 + s[1]..];
      if |t| < 1 + t[0] as int then None
      else Some((Credentials(u, t[1..1 + t[0]]), t[1 + t[0]..]))
  }

  /** Reading an encoded request gives back host and port, and no other bytes are
      read as one. */
  lemma ConnectRoundTrip(h: Host, port: nat, rest: Bytes)
    requires Encodable(h) && port < 0x1_0000
    ensures ParseConnect(Connect(h, port) + rest) == Some((h, port, rest))
  {
    hide ParseHost, Dest;
    var tail := [port / 256, port % 256] + rest;
    var s := Connect(h, port) + rest;
    assert s == [5, 1, 0] + (Dest(h) + tail);
    assert s[..3] == [5, 1, 0] && s[3..] == Dest(h) + tail;
    HostRoundTrip(h, tail);
    assert tail[2..] == rest;
  }

  lemma TakeFront(a: Bytes, rest: Bytes)
    ensures Take(a + rest, |a|) == Some((a, rest))
  {
  }

  lemma Behind(p: Bytes, a: Bytes, rest: Bytes)
    requires p != []
    ensures (p + a + rest)[|p|..] == a + rest && (p + a + rest)[..|p|] == p
    ensures |p + a + rest| >= |p| && forall i | 0 <= i < |p| :: (p + a + rest)[i] == p[i]
  {
  }

  lemma HostRoundTrip(h: Host, rest: Bytes)
    requires Encodable(h)
    ensures ParseHost(Dest(h) + rest) == Some((h, rest))
  {
    hide Take;
    match h
    case V4(ip) =>
      TakeFront(ip, rest);
      Behind([1], ip, rest);
    case V6(ip) =>
      TakeFront(ip, rest);
      Behind([4], ip, rest);
    case Name(n) =>
      TakeFront(n, rest);
      Behind([3, |n|], n, rest);
  }

  lemma ParsedHostIsEncoded(s: Bytes)
    requires ParseHost(s).Some?
    ensures var (h, rest) := ParseHost(s).value; Encodable(h) && s == Dest(h) + rest
  {
  }

  lemma ParsedConnectIsEncoded(s: Bytes)
    requires ParseConnect(s).Some?
    ensures var (h, port, rest) := ParseConnect(s).value;
            Encodable(h) && port < 0x1_0000 && s == Connect(h, port) + rest
  {
    hide ParseHost, Dest;
    ParsedHostIsEncoded(s[3..]);
    var (h, after) := ParseHost(s[3..]).value;
    assert after == [after[0], after[1]] + after[2..];
    assert s == [5, 1, 0] + s[3..];
  }

  lemma AuthRoundTrip(c: Credentials, rest: Bytes)
    requires Fits(c)
    ensures ParseAuth(AuthMessage(c) + rest) == Some((c, rest))
  {
    var s := AuthMessage(c) + rest;
    var t := [|c.pass|] + c.pass + rest;
    assert s == [1, |c.user|] + c.user + t;
    assert s[2..2 + |c.user|] == c.user && s[2 + |c.user|..] == t;
    assert t[1..1 + |c.pass|] == c.pass && t[1 + |c.pass|..] == rest;
  }

  lemma Thirds(s: Bytes, i: nat, j: nat)
    requires i <= j <= |s|
    ensures s == s[..i] + s[i..j] + s[j..]
  {
  }

  lemma ParsedAuthIsEncoded(s: Bytes)
    requires ParseAuth(s).Some?
    ensures var (c, rest) := ParseAuth(s).value; Fits(c) && s == AuthMessage(c) + rest
  {
    hide AuthMessage;
    var (c, rest) := ParseAuth(s).value;
    var u, p := |c.user|, |c.pass|;
    var t := s[2 + u..];
    Thirds(s, 2, 2 + u);
    Thirds(t, 1, 1 + p);
    assert s[..2] == [1, u] && t[..1] == [p];
    AuthParts(c, s, t, rest);
  }

  lemma AuthParts(c: Credentials, s: Bytes, t: Bytes, rest: Bytes)
    requires Fits(c) && s == [1, |c.user|] + c.user + t && t == [|c.pass|] + c.pass + rest
    ensures s == AuthMessage(c) + rest
  {
  }

  // ---------- The handshake ----------

  /** One connection: what can still be read, what was sent, how many writes will
      still succeed, and how many bytes the first one to fail gets through. */
  datatype Link = Link(input: Bytes, sent: Bytes, writes: nat, partial: nat)

  datatype Outcome = Outcome(link: Link, error: Option<Error>)

  function Sent(l: Link, bs: Bytes): Link
    requires l.writes > 0
  {
    l.(sent := l.sent + bs, writes := l.writes - 1)
  }

  /** After a write that failed, having got through some of its bytes. */
  function Broken(l: Link, bs: Bytes): Link {
    l.(sent := l.sent + if l.partial <= |bs| then bs[..l.partial] else bs)
  }

  /** After reading `n` bytes, or all there were. */
  function Read(l: Link, n: nat): Link {
    l.(input := if n <= |l.input| then l.input[n..] else [])
  }

  function Authenticate(c: Credentials, l: Link): Outcome {
    if !Fits(c) then Outcome(l, Some(CredentialsTooLong))
    else if l.writes == 0 then Outcome(Broken(l, AuthMessage(c)), Some(WriteFailed))
    else
      var m := Sent(l, AuthMessage(c));
      if |m.input| < 2 then Outcome(Read(m, 2), Some(ShortRead))
      else Outcome(Read(m, 2), if m.input[1] == 0 then None else Some(AuthFailed))
  }

  function Negotiate(c: Credentials, l: Link): Outcome {
    if l.writes == 0 then Outcome(Broken(l, Greeting(c)), Some(WriteFailed))
    else
      var m := Sent(l, Greeting(c));
      if |m.input| < 2 then Outcome(Read(m, 2), Some(ShortRead))
      else
        var version, choice := m.input[0], m.input[1];
        if version != 5 then Outcome(Read(m, 2), Some(WrongVersion(version)))
        else if choice == 0 then Outcome(Read(m, 2), None)
        else if choice == 2 then Authenticate(c, Read(m, 2))
        else Outcome(Read(m, 2), Some(NoMethod(choice)))
  }

  function TargetError(t: Target): Option<Error> {
    if t.Unsplittable? then Some(BadTarget)
    else if t.NoPort? || t.port < 0 || t.port > 65535 then Some(BadPort)
    else if t.host.Name? && |t.host.name| > 255 then Some(NameTooLong)
    else None
  }

  /** Skips the rest of a reply whose first four bytes have been read. */
  function SkipAddress(l: Link, atyp: Byte): Outcome {
    if atyp == 1 then Skip(l, 6)
    else if atyp == 4 then Skip(l, 18)
    else if atyp == 3 then
      if l.input == [] then Outcome(l, Some(ShortRead)) else Skip(Read(l, 1), l.input[0] as int + 2)
    else Outcome(l, Some(BadAddressType(atyp)))
  }

  function Skip(l: Link, n: nat): Outcome {
    Outcome(Read(l, n), if |l.input| < n then Some(ShortRead) else None)
  }

  function Reply(l: Link): Outcome {
    if |l.input| < 4 then Outcome(Read(l, 4), Some(ShortRead))
    else
      var m := Read(l, 4);
      if l.input[0] != 5 then Outcome(m, Some(WrongVersion(l.input[0])))
      else if l.input[1] != 0 then Outcome(m, Some(Refused(l.input[1])))
      else SkipAddress(m, l.input[3])
  }

  function Request(t: Target, l: Link): Outcome
    requires t.Target? ==> ValidIP(t.host)
  {
    if TargetError(t).Some? then Outcome(l, TargetError(t))
    else if l.writes == 0 then Outcome(Broken(l, Connect(t.host, t.port)), Some(WriteFailed))
    else Reply(Sent(l, Connect(t.host, t.port)))
  }

  function Handshake(c: Credentials, t: Target, l: Link): Outcome
    requires t.Target? ==> ValidIP(t.host)
  {
    var n := Negotiate(c, l);
    if n.error.Some? then n else Request(t, n.link)
  }

  class Conn {
    var input: Bytes
    var sent: Bytes
    var writes: nat
    const partial: nat
    var open: bool

    constructor (input: Bytes, writes: nat, partial: nat)
      ensures State() == Link(input, [], writes, partial) && open
    {
      this.input, sent, this.writes, this.partial, open := input, [], writes, partial, true;
    }

    function State(): Link
      reads this
    {
      Link(input, sent, writes, partial)
    }

    method Write(bs: Bytes) returns (ok: bool)
      modifies `sent, `writes
      ensures ok == (old(writes) > 0)
      ensures State() == if ok then Sent(old(State()), bs) else Broken(old(State()), bs)
    {
      ok := writes > 0;
      if ok {
        sent, writes := sent + bs, writes - 1;
      } else {
        sent := sent + if partial <= |bs| then bs[..partial] else bs;
      }
    }

    /** io.ReadFull, which uses up what there is even when that is too little. */
    method ReadFull(n: nat) returns (r: Option<Bytes>)
      modifies `input
      ensures State() == Read(old(State()), n)
      ensures r == if n <= old(|input|) then Some(old(input[..n])) else None
    {
      if n <= |input| {
        r, input := Some(input[..n]), input[n..];
      } else {
        r, input := None, [];
      }
    }

    method Auth(c: Credentials) returns (error: Option<Error>)
      modifies `input, `sent, `writes
      ensures Outcome(State(), error) == Authenticate(c, old(State()))
    {
      if |c.user| > 255 || |c.pass| > 255 {
        return Some(CredentialsTooLong);
      }
      var req: Bytes := [1, |c.user|];
      req := req + c.user;
      req := req + [|c.pass|];
      req := req + c.pass;
      var ok := Write(req);
      if !ok {
        return Some(WriteFailed);
      }
      var resp := ReadFull(2);
      if resp.None? {
        return Some(ShortRead);
      }
      if resp.value[1] != 0 {
        return Some(AuthFailed);
      }
      return None;
    }

    method SelectMethod(c: Credentials) returns (error: Option<Error>)
      modifies `input, `sent, `writes
      ensures Outcome(State(), error) == Negotiate(c, old(State()))
    {
      hide Authenticate;
      var methods: Bytes := [0];
      if c.user != [] {
        methods := methods + [2];
      }
      assert [5, |methods|] + methods == Greeting(c);
      var ok := Write([5, |methods|] + methods);
      if !ok {
        return Some(WriteFailed);
      }
      var sel := ReadFull(2);
      if sel.None? {
        return Some(ShortRead);
      }
      if sel.value[0] != 5 {
        return Some(WrongVersion(sel.value[0]));
      }
      if sel.value[1] == 0 {
        return None;
      }
      if sel.value[1] == 2 {
        error := Auth(c);
        return;
      }
      return Some(NoMethod(sel.value[1]));
    }

    method ReadReply() returns (error: Option<Error>)
      modifies `input
      ensures Outcome(State(), error) == Reply(old(State()))
    {
      var hdr := ReadFull(4);
      if hdr.None? {
        return Some(ShortRead);
      }
      if hdr.value[0] != 5 {
        return Some(WrongVersion(hdr.value[0]));
      }
      if hdr.value[1] != 0 {
        return Some(Refused(hdr.value[1]));
      }
      var skip: nat;
      if hdr.value[3] == 1 {
        skip := 4;
      } else if hdr.value[3] == 4 {
        skip := 16;
      } else if hdr.value[3] == 3 {
        var b := ReadFull(1);
        if b.None? {
          return Some(ShortRead);
        }
        skip := b.value[0];
      } else {
        return Some(BadAddressType(hdr.value[3]));
      }
      var rest := ReadFull(skip + 2);
      if rest.None? {
        return Some(ShortRead);
      }
      return None;
    }

    /** Closes the connection on every error, and leaves it open for the tunnel
        otherwise. */
    method Dial(c: Credentials, t: Target) returns (error: Option<Error>)
      requires open && (t.Target? ==> ValidIP(t.host))
      modifies this
      ensures Outcome(State(), error) == Handshake(c, t, old(State()))
      ensures open == error.None?
    {
      error := Negotiated(c, t);
      open := error.None?;
    }

    method Negotiated(c: Credentials, t: Target) returns (error: Option<Error>)
      requires t.Target? ==> ValidIP(t.host)
      modifies `input, `sent, `writes
      ensures Outcome(State(), error) == Handshake(c, t, old(State()))
    {
      hide Negotiate, Reply;
      error := SelectMethod(c);
      if error.Some? {
        return;
      }
      if t.Unsplittable? {
        return Some(BadTarget);
      }
      if t.NoPort? || t.port < 0 || t.port > 65535 {
        return Some(BadPort);
      }
      var dest: Bytes;
      if t.host.V4? {
        dest := [1] + t.host.ip;
      } else if t.host.V6? {
        dest := [4] + t.host.ip;
      } else {
        if |t.host.name| > 255 {
          return Some(NameTooLong);
        }
        dest := [3, |t.host.name|] + t.host.name;
      }
      var req: Bytes := [5, 1, 0] + dest;
      req := req + [t.port / 256, t.port % 256];
      var ok := Write(req);
      if !ok {
        return Some(WriteFailed);
      }
      error := ReadReply();
    }
  }

  // ---------- What a successful handshake looks like ----------

  /** The server's side of the negotiation: no authentication, or credentials it
      asked for and accepted. The version byte of its answer is not looked at. */
  predicate IsSelection(c: Credentials, s: Bytes) {
    s == [5, 0] || (|s| == 4 && s[0] == 5 && s[1] == 2 && s[3] == 0 && |c.user| <= 255 && |c.pass| <= 255)
  }

  /** A positive reply of section 6 of RFC 1928; the reserved byte is free. */
  predicate IsReply(s: Bytes) {
    && |s| >= 5 && s[0] == 5 && s[1] == 0
    && ((s[3] == 1 && |s| == 10) || (s[3] == 4 && |s| == 22) || (s[3] == 3 && |s| == 7 + s[4] as int))
  }

  /** All that a server says before the tunnel opens: `n` bytes of negotiation, then
      its reply. */
  predicate Accepts(c: Credentials, s: Bytes, n: nat) {
    n <= |s| && IsSelection(c, s[..n]) && IsReply(s[n..])
  }

  /** All that is sent on success. */
  function Script(c: Credentials, t: Target, n: nat): Bytes
    requires TargetError(t).None? && ValidIP(t.host)
    requires n > 2 ==> Fits(c)
  {
    Greeting(c) + (if n > 2 then AuthMessage(c) else []) + Connect(t.host, t.port)
  }

  lemma SelectionRead(c: Credentials, l: Link, n: nat)
    requires l.writes >= 2 && n <= |l.input| && IsSelection(c, l.input[..n])
    ensures n == 2 || n == 4
    ensures Negotiate(c, l) == Outcome(
      Link(l.input[n..], l.sent + Greeting(c) + if n > 2 then AuthMessage(c) else [],
           l.writes - (if n > 2 then 2 else 1), l.partial), None)
  {
    hide Greeting, AuthMessage;
    var s := l.input[..n];
    assert |s| == n && s[0] == l.input[0] && s[1] == l.input[1];
    if n == 4 {
      assert s[3] == l.input[3];
      assert l.input[2..][2..] == l.input[4..];
    } else {
      assert s == [5, 0];
    }
  }

  lemma SelectionShort(c: Credentials, l: Link, s: Bytes)
    requires IsSelection(c, s) && l.input < s
    ensures Negotiate(c, l).error.Some?
    ensures l.writes >= 2 ==> Negotiate(c, l).error == Some(ShortRead)
  {
    hide Greeting, AuthMessage;
    assert forall i | 0 <= i < |l.input| :: l.input[i] == s[i];
  }

  lemma SelectionOnly(c: Credentials, l: Link) returns (n: nat)
    requires Negotiate(c, l).error.None?
    ensures l.writes >= 2 || n == 2
    ensures n <= |l.input| && IsSelection(c, l.input[..n]) && Negotiate(c, l).link.input == l.input[n..]
  {
    hide Greeting, AuthMessage;
    n := if l.input[1] == 2 then 4 else 2;
    if n == 4 {
      assert l.input[2..][2..] == l.input[4..];
    }
  }

  lemma ReplyRead(l: Link, k: nat)
    requires k <= |l.input| && IsReply(l.input[..k])
    ensures Reply(l) == Outcome(l.(input := l.input[k..]), None)
  {
    var s := l.input[..k];
    assert s[0] == l.input[0] && s[1] == l.input[1] && s[3] == l.input[3] && s[4] == l.input[4];
    if s[3] == 3 {
      assert l.input[4..][1..] == l.input[5..] && l.input[5..][k - 5..] == l.input[k..];
    } else {
      assert l.input[4..][k - 4..] == l.input[k..];
    }
  }

  lemma ReplyShort(l: Link, s: Bytes)
    requires IsReply(s) && l.input < s
    ensures Reply(l).error == Some(ShortRead)
  {
    assert forall i | 0 <= i < |l.input| :: l.input[i] == s[i];
    assert |l.input| >= 4 ==> |Read(l, 4).input| == |l.input| - 4;
  }

  lemma ReplyOnly(l: Link) returns (k: nat)
    requires Reply(l).error.None?
    ensures k <= |l.input| && IsReply(l.input[..k]) && Reply(l).link.input == l.input[k..]
  {
    var a := l.input[3];
    k := if a == 1 then 10 else if a == 4 then 22 else 7 + l.input[4] as int;
    assert Read(l, 4).input == l.input[4..];
    if a == 3 {
      assert l.input[4..][1..] == l.input[5..] && l.input[5..][k - 5..] == l.input[k..];
    } else {
      assert l.input[4..][k - 4..] == l.input[k..];
    }
  }

  /** Whatever follows what the server has to say stays unread for the tunnel, and
      what was sent is the greeting, the credentials if they were asked for, and
      the request. */
  lemma TunnelIsUntouched(c: Credentials, t: Target, l: Link, said: Bytes, n: nat, tunnel: Bytes)
    requires l.writes >= 3 && (t.Target? ==> ValidIP(t.host)) && TargetError(t).None?
    requires Accepts(c, said, n) && l.input == said + tunnel
    ensures var o := Handshake(c, t, l);
            o.error.None? && o.link.input == tunnel && (n > 2 ==> Fits(c)) && o.link.sent == l.sent + Script(c, t, n)
  {
    hide Negotiate, Reply, IsSelection, IsReply, Greeting, AuthMessage, Connect;
    assert l.input[..n] == said[..n];
    SelectionRead(c, l, n);
    FitsIfAsked(c, said[..n]);
    var m := Sent(Negotiate(c, l).link, Connect(t.host, t.port));
    var k := |said| - n;
    assert m.input == said[n..] + tunnel && m.input[..k] == said[n..] && m.input[k..] == tunnel;
    ReplyRead(m, k);
  }

  lemma FitsIfAsked(c: Credentials, s: Bytes)
    requires IsSelection(c, s)
    ensures |s| > 2 ==> Fits(c)
  {
  }

  /** A server that reads by the standards recovers the credentials, if it asked for
      them, and the target from what was sent, with nothing left over. */
  lemma ScriptDecodes(c: Credentials, t: Target, n: nat)
    requires (t.Target? ==> ValidIP(t.host)) && TargetError(t).None? && (n > 2 ==> Fits(c))
    ensures ParseGreeting(Script(c, t, n)).Some?
    ensures var s := ParseGreeting(Script(c, t, n)).value.1;
            if n > 2 then ParseAuth(s).Some? && ParseAuth(s).value.0 == c
                          && ParseConnect(ParseAuth(s).value.1) == Some((t.host, t.port, []))
            else ParseConnect(s) == Some((t.host, t.port, []))
  {
    hide ParseGreeting, ParseAuth, ParseConnect, AuthMessage, Connect, Greeting;
    var g, r := Greeting(c), Connect(t.host, t.port);
    ConnectRoundTrip(t.host, t.port, []);
    assert r + [] == r;
    if n > 2 {
      AuthRoundTrip(c, r);
      GreetingOffers(c, AuthMessage(c) + r);
      assert Script(c, t, n) == g + (AuthMessage(c) + r);
    } else {
      GreetingOffers(c, r);
      assert Script(c, t, n) == g + r;
    }
  }

  /** Which targets can be asked for. */
  lemma TargetsExactly(t: Target)
    ensures TargetError(t).None? <==>
            t.Target? && 0 <= t.port <= 65535 && (t.host.Name? ==> |t.host.name| <= 255)
    ensures t.Unsplittable? ==> TargetError(t) == Some(BadTarget)
    ensures t.NoPort? || (t.Target? && !(0 <= t.port <= 65535)) ==> TargetError(t) == Some(BadPort)
    ensures t.Target? && 0 <= t.port <= 65535 && t.host.Name? && |t.host.name| > 255 ==>
              TargetError(t) == Some(NameTooLong)
  {
  }

  /** What a reply that is not positive is reported as. */
  lemma RefusalsAreReported(l: Link)
    requires |l.input| >= 4
    ensures l.input[0] != 5 ==> Reply(l).error == Some(WrongVersion(l.input[0]))
    ensures l.input[0] == 5 && l.input[1] != 0 ==> Reply(l).error == Some(Refused(l.input[1]))
    ensures l.input[0] == 5 && l.input[1] == 0 && l.input[3] !in {1, 3, 4} ==>
              Reply(l).error == Some(BadAddressType(l.input[3]))
  {
  }

  /** Nothing else makes the handshake succeed: an unusable target never does, and
      what was read is a negotiation and a positive reply. */
  lemma OnlyAcceptedSucceeds(c: Credentials, t: Target, l: Link)
    requires t.Target? ==> ValidIP(t.host)
    requires Handshake(c, t, l).error.None?
    ensures TargetError(t).None?
    ensures exists n: nat, m: nat | m <= |l.input| ::
              Accepts(c, l.input[..m], n) && Handshake(c, t, l).link.input == l.input[m..]
  {
    hide Negotiate, Reply, IsSelection, IsReply, Connect;
    var n := SelectionOnly(c, l);
    var l2 := Sent(Negotiate(c, l).link, Connect(t.host, t.port));
    var k := ReplyOnly(l2);
    assert l2.input == l.input[n..] && l.input[n..][..k] == l.input[..n + k][n..];
    assert l.input[..n + k][..n] == l.input[..n] && l.input[n..][k..] == l.input[n + k..];
    assert Accepts(c, l.input[..n + k], n);
  }

  /** A stream cut short anywhere before the end of the reply fails. */
  lemma TruncationFails(c: Credentials, t: Target, l: Link, said: Bytes, n: nat)
    requires t.Target? ==> ValidIP(t.host)
    requires Accepts(c, said, n) && l.input < said
    ensures Handshake(c, t, l).error.Some?
    ensures l.writes >= 3 && TargetError(t).None? ==> Handshake(c, t, l).error == Some(ShortRead)
  {
    hide Negotiate, Reply, IsSelection, IsReply, Connect, TargetError;
    if |l.input| < n {
      assert l.input < said[..n];
      SelectionShort(c, l, said[..n]);
    } else {
      CutReply(c, t, l, said, n);
    }
  }

  lemma CutReply(c: Credentials, t: Target, l: Link, said: Bytes, n: nat)
    requires t.Target? ==> ValidIP(t.host)
    requires Accepts(c, said, n) && l.input < said && |l.input| >= n
    ensures Handshake(c, t, l).error.Some?
    ensures l.writes >= 3 && TargetError(t).None? ==> Handshake(c, t, l).error == Some(ShortRead)
  {
    hide Reply, IsSelection, IsReply, Connect, TargetError, Negotiate;
    assert l.input[..n] == said[..n];
    if Negotiate(c, l).error.None? {
      SelectionInput(c, l, n);
      if TargetError(t).None? && Negotiate(c, l).link.writes > 0 {
        TargetOk(t);
        var m := Sent(Negotiate(c, l).link, Connect(t.host, t.port));
        assert m.input < said[n..];
        ReplyShort(m, said[n..]);
      }
    }
    if l.writes >= 3 {
      SelectionRead(c, l, n);
    }
  }

  lemma TargetOk(t: Target)
    requires TargetError(t).None? && (t.Target? ==> ValidIP(t.host))
    ensures t.Target? && Encodable(t.host) && 0 <= t.port < 0x1_0000
  {
  }

  lemma SelectionInput(c: Credentials, l: Link, n: nat)
    requires n <= |l.input| && IsSelection(c, l.input[..n]) && Negotiate(c, l).error.None?
    ensures Negotiate(c, l).link.input == l.input[n..]
  {
    hide Greeting, AuthMessage;
    assert l.input[..n][1] == l.input[1];
    if n == 4 {
      assert l.input[2..][2..] == l.input[4..];
    } else {
      assert n == 2;
    }
  }

  /** Section 2 of RFC 1929 allows neither an empty user name nor an empty password;
      the client sends whatever is configured, even a name it never offered. */
  lemma AuthMeetsStandardExactly(c: Credentials)
    requires Fits(c)
    ensures var s := AuthMessage(c); (s[1] >= 1 && s[2 + s[1]] >= 1) <==> c.user != [] && c.pass != []
  {
  }
}
