/** The SOCKS5 handshake: a parser that reads a client's bytes piece by piece into one buffer. */
module Socks {
  import opened Text

  datatype Host = IPv4(a: Bytes) | Domain(name: Bytes) | IPv6(a: Bytes)

  predicate ValidHost(h: Host) {
    match h
    case IPv4(a) => |a| == 4
    case Domain(name) => |name| <= 255
    case IPv6(a) => |a| == 16
  }

  /** What a client sends. The offered methods, the version of the request and the reserved byte
      can be anything: the code does not look at them. */
  datatype Request = Request(methods: Bytes, version: Byte, reserved: Byte, host: Host, port: nat)

  predicate ValidRequest(r: Request) {
    |r.methods| <= 255 && ValidHost(r.host) && r.port < 65536
  }

  function Code(n: nat): Byte
    requires n < 256
  {
    n as char
  }

  function HostBytes(h: Host): Bytes
    requires ValidHost(h)
  {
    match h
    case IPv4(a) => [Code(1)] + a
    case Domain(name) => [Code(3), Code(|name|)] + name
    case IPv6(a) => [Code(4)] + a
  }

  /** Section 3 of RFC 1928. */
  function Greeting(methods: Bytes): Bytes
    requires |methods| <= 255
  {
    [Code(5), Code(|methods|)] + methods
  }

  function PortBytes(port: nat): Bytes
    requires port < 65536
  {
    [Code(port / 256), Code(port % 256)]
  }

  /** Section 4 of RFC 1928. */
  function Connect(r: Request): Bytes
    requires ValidRequest(r)
  {
    [r.version, Code(1), r.reserved] + (HostBytes(r.host) + PortBytes(r.port))
  }

  function Encode(r: Request): Bytes
    requires ValidRequest(r)
  {
    Greeting(r.methods) + Connect(r)
  }

  datatype Refusal = ShortRead | NotSocks5 | UnsupportedCommand(command: nat) | BadAddressType

  /** The outcome of a handshake: on success what was requested and what is left to read, and in any
      case what was answered. */
  datatype Parsed = Accepted(request: Request, rest: Bytes) | Refused(reason: Refusal)

  function NoAuth(): Bytes { [Code(5), Code(0)] }

  function Granted(): Bytes { [Code(5), Code(0), Code(0), Code(1), Code(0), Code(0), Code(0), Code(0), Code(0),
                   Code(0)] }

  function NotSupported(): Bytes { [Code(5), Code(7), Code(0), Code(1), Code(0), Code(0), Code(0), Code(0), Code(0),
                        Code(0)] }

  function ParseHost(d: Bytes): Option<(Host, Bytes)>
    requires d != []
  {
    match d[0] as int
    case 1 => if |d| < 5 then None else Some((IPv4(d[1..5]), d[5..]))
    case 3 => if |d| < 2 || |d| < 2 + d[1] as int then None
              else Some((Domain(d[2..2 + d[1] as int]), d[2 + d[1] as int..]))
    case 4 => if |d| < 17 then None else Some((IPv6(d[1..17]), d[17..]))
    case _ => None
  }

  predicate KnownType(d: Bytes)
    requires d != []
  {
    d[0] as int == 1 || d[0] as int == 3 || d[0] as int == 4
  }

  function Parse(d: Bytes): Parsed {
    if |d| < 2 then Refused(ShortRead)
    else if d[0] as int != 5 then Refused(NotSocks5)
    else if |d| < 2 + d[1] as int then Refused(ShortRead)
    else ParseConnect(d[2..2 + d[1] as int], d[2 + d[1] as int..])
  }

  function ParseConnect(methods: Bytes, q: Bytes): Parsed {
    if |q| < 4 then Refused(ShortRead)
    else if q[1] as int != 1 then Refused(UnsupportedCommand(q[1] as int))
    else if !KnownType(q[3..]) then Refused(BadAddressType)
    else
      var host := ParseHost(q[3..]);
      if host.None? || |host.value.1| < 2 then Refused(ShortRead)
      else
        var p := host.value.1;
        Accepted(Request(methods, q[0], q[2], host.value.0, p[0] as int * 256 + p[1] as int), p[2..])
  }

  lemma HostReadsBack(h: Host, rest: Bytes)
    requires ValidHost(h)
    ensures HostBytes(h) + rest != [] && KnownType(HostBytes(h) + rest)
    ensures ParseHost(HostBytes(h) + rest) == Some((h, rest))
  {
    var d := HostBytes(h) + rest;
    match h
    case IPv4(a) => assert d[1..5] == a && d[5..] == rest;
    case Domain(name) => assert d[2..2 + |name|] == name && d[2 + |name|..] == rest;
    case IPv6(a) => assert d[1..17] == a && d[17..] == rest;
  }

  lemma HostWasWritten(d: Bytes)
    requires d != [] && ParseHost(d).Some?
    ensures ValidHost(ParseHost(d).value.0) && d == HostBytes(ParseHost(d).value.0) + ParseHost(d).value.1
  {
  }

  lemma ConnectReadsBack(r: Request, rest: Bytes)
    requires ValidRequest(r)
    ensures ParseConnect(r.methods, Connect(r) + rest) == Accepted(r, rest)
  {
    var q := Connect(r) + rest;
    var tail := PortBytes(r.port) + rest;
    Regroup([r.version, Code(1), r.reserved], HostBytes(r.host), PortBytes(r.port), rest);
    assert q[3..] == HostBytes(r.host) + tail;
    HostReadsBack(r.host, tail);
    assert tail[2..] == rest;
  }

  lemma PortWasWritten(p: Bytes)
    requires |p| >= 2
    ensures p[0] as int * 256 + p[1] as int < 65536
    ensures p == PortBytes(p[0] as int * 256 + p[1] as int) + p[2..]
  {
  }

  lemma Regroup(a: Bytes, b: Bytes, c: Bytes, d: Bytes)
    ensures a + (b + (c + d)) == (a + (b + c)) + d
  {
  }

  lemma ConnectWasWritten(methods: Bytes, q: Bytes)
    requires |methods| <= 255 && ParseConnect(methods, q).Accepted?
    ensures var parsed := ParseConnect(methods, q);
            && ValidRequest(parsed.request) && parsed.request.methods == methods
            && q == Connect(parsed.request) + parsed.rest
  {
    var r, rest := ParseConnect(methods, q).request, ParseConnect(methods, q).rest;
    HostWasWritten(q[3..]);
    PortWasWritten(ParseHost(q[3..]).value.1);
    assert q == [r.version, Code(1), r.reserved] + q[3..];
    Regroup([r.version, Code(1), r.reserved], HostBytes(r.host), PortBytes(r.port), rest);
  }

  lemma GreetingReadsBack(methods: Bytes, q: Bytes)
    requires |methods| <= 255
    ensures Parse(Greeting(methods) + q) == ParseConnect(methods, q)
  {
    var d := Greeting(methods) + q;
    assert d[2..2 + |methods|] == methods && d[2 + |methods|..] == q;
  }

  /** Everything a client may send is accepted, and read no further than it goes. */
  lemma RequestsAccepted(r: Request, rest: Bytes)
    requires ValidRequest(r)
    ensures Parse(Encode(r) + rest) == Accepted(r, rest)
  {
    GreetingReadsBack(r.methods, Connect(r) + rest);
    assert Encode(r) + rest == Greeting(r.methods) + (Connect(r) + rest);
    ConnectReadsBack(r, rest);
  }

  lemma GreetingWasWritten(d: Bytes, methods: Bytes, q: Bytes)
    requires |d| >= 2 && d[0] as int == 5 && |d| >= 2 + d[1] as int
    requires methods == d[2..2 + d[1] as int] && q == d[2 + d[1] as int..]
    ensures |methods| <= 255 && d == Greeting(methods) + q
  {
  }

  /** Nothing else is accepted: the handshake consumed exactly one encoded request. */
  lemma OnlyRequestsAccepted(d: Bytes)
    requires Parse(d).Accepted?
    ensures ValidRequest(Parse(d).request) && d == Encode(Parse(d).request) + Parse(d).rest
  {
    var methods, q := d[2..2 + d[1] as int], d[2 + d[1] as int..];
    var r, rest := Parse(d).request, Parse(d).rest;
    GreetingWasWritten(d, methods, q);
    ConnectWasWritten(methods, q);
    assert Greeting(methods) + (Connect(r) + rest) == (Greeting(methods) + Connect(r)) + rest;
  }

  /** So a stream can be read as a request in one way only. */
  lemma OneReading(a: Request, resta: Bytes, b: Request, restb: Bytes)
    requires ValidRequest(a) && ValidRequest(b) && Encode(a) + resta == Encode(b) + restb
    ensures a == b && resta == restb
  {
    RequestsAccepted(a, resta);
    RequestsAccepted(b, restb);
  }

  // --- The handshake -----------------------------------------------------------------

  /** A connection: what there is to read, what was written, and how many more writes will succeed. */
  class Stream {
    var input: Bytes
    var output: Bytes
    var writes: nat

    /** io.ReadFull into the first n bytes of the buffer. */
    method ReadFull(buf: array<Byte>, n: nat) returns (ok: bool)
      requires n <= buf.Length
      modifies this`input, buf
      ensures ok <==> n <= |old(input)|
      ensures ok ==> buf[..n] == old(input)[..n] && input == old(input)[n..]
    {
      if |input| < n {
        input := [];
        return false;
      }
      for i := 0 to n
        invariant input == old(input) && buf[..i] == input[..i]
      {
        buf[i] := input[i];
      }
      input := input[n..];
      return true;
    }

    method Write(d: Bytes) returns (ok: bool)
      modifies this`output, this`writes
      ensures ok == (old(writes) > 0)
      ensures output == old(output) + if ok then d else []
      ensures writes == if ok then old(writes) - 1 else old(writes)
    {
      if writes == 0 { return false; }
      output := output + d;
      writes := writes - 1;
      return true;
    }
  }

  datatype Target = Target(host: Host, port: nat)

  method ReadHost(c: Stream, buf: array<Byte>, kind: Byte) returns (h: Option<Host>)
    requires buf.Length == 262 && (kind as int == 1 || kind as int == 3 || kind as int == 4)
    modifies c`input, buf
    ensures h.Some? <==> ParseHost([kind] + old(c.input)).Some?
    ensures h.Some? ==> ParseHost([kind] + old(c.input)) == Some((h.value, c.input))
  {
    ghost var d, was := [kind] + c.input, c.input;
    assert d[0] == kind && forall i :: 1 <= i < |d| ==> d[i] == was[i - 1];
    match kind as int {
      case 1 =>
        var ok := c.ReadFull(buf, 4);
        if !ok { return None; }
        assert d[1..5] == was[..4] && d[5..] == was[4..];
        return Some(IPv4(buf[..4]));
      case 3 =>
        var ok := c.ReadFull(buf, 1);
        if !ok { return None; }
        var l := buf[0] as int;
        assert buf[..1][0] == was[0];
        assert d[1] == was[0] && was[1..] == c.input;
        ok := c.ReadFull(buf, l);
        if !ok { return None; }
        assert d[2..2 + l] == was[1..][..l] && d[2 + l..] == was[1..][l..];
        return Some(Domain(buf[..l]));
      case _ =>
        var ok := c.ReadFull(buf, 16);
        if !ok { return None; }
        assert d[1..17] == was[..16] && d[17..] == was[16..];
        return Some(IPv6(buf[..16]));
    }
  }

  /** Version, number of methods, methods. */
  method ReadGreeting(c: Stream, buf: array<Byte>) returns (ok: bool)
    requires buf.Length == 262
    modifies c`input, buf
    ensures var d := old(c.input); ok <==> |d| >= 2 && d[0] as int == 5 && |d| >= 2 + d[1] as int
    ensures ok ==> c.input == old(c.input)[2 + old(c.input)[1] as int..]
  {
    ghost var d := c.input;
    ok := c.ReadFull(buf, 2);
    if !ok { return false; }
    assert buf[..2][0] == d[..2][0] && buf[..2][1] == d[..2][1];
    if buf[0] as int != 5 { return false; }
    var nm := buf[1] as int;
    ok := c.ReadFull(buf, nm);
  }

  /** Command, address and port, with the answers they get. */
  method ReadConnect(c: Stream, buf: array<Byte>, ghost methods: Bytes) returns (r: Option<Target>)
    requires buf.Length == 262
    modifies c`input, c`output, c`writes, buf
    ensures match ParseConnect(methods, old(c.input))
            case Accepted(req, rest) =>
              && r == Some(Target(req.host, req.port)) && c.input == rest
              && c.output == old(c.output) + (if old(c.writes) > 0 then Granted() else [])
            case Refused(reason) =>
              && r == None
              && c.output == old(c.output)
                             + (if reason.UnsupportedCommand? && old(c.writes) > 0 then NotSupported() else [])
  {
    ghost var q := c.input;
    var ok := c.ReadFull(buf, 4);
    if !ok { return None; }
    assert buf[..4][1] == q[..4][1] && buf[..4][3] == q[..4][3];
    if buf[1] as int != 1 {
      ok := c.Write(NotSupported());
      return None;
    }
    var kind := buf[3];
    assert q[3..] == [kind] + q[4..];
    if kind as int != 1 && kind as int != 3 && kind as int != 4 { return None; }
    var host := ReadHost(c, buf, kind);
    if host.None? { return None; }
    ghost var p := c.input;
    ok := c.ReadFull(buf, 2);
    if !ok { return None; }
    assert buf[..2][0] == p[..2][0] && buf[..2][1] == p[..2][1];
    var port := buf[0] as int * 256 + buf[1] as int;
    ok := c.Write(Granted());
    return Some(Target(host.value, port));
  }

  /** What was written: that no authentication is needed, and one reply with this code, an address that
      means nothing behind it (sections 3 and 6 of RFC 1928). */
  ghost predicate Replied(before: Bytes, after: Bytes, code: int) {
    && |after| == |before| + 12 && before <= after
    && after[|before|] as int == 5 && after[|before| + 1] as int == 0
    && after[|before| + 2] as int == 5 && after[|before| + 3] as int == code
    && after[|before| + 4] as int == 0 && after[|before| + 5] as int == 1
    && forall i | |before| + 6 <= i < |after| :: after[i] as int == 0
  }

  lemma RepliesMean(before: Bytes)
    ensures Replied(before, before + NoAuth() + Granted(), 0)
    ensures Replied(before, before + NoAuth() + NotSupported(), 7)
  {
  }

  /** The handshake on one connection. It fails if the first answer cannot be written; whether the
      later one gets through makes no difference. */
  method Handshake(c: Stream) returns (r: Option<Target>)
    modifies c`input, c`output, c`writes
    ensures match Parse(old(c.input))
            case Accepted(req, rest) =>
              if old(c.writes) == 0 then r == None
              else
                && r == Some(Target(req.host, req.port)) && c.input == rest
                && c.output == old(c.output) + NoAuth() + (if old(c.writes) > 1 then Granted() else [])
            case Refused(reason) =>
              && r == None
              && (reason.NotSocks5? ==> c.output == old(c.output))
              && (old(c.writes) > 1 && reason.UnsupportedCommand?
                  ==> c.output == old(c.output) + NoAuth() + NotSupported())
              && (old(c.writes) > 0 && reason.BadAddressType? ==> c.output == old(c.output) + NoAuth())
    ensures old(c.writes) == 0 ==> c.output == old(c.output)
    ensures old(c.writes) > 1 && Parse(old(c.input)).Accepted? ==> Replied(old(c.output), c.output, 0)
    ensures old(c.writes) > 1 && Parse(old(c.input)).Refused? && Parse(old(c.input)).reason.UnsupportedCommand? ==>
              Replied(old(c.output), c.output, 7)
  {
    RepliesMean(c.output);
    ghost var d := c.input;
    var buf := new Byte[262];
    var ok := ReadGreeting(c, buf);
    if !ok { return None; }
    ok := c.Write(NoAuth());
    if !ok { return None; }
    r := ReadConnect(c, buf, d[2..2 + d[1] as int]);
  }
}
