/** The relayed path: a packet connection whose datagrams travel through the server. */
module RelayPath {
  import opened Text
  import opened Wire
  import Punch
  import opened Rendezvous
  import opened RendezvousRuns

  /** The part of a datagram that a read into a buffer of this size keeps. */
  function Cut(d: Bytes, size: nat): Bytes {
    if |d| <= size then d else d[..size]
  }

  /** What a reader with this much space makes of one datagram. */
  function Unframed(d: Bytes, space: nat): seq<Bytes> {
    match ParseProbe(Cut(d, space + HDR_LEN))
    case None => []
    case Some(probe) => [probe.payload]
  }

  /** The payloads among the datagrams that have arrived. */
  function Payloads(inbox: seq<Bytes>, space: nat): seq<Bytes> {
    if inbox == [] then [] else Unframed(inbox[0], space) + Payloads(inbox[1..], space)
  }

  lemma {:induction false} PayloadsConcat(a: seq<Bytes>, b: seq<Bytes>, space: nat)
    ensures Payloads(a + b, space) == Payloads(a, space) + Payloads(b, space)
  {
    if a == [] {
      assert a + b == b;
    } else {
      assert (a + b)[1..] == a[1..] + b;
      PayloadsConcat(a[1..], b, space);
    }
  }

  /** A frame arrives whole exactly when its payload fits the reader's buffer. */
  lemma FrameFits(token: Bytes, payload: Bytes, space: nat)
    requires |token| == TOKEN_LEN
    ensures Unframed(Frame(token, payload), space) == [Cut(payload, space)]
    ensures Unframed(Frame(token, payload), space) == [payload] <==> |payload| <= space
  {
    assert Cut(Frame(token, payload), space + HDR_LEN) == Frame(token, Cut(payload, space));
    ParseInvertsFrame(Frame(token, Cut(payload, space)), token, Cut(payload, space));
  }

  /** Reflection replies, hellos and acks never reach the reader, whatever the buffer. */
  lemma StraysIgnored(text: Bytes, space: nat)
    ensures Unframed(MAGIC_ADDR + text, space) == []
    ensures Unframed(Punch.Hello(), space) == [] && Unframed(Punch.Ack(), space) == []
  {
    var d := Cut(MAGIC_ADDR + text, space + HDR_LEN);
    if |d| >= HDR_LEN {
      assert d[2] == 'A' && MAGIC[2] == '0';
      assert d[..4][2] == d[2];
    }
  }

  /** The datagrams that get through are the frames with a whole header, and nothing else. */
  lemma OnlyFrames(d: Bytes, space: nat)
    ensures Unframed(d, space) != [] <==> exists token, payload :: |token| == TOKEN_LEN && d == Frame(token, payload)
  {
    if Unframed(d, space) != [] {
      var c := Cut(d, space + HDR_LEN);
      var probe := ParseProbe(c).value;
      ParseInvertsFrame(c, probe.token, probe.payload);
      assert d == Frame(probe.token, d[HDR_LEN..]) by {
        assert d == d[..HDR_LEN] + d[HDR_LEN..];
        assert d[..HDR_LEN] == c[..HDR_LEN] == MAGIC + probe.token;
      }
    } else if token, payload :| |token| == TOKEN_LEN && d == Frame(token, payload) {
      FrameFits(token, payload, space);
    }
  }

  lemma ReadBetween(before: seq<Bytes>, d: Bytes, after: seq<Bytes>, payload: Bytes, space: nat)
    requires Unframed(d, space) == [payload]
    ensures Payloads(before + [d] + after, space) == Payloads(before, space) + [payload] + Payloads(after, space)
  {
    PayloadsConcat(before + [d], after, space);
    PayloadsConcat(before, [d], space);
    assert Payloads([d], space) == Unframed(d, space) + Payloads([], space);
  }

  /** From one end to the other: whatever the server has been through, a payload written by one
      peer is forwarded to the address its partner was last heard from, and a read there with
      room for it delivers exactly that payload, between what came before and what comes after. */
  lemma Relayed(now: int, steps: seq<Step>, from: Addr, token: Bytes, payload: Bytes,
                space: nat, before: seq<Bytes>, after: seq<Bytes>)
    requires Run(now, steps) && |token| == TOKEN_LEN && payload != [] && |payload| <= space
    requires var relays := Reached(now, steps).relays;
             token in relays && relays[token].peer in relays && relays[relays[token].peer].addr.Some?
    ensures var st := Reached(now, steps);
            var out := NewlySent(st, Datagram(st, from, Frame(token, payload)));
            && token in st.past.partner && st.past.partner[token] in st.past.heard
            && |out| == 1 && out[0].to == st.past.heard[st.past.partner[token]]
            && Payloads(before + [out[0].body] + after, space)
               == Payloads(before, space) + [payload] + Payloads(after, space)
  {
    Forwarding(now, steps, from, token, payload);
    FrameFits(token, payload, space);
    ReadBetween(before, Frame(token, payload), after, payload, space);
  }

  // --- The socket and the connection -------------------------------------------------

  /** Go's copy: as much as fits. */
  method Copy(dst: array<Byte>, src: Bytes) returns (n: nat)
    modifies dst
    ensures n == |Cut(src, dst.Length)| && dst[..n] == Cut(src, dst.Length)
    ensures dst[n..] == old(dst[n..])
  {
    n := 0;
    while n < dst.Length && n < |src|
      invariant n <= dst.Length && n <= |src|
      invariant dst[..n] == src[..n]
      invariant dst[n..] == old(dst[n..])
    {
      dst[n] := src[n];
      n := n + 1;
    }
  }

  /** A UDP socket: the datagrams waiting to be read, and those written. Reads fail once there
      is nothing more to come, writes once the socket is closed. */
  class Socket {
    var inbox: seq<Bytes>
    var outbox: seq<Packet>
    var closed: bool

    method Read(buf: array<Byte>) returns (n: Result<nat>)
      modifies this`inbox, buf
      ensures old(inbox) == [] ==> n.Err? && inbox == []
      ensures old(inbox) != [] ==>
                && inbox == old(inbox)[1..]
                && n.Ok? && n.value <= buf.Length && buf[..n.value] == Cut(old(inbox)[0], buf.Length)
    {
      if inbox == [] { return Err("read timed out"); }
      var d := inbox[0];
      inbox := inbox[1..];
      var copied := Copy(buf, d);
      return Ok(copied);
    }

    method Write(to: Addr, body: Bytes) returns (ok: bool)
      modifies this`outbox
      ensures ok == !closed
      ensures outbox == old(outbox) + if ok then [Packet(to, body)] else []
    {
      if closed { return false; }
      outbox := outbox + [Packet(to, body)];
      return true;
    }
  }

  class RelayConn {
    const sock: Socket
    const server: Addr
    const token: Bytes

    constructor (sock: Socket, server: Addr, token: Bytes)
      requires |token| == TOKEN_LEN
      ensures this.sock == sock && this.server == server && this.token == token
    {
      this.sock, this.server, this.token := sock, server, token;
    }

    /** Wait for the next payload; everything else that arrives meanwhile is dropped. */
    method ReadFrom(p: array<Byte>) returns (n: Result<nat>)
      modifies sock`inbox, p
      ensures n.Err? ==> Payloads(old(sock.inbox), p.Length) == [] && sock.inbox == [] && p[..] == old(p[..])
      ensures n.Ok? ==>
                && n.value <= p.Length
                && Payloads(old(sock.inbox), p.Length) == [p[..n.value]] + Payloads(sock.inbox, p.Length)
                && p[n.value..] == old(p[n.value..])
    {
      var buf := new Byte[p.Length + HDR_LEN];
      while true
        invariant fresh(buf)
        invariant p[..] == old(p[..])
        invariant Payloads(sock.inbox, p.Length) == Payloads(old(sock.inbox), p.Length)
        decreases |sock.inbox|
      {
        ghost var waiting := sock.inbox;
        var got := sock.Read(buf);
        if got.Err? { return Err(got.error); }
        ghost var kept := Cut(waiting[0], p.Length + HDR_LEN);
        assert buf[..got.value] == kept;
        if got.value < HDR_LEN || buf[..4] != MAGIC {
          assert got.value >= HDR_LEN ==> kept[..4] == buf[..4];
          continue;
        }
        assert kept[..4] == buf[..4] && kept[HDR_LEN..] == buf[HDR_LEN..got.value];
        var payload := buf[HDR_LEN..got.value];
        var copied := Copy(p, payload);
        return Ok(|payload|);
      }
    }

    method WriteTo(p: array<Byte>) returns (n: Result<nat>)
      modifies sock`outbox
      ensures n == if sock.closed then Err("write failed") else Ok(p.Length)
      ensures sock.outbox == old(sock.outbox) + if n.Ok? then [Packet(server, Frame(token, p[..]))] else []
    {
      var out: Bytes := [];
      out := out + MAGIC;
      out := out + token;
      out := out + p[..];
      assert out == Frame(token, p[..]);
      var ok := sock.Write(server, out);
      if !ok { return Err("write failed"); }
      return Ok(p.Length);
    }
  }

  method NewRelayConn(sock: Socket, server: Option<Addr>, token: Bytes) returns (r: Result<RelayConn>)
    ensures r.Ok? <==> server.Some? && |token| == TOKEN_LEN
    ensures r.Ok? ==> r.value.sock == sock && r.value.server == server.value && r.value.token == token
  {
    if server.None? { return Err("unresolvable server address"); }
    if |token| != TOKEN_LEN { return Err("bad token length"); }
    var conn := new RelayConn(sock, server.value, token);
    return Ok(conn);
  }

  // --- Reflection --------------------------------------------------------------------

  function ReflectedIn(d: Bytes): Option<Bytes> {
    if |d| > 4 && d[..4] == MAGIC_ADDR then Some(d[4..]) else None
  }

  ghost predicate NoReply(arrivals: seq<Option<Bytes>>) {
    forall j :: 0 <= j < |arrivals| && arrivals[j].Some? ==> ReflectedIn(arrivals[j].value) == None
  }

  /** Ask the server which address it sees, until it answers: each element of `arrivals` is what
      one read produced. */
  method Reflect(sock: Socket, server: Addr, token: Bytes, arrivals: seq<Option<Bytes>>) returns (r: Result<Bytes>)
    modifies sock`outbox
    ensures sock.closed ==> r.Err? && sock.outbox == old(sock.outbox)
    ensures r.Ok? ==>
              exists i :: 0 <= i < |arrivals| && arrivals[i].Some? && ReflectedIn(arrivals[i].value) == Some(r.value)
                          && NoReply(arrivals[..i]) && |sock.outbox| == |old(sock.outbox)| + i + 1
    ensures r.Err? && !sock.closed ==> NoReply(arrivals)
    ensures old(sock.outbox) <= sock.outbox
    ensures forall i :: |old(sock.outbox)| <= i < |sock.outbox| ==> sock.outbox[i] == Packet(server, Frame(token, []))
  {
    for n := 0 to |arrivals|
      invariant NoReply(arrivals[..n])
      invariant old(sock.outbox) <= sock.outbox && |sock.outbox| == |old(sock.outbox)| + n && (sock.closed ==> n == 0)
      invariant forall i :: |old(sock.outbox)| <= i < |sock.outbox| ==>
                  sock.outbox[i] == Packet(server, Frame(token, []))
    {
      var ok := sock.Write(server, MAGIC + token);
      assert MAGIC + token == Frame(token, []);
      if !ok { return Err("write failed"); }
      if arrivals[n].None? { continue; }
      var d := arrivals[n].value;
      if |d| > 4 && d[..4] == MAGIC_ADDR {
        return Ok(d[4..]);
      }
    }
    return Err("reflection timed out");
  }

  /** The answer to such a probe names the address it came from. */
  lemma ReflectionNamesSender(now: int, steps: seq<Step>, from: Addr, token: Bytes)
    requires Run(now, steps) && |token| == TOKEN_LEN && from.text != []
    ensures var st := Reached(now, steps);
            var out := NewlySent(st, Datagram(st, from, Frame(token, [])));
            |out| == 1 && out[0].to == from && ReflectedIn(out[0].body) == Some(from.text)
  {
    Forwarding(now, steps, from, token, []);
    var reply := MAGIC_ADDR + from.text;
    assert reply[..4] == MAGIC_ADDR && reply[4..] == from.text;
  }
}
