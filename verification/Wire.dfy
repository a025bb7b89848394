/** The datagram format shared by the server's UDP socket and the peers. */
module Wire {
  import opened Text

  const MAGIC: Bytes := "RT01"
  const MAGIC_ADDR: Bytes := "RTAD"
  const TOKEN_LEN := 16
  const HDR_LEN := 4 + TOKEN_LEN

  /** A UDP address, identified by its canonical "ip:port" text. */
  datatype Addr = Addr(text: Bytes)

  datatype Packet = Packet(to: Addr, body: Bytes)

  datatype Probe = Probe(token: Bytes, payload: Bytes)

  function Frame(token: Bytes, payload: Bytes): Bytes {
    MAGIC + token + payload
  }

  function ParseProbe(d: Bytes): Option<Probe> {
    if |d| < HDR_LEN || d[..4] != MAGIC then None
    else Some(Probe(d[4..HDR_LEN], d[HDR_LEN..]))
  }

  /** Framing and parsing are inverse: a datagram parses exactly when it is a frame of
      some token of the right length, and then the parts are that frame's parts. */
  lemma ParseInvertsFrame(d: Bytes, token: Bytes, payload: Bytes)
    ensures ParseProbe(d) == Some(Probe(token, payload)) <==> |token| == 16 && d == "RT01" + token + payload
  {
    if |token| == TOKEN_LEN && d == Frame(token, payload) {
      assert d[..4] == MAGIC && d[4..HDR_LEN] == token && d[HDR_LEN..] == payload;
    }
    if ParseProbe(d) == Some(Probe(token, payload)) {
      assert d == d[..4] + d[4..HDR_LEN] + d[HDR_LEN..];
    }
  }
}
