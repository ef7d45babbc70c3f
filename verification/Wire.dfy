/** MySQL packet framing over a network connection (pkg/mysqlproxy/protocol.go). */
module Wire {
  import opened ByteStrings

  const MAX_PAYLOAD_LEN: nat := 0xFF_FFFF
  const PACKET_HEADER_SIZE: nat := 4

  // ---------- the connection ----------

  /** The writing side of a connection: what has been delivered, and how many more bytes
      get through before the connection breaks (None: it never breaks). */
  datatype Link = Link(out: bytes, room: Option<nat>)

  /** One `Write` call. When the connection breaks in the middle, a part of the data is
      delivered and the call fails, as every later one does. */
  function Push(k: Link, data: bytes): (r: (Link, bool)) {
    match k.room
    case None => (k.(out := k.out + data), true)
    case Some(n) =>
      if |data| <= n then (Link(k.out + data, Some(n - |data|)), true)
      else (Link(k.out + data[..n], Some(0)), false)
  }

  /** A net.Conn: the bytes still to be read, and the writing side. */
  class Conn {
    var input: bytes
    var link: Link

    constructor (input: bytes, room: Option<nat>)
      ensures this.input == input && this.link == Link([], room)
    {
      this.input := input;
      this.link := Link([], room);
    }

    /** io.ReadFull: fills `buf`, or consumes what is left and fails. */
    method ReadFull(buf: array<byte>) returns (ok: bool)
      modifies this`input, buf
      ensures ok == (buf.Length <= |old(input)|)
      ensures ok ==> buf[..] == old(input)[..buf.Length] && input == old(input)[buf.Length..]
      ensures !ok ==> input == []
    {
      var n := if buf.Length <= |input| then buf.Length else |input|;
      var i := 0;
      while i < n
        invariant 0 <= i <= n
        invariant input == old(input)
        invariant buf[..i] == input[..i]
      {
        buf[i] := input[i];
        i := i + 1;
      }
      ok := n == buf.Length;
      input := input[n..];
    }

    method Write(data: bytes) returns (ok: bool)
      modifies this`link
      ensures (link, ok) == Push(old(link), data)
    {
      match link.room {
        case None =>
          link := link.(out := link.out + data);
          ok := true;
        case Some(n) =>
          if |data| <= n {
            link := Link(link.out + data, Some(n - |data|));
            ok := true;
          } else {
            link := Link(link.out + data[..n], Some(0));
            ok := false;
          }
      }
    }
  }

  // ---------- framing ----------

  predicate Fits(payload: bytes) {
    |payload| <= MAX_PAYLOAD_LEN
  }

  function Header(length: nat, no: byte): (h: bytes)
    ensures |h| == PACKET_HEADER_SIZE
  {
    LE(length, 3) + [no]
  }

  function Frame(payload: bytes, no: byte): bytes {
    Header(|payload|, no) + payload
  }

  datatype Packet = Packet(payload: bytes, no: byte)

  datatype ReadResult = Got(packet: Packet, rest: bytes) | Failed

  /** What one ReadPacket call makes of the bytes to come. A failed call leaves nothing to read. */
  function ParsePacket(input: bytes): (r: ReadResult)
    ensures r.Got? ==> |r.rest| < |input| && Fits(r.packet.payload)
  {
    if |input| < PACKET_HEADER_SIZE then Failed
    else
      FromLEBound(input[..3]);
      Pow256Values();
      var length := FromLE(input[..3]);
      var rest := input[PACKET_HEADER_SIZE..];
      if |rest| < length then Failed
      else Got(Packet(rest[..length], input[3]), rest[length..])
  }

  function AfterRead(r: ReadResult): bytes {
    if r.Got? then r.rest else []
  }

  method ReadPacket(conn: Conn) returns (payload: bytes, no: byte, ok: bool)
    modifies conn`input
    ensures conn.input == AfterRead(ParsePacket(old(conn.input)))
    ensures ok == ParsePacket(old(conn.input)).Got?
    ensures ok ==> Packet(payload, no) == ParsePacket(old(conn.input)).packet
    ensures !ok ==> payload == [] && no == 0
  {
    payload, no := [], 0;
    var header := new byte[4];
    ok := conn.ReadFull(header);
    if !ok {
      return;
    }
    FromLE3(header[..3]);
    assert header[..3] == old(conn.input)[..3];
    var length := header[0] as int + 256 * header[1] as int + 65536 * header[2] as int;
    no := header[3];
    var buf := new byte[length];
    if length > 0 {
      ok := conn.ReadFull(buf);
      if !ok {
        no := 0;
        return;
      }
    }
    payload := buf[..];
  }

  /** WritePacket: refuses a payload that does not fit, else header and payload in two writes. */
  function SendPacket(k: Link, payload: bytes, no: byte): (r: (Link, bool)) {
    if !Fits(payload) then (k, false)
    else
      var (k1, ok) := Push(k, Header(|payload|, no));
      if ok && |payload| > 0 then Push(k1, payload) else (k1, ok)
  }

  method WritePacket(conn: Conn, payload: bytes, no: byte) returns (ok: bool)
    modifies conn`link
    ensures (conn.link, ok) == SendPacket(old(conn.link), payload, no)
  {
    var length := |payload|;
    if length > MAX_PAYLOAD_LEN {
      return false;
    }
    var header := new byte[4];
    header[0] := length % 256;
    header[1] := (length / 256) % 256;
    header[2] := (length / 65536) % 256;
    header[3] := no;
    LE3(length);
    assert header[..] == Header(length, no);
    ok := conn.Write(header[..]);
    if ok && length > 0 {
      ok := conn.Write(payload);
    }
  }

  // ---------- many packets ----------

  function Stream(ps: seq<Packet>): bytes {
    if ps == [] then [] else Frame(ps[0].payload, ps[0].no) + Stream(ps[1..])
  }

  predicate AllFit(ps: seq<Packet>) {
    forall p <- ps :: Fits(p.payload)
  }

  /** Payloads numbered from `no` on, as a response numbers its packets. */
  function Numbered(payloads: seq<bytes>, no: byte): (r: seq<Packet>)
    ensures |r| == |payloads|
  {
    if payloads == [] then [] else [Packet(payloads[0], no)] + Numbered(payloads[1..], Next(no))
  }

  lemma {:induction false} NumberedAt(payloads: seq<bytes>, no: byte, k: nat)
    requires k < |payloads|
    ensures Numbered(payloads, no)[k] == Packet(payloads[k], (no + k) % 256)
  {
    if k > 0 {
      NumberedAt(payloads[1..], Next(no), k - 1);
      ShiftNext(no, k - 1);
      hide Next;
    }
  }

  function Shift(no: byte, k: nat): byte {
    (no + k) % 256
  }

  lemma ShiftNext(no: byte, k: nat)
    ensures Shift(Next(no), k) == Shift(no, k + 1) && Next(Shift(no, k)) == Shift(no, k + 1)
    ensures Shift(no, 0) == no && Shift(no, 1) == Next(no)
  {
    ShiftOfNext(no, k);
    NextOfShift(no, k);
    Mod256(0, no);
    hide Shift;
    assert Shift(no, 0) == no && Shift(no, 1) == Next(no) by { ShiftStarts(no); }
  }

  lemma ShiftStarts(no: byte)
    ensures Shift(no, 0) == no && Shift(no, 1) == Next(no)
  {
  }

  lemma ShiftOfNext(no: byte, k: nat)
    ensures Shift(Next(no), k) == Shift(no, k + 1)
  {
    if no == 255 {
      Mod256(k / 256 + 1, k % 256);
      assert no + (k + 1) == 256 * (k / 256 + 1) + k % 256;
    }
  }

  lemma NextOfShift(no: byte, k: nat)
    ensures Next(Shift(no, k)) == Shift(no, k + 1)
  {
    var q, r := (no + k) / 256, (no + k) % 256;
    if r < 255 {
      Mod256(q, r + 1);
    } else {
      Mod256(q + 1, 0);
    }
  }

  lemma Mod256(q: nat, r: nat)
    requires r < 256
    ensures (256 * q + r) % 256 == r
  {
  }

  lemma ShiftTwice(no: byte, j: nat, k: nat)
    ensures Shift(Shift(no, j), k) == Shift(no, j + k)
  {
  }

  predicate AllFitIn(payloads: seq<bytes>) {
    forall i :: 0 <= i < |payloads| ==> Fits(payloads[i])
  }

  /** The payloads before the first one WritePacket refuses. */
  function Sendable(payloads: seq<bytes>): (r: seq<bytes>)
    ensures |r| <= |payloads| && r == payloads[..|r|] && AllFitIn(r)
    ensures r == payloads <==> AllFitIn(payloads)
    ensures |r| < |payloads| ==> !Fits(payloads[|r|])
  {
    if payloads == [] || !Fits(payloads[0]) then [] else [payloads[0]] + Sendable(payloads[1..])
  }

  lemma SendableStep(p: bytes, more: seq<bytes>)
    ensures Sendable([p] + more) == if Fits(p) then [p] + Sendable(more) else []
    ensures AllFitIn([p] + more) <==> Fits(p) && AllFitIn(more)
  {
    hide Fits;
    var all := [p] + more;
    assert all[1..] == more;
    assert forall i :: 0 <= i < |more| ==> all[i + 1] == more[i];
  }

  lemma {:induction false} SendableConcat(a: seq<bytes>, b: seq<bytes>)
    ensures Sendable(a + b) == if AllFitIn(a) then a + Sendable(b) else Sendable(a)
  {
    if a == [] {
      assert a + b == b;
      assert [] + Sendable(b) == Sendable(b);
    } else {
      hide Fits, Sendable, AllFitIn;
      var p, more := a[0], a[1..];
      assert a == [p] + more;
      assert a + b == [p] + (more + b);
      assert [p] + (more + Sendable(b)) == a + Sendable(b);
      SendableConcat(more, b);
      SendableStep(p, more + b);
      SendableStep(p, more);
    }
  }

  /** The bytes of a numbered run of packets. */
  function Burst(payloads: seq<bytes>, no: byte): bytes {
    Stream(Numbered(payloads, no))
  }

  lemma BurstStep(p: bytes, more: seq<bytes>, no: byte)
    ensures Burst([p] + more, no) == Frame(p, no) + Burst(more, Next(no))
  {
    assert ([p] + more)[1..] == more;
    var ps := Numbered([p] + more, no);
    assert ps[1..] == Numbered(more, Next(no));
  }

  lemma {:induction false} BurstConcat(a: seq<bytes>, b: seq<bytes>, no: byte)
    ensures Burst(a + b, no) == Burst(a, no) + Burst(b, Shift(no, |a|))
  {
    hide Burst, Shift, Frame;
    ShiftNext(no, if a == [] then 0 else |a| - 1);
    if a == [] {
      assert a + b == b;
      EmptyBurst(no);
      assert [] + Burst(b, no) == Burst(b, no);
    } else {
      assert a == [a[0]] + a[1..];
      assert a + b == [a[0]] + (a[1..] + b);
      BurstStep(a[0], a[1..] + b, no);
      BurstStep(a[0], a[1..], no);
      BurstConcat(a[1..], b, Next(no));
      AppendTwo(Frame(a[0], no), Burst(a[1..], Next(no)), Burst(b, Shift(no, |a|)));
    }
  }

  lemma EmptyBurst(no: byte)
    ensures Burst([], no) == []
  {
  }

  /** Repeated ReadPacket until it fails. */
  function ReadAll(input: bytes): (r: (seq<Packet>, bytes))
    decreases |input|
  {
    match ParsePacket(input)
    case Failed => ([], input)
    case Got(p, rest) =>
      var (ps, left) := ReadAll(rest);
      ([p] + ps, left)
  }

  lemma ParseFrame(payload: bytes, no: byte, tail: bytes)
    requires Fits(payload)
    ensures ParsePacket(Frame(payload, no) + tail) == Got(Packet(payload, no), tail)
  {
    var input := Frame(payload, no) + tail;
    assert input[..3] == LE(|payload|, 3);
    Pow256Values();
    FromLEOfLE(|payload|, 3);
    assert input[4..] == payload + tail;
  }

  /** Framing round trip: packets written one after another are read back as they were,
      with their sequence bytes, and nothing is left. */
  lemma {:induction false} FramingRoundTrip(ps: seq<Packet>)
    requires AllFit(ps)
    ensures ReadAll(Stream(ps)) == (ps, [])
  {
    if ps != [] {
      ParseFrame(ps[0].payload, ps[0].no, Stream(ps[1..]));
      FramingRoundTrip(ps[1..]);
      assert [ps[0]] + ps[1..] == ps;
    }
  }

  /** The other direction: what ReadPacket accepts is the frame of what it returns. */
  lemma ParsePacketInverts(input: bytes)
    requires ParsePacket(input).Got?
    ensures var g := ParsePacket(input);
            Fits(g.packet.payload) && input == Frame(g.packet.payload, g.packet.no) + g.rest
  {
    var g := ParsePacket(input);
    var b := input[..3];
    FromLEBound(b);
    Pow256Values();
    LEOfFromLE(b);
    assert input == b + [input[3]] + input[4..];
  }

  /** Hence the wire is unambiguous: a byte stream splits into packets in one way, and the
      packets read from any input, followed by what was not read, are that input. */
  lemma {:induction false} ReadAllInverts(input: bytes)
    ensures var (ps, left) := ReadAll(input);
            AllFit(ps) && input == Stream(ps) + left && ParsePacket(left).Failed?
    decreases |input|
  {
    hide ParsePacket, Frame, Fits;
    match ParsePacket(input)
    case Failed =>
      assert [] + input == input;
    case Got(p, rest) =>
      ParsePacketInverts(input);
      ReadAllInverts(rest);
      var (ps, left) := ReadAll(rest);
      assert ([p] + ps)[1..] == ps;
      AppendTwo(Frame(p.payload, p.no), Stream(ps), left);
  }

  // ---------- sending on any connection ----------

  /** Writing two pieces is writing them together, on a healthy and on a breaking link. */
  lemma PushTwice(k: Link, a: bytes, b: bytes)
    ensures Push(Push(k, a).0, b).0 == Push(k, a + b).0
    ensures Push(k, a).1 && Push(Push(k, a).0, b).1 <==> Push(k, a + b).1
  {
    var ab := a + b;
    assert k.out + a + b == k.out + ab;
    if k.room.Some? {
      var n := k.room.value;
      if |a| <= n < |ab| {
        assert k.out + a + b[..n - |a|] == k.out + ab[..n];
      } else if n < |a| {
        assert a[..n] == ab[..n];
        assert k.out + a[..n] + b[..0] == k.out + ab[..n];
      }
    }
  }

  /** WritePacket on any connection: a payload that does not fit is refused and puts nothing
      on the wire; of any other the frame is delivered as far as the connection carries it. */
  lemma SendPacketIs(k: Link, payload: bytes, no: byte)
    ensures SendPacket(k, payload, no) == if Fits(payload) then Push(k, Frame(payload, no)) else (k, false)
  {
    PushTwice(k, Header(|payload|, no), payload);
    assert payload == [] ==> Frame(payload, no) == Header(|payload|, no);
    var (k1, ok) := Push(k, Header(|payload|, no));
    if !ok {
      assert k1.room == Some(0);
      PushNothingMore(k1, payload);
    }
  }

  lemma PushNothingMore(k: Link, b: bytes)
    requires k.room == Some(0)
    ensures Push(k, b).0 == k
  {
    assert k.out + b[..0] == k.out;
  }

  /** Packets written in order, stopping at the first failed write. */
  function SendAll(k: Link, payloads: seq<bytes>, no: byte): Link
    decreases |payloads|
  {
    if payloads == [] then k
    else
      var (k1, ok) := SendPacket(k, payloads[0], no);
      if ok then SendAll(k1, payloads[1..], Next(no)) else k1
  }

  /** What a run of packets puts on any connection: the frames before the first packet that
      does not fit, as far as the connection carries them. */
  lemma {:induction false} SendAllIs(k: Link, payloads: seq<bytes>, no: byte)
    ensures SendAll(k, payloads, no) == Push(k, Burst(Sendable(payloads), no)).0
    decreases |payloads|
  {
    if payloads == [] {
      PushEmpty(k);
    } else {
      var p := payloads[0];
      SendPacketIs(k, p, no);
      if Fits(p) {
        BurstStep(p, Sendable(payloads[1..]), no);
        PushTwice(k, Frame(p, no), Burst(Sendable(payloads[1..]), Next(no)));
        var (k1, ok) := Push(k, Frame(p, no));
        if ok {
          SendAllIs(k1, payloads[1..], Next(no));
        } else {
          PushNothingMore(k1, Burst(Sendable(payloads[1..]), Next(no)));
        }
      } else {
        PushEmpty(k);
      }
    }
  }

  lemma PushEmpty(k: Link)
    ensures Push(k, []).0 == k
  {
    assert k.out + [] == k.out;
  }
}
