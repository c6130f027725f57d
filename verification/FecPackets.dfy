/** Shard packets as bytes: what a sender writes is what the receiver reads, and nothing else is read. */
module FecPackets {
  import opened Words
  import opened Wrappers
  import opened Modular
  import opened LinearSystem
  import opened ErasureCode
  import opened FecReceiver

  // ---- little-endian words ----

  function Word16(x: U16): (b: Vector)
    ensures |b| == 2
  {
    [x % 256, x / 256]
  }

  function Word32(x: U32): (b: Vector)
    ensures |b| == 4
  {
    Word16(x % U16_SIZE) + Word16(x / U16_SIZE)
  }

  lemma ReadsWord16(b: Vector, at: nat, x: U16)
    requires at + 2 <= |b|
    ensures b[at..at + 2] == Word16(x) <==> Read16(b, at) == x
  {
    var w := b[at..at + 2];
    assert w[0] == b[at] && w[1] == b[at + 1];
    if Read16(b, at) == x {
      assert w == Word16(x);
    }
  }

  lemma ReadsWord32(b: Vector, at: nat, x: U32)
    requires at + 4 <= |b|
    ensures b[at..at + 4] == Word32(x) <==> Read32(b, at) == x
  {
    hide Word16, Read16;
    var w, low, high := b[at..at + 4], x % U16_SIZE, x / U16_SIZE;
    assert w[..2] == b[at..at + 2] && w[2..] == b[at + 2..at + 4];
    assert Word32(x)[..2] == Word16(low) && Word32(x)[2..] == Word16(high);
    ReadsWord16(b, at, low);
    ReadsWord16(b, at + 2, high);
    if Read32(b, at) == x {
      assert w == w[..2] + w[2..];
    }
  }

  // ---- the body of a shard packet ----

  /** The groups that fit. */
  ghost predicate Sendable(l: Layout) {
    && LayoutOk(l) && l.length <= MAX_DATA_BYTES && l.size < U16_SIZE && l.m < U16_SIZE
    && l.k * l.size <= MAX_DATA_BYTES && l.k + l.m <= 65536
  }

  /** Length, shard size and parity count, then the shard. */
  function Body(l: Layout, v: Vector): (b: Vector)
    requires l.length < U32_SIZE && l.size < U16_SIZE && l.m < U16_SIZE
    ensures |b| == 8 + |v|
  {
    Word32(l.length) + Word16(l.size) + Word16(l.m) + v
  }

  /** The bytes say this layout. */
  ghost predicate Carries(b: Vector, l: Layout)
    requires l.length < U32_SIZE && l.size < U16_SIZE && l.m < U16_SIZE
  {
    |b| == 8 + l.size && b == Body(l, b[8..])
  }

  lemma CarriesWords(b: Vector, l: Layout)
    requires l.length < U32_SIZE && l.size < U16_SIZE && l.m < U16_SIZE && |b| == 8 + l.size
    ensures Carries(b, l) <==> Read32(b, 0) == l.length && Read16(b, 4) == l.size && Read16(b, 6) == l.m
  {
    hide Word16, Word32, Read16, Read32;
    ReadsWord32(b, 0, l.length);
    ReadsWord16(b, 4, l.size);
    ReadsWord16(b, 6, l.m);
    var c := Body(l, b[8..]);
    assert c[0..4] == Word32(l.length) && c[4..6] == Word16(l.size) && c[6..8] == Word16(l.m) && c[8..] == b[8..];
    assert b == b[0..4] + b[4..6] + b[6..8] + b[8..];
  }

  lemma CeilIs(a: nat, b: nat, k: nat)
    requires a > 0 && b > 0
    ensures k == CeilDiv(a, b) <==> k > 0 && (k - 1) * b < a <= k * b
  {
    var q, r := (a + b - 1) / b, (a + b - 1) % b;
    assert a + b - 1 == b * q + r && r <= b - 1;
    if k > 0 && (k - 1) * b < a <= k * b {
      if k > q {
        MulMonotone(b, q, k - 1);
      } else if k < q {
        MulMonotone(b, k, q - 1);
      }
    }
  }

  /** A group fits when k shards just cover its bytes and, with parity, the field has room for all shards. */
  lemma SendableExactly(l: Layout)
    ensures Sendable(l) <==>
              && 0 < l.length <= MAX_DATA_BYTES && 0 < l.size < U16_SIZE && l.m < U16_SIZE
              && l.k > 0 && (l.k - 1) * l.size < l.length <= l.k * l.size <= MAX_DATA_BYTES
              && l.k + l.m <= 65536 && (l.m == 0 || l.k + l.m <= 255)
  {
    hide CeilDiv, MAX_DATA_BYTES;
    if l.length > 0 && l.size > 0 {
      CeilIs(l.length, l.size, l.k);
    }
  }

  /** The header and the bytes of a shard packet of this layout. */
  ghost predicate Announces(p: Packet, l: Layout)
    requires Sendable(l)
  {
    && p.header.packetType == TYPE_UNRELIABLE_FEC && p.header.fragmentId < l.k + l.m
    && p.body.Some? && Carries(p.body.value, l)
  }

  /** The words of a body, once they are known, make a layout. */
  lemma WordsParse(p: Packet, l: Layout)
    requires Sendable(l) && p.header.packetType == TYPE_UNRELIABLE_FEC && p.header.fragmentId < l.k + l.m
    requires p.body.Some? && |p.body.value| == l.size + 8
    requires Read32(p.body.value, 0) == l.length && Read16(p.body.value, 4) == l.size && Read16(p.body.value, 6) == l.m
    ensures Parse(p) == Some(l)
  {
    hide CeilDiv, MAX_DATA_BYTES, Read16, Read32;
  }

  lemma SendableWords(l: Layout)
    requires Sendable(l)
    ensures l.length < U32_SIZE && l.size < U16_SIZE && l.m < U16_SIZE
  {
  }

  lemma AnnouncedParses(p: Packet, l: Layout)
    requires Sendable(l) && Announces(p, l)
    ensures Parse(p) == Some(l) && Payload(p) == p.body.value[8..]
  {
    hide Parse, Sendable, Carries, Read16, Read32;
    SendableWords(l);
    CarriesSize(p.body.value, l);
    CarriesWords(p.body.value, l);
    WordsParse(p, l);
  }

  lemma CarriesSize(b: Vector, l: Layout)
    requires l.length < U32_SIZE && l.size < U16_SIZE && l.m < U16_SIZE && Carries(b, l)
    ensures |b| == 8 + l.size
  {
  }

  lemma ParsedAnnounces(p: Packet)
    requires Parse(p).Some?
    ensures var l := Parse(p).value; Sendable(l) && Announces(p, l)
  {
    hide Carries, CeilDiv, Read16, Read32;
    ParsedLayout(p);
    CarriesWords(p.body.value, Parse(p).value);
  }

  /** A packet is read as a layout exactly when it is a shard packet of that layout, byte for byte. */
  lemma ParsesExactly(p: Packet, l: Layout)
    ensures Parse(p) == Some(l) <==> Sendable(l) && Announces(p, l)
  {
    hide Parse, Sendable, Announces;
    if Parse(p) == Some(l) {
      ParsedAnnounces(p);
    } else if Sendable(l) && Announces(p, l) {
      AnnouncedParses(p, l);
    }
  }

  // ---- what a sender transmits ----

  /** Shard i of the data block d, as a packet of the group. */
  ghost function SentPacket(h: Header, id: U16, l: Layout, d: Matrix, i: nat): (p: Packet)
    requires Sendable(l) && Shape(d, l.k, l.size) && i < l.k + l.m
  {
    Packet(h.(packetType := TYPE_UNRELIABLE_FEC, packetId := id, fragmentId := i),
           Some(Body(l, Shard(d, l.m, l.size, i))))
  }

  lemma BodyCarries(l: Layout, v: Vector)
    requires Sendable(l) && |v| == l.size
    ensures Carries(Body(l, v), l) && Body(l, v)[8..] == v
  {
    hide Word16, Word32;
    assert Body(l, v)[8..] == v;
  }

  /** Every shard of every group that fits is read back: its layout, its index and its bytes. */
  lemma SentParses(h: Header, id: U16, l: Layout, d: Matrix, i: nat)
    requires Sendable(l) && Shape(d, l.k, l.size) && i < l.k + l.m
    ensures var p := SentPacket(h, id, l, d, i);
            Parse(p) == Some(l) && p.header.fragmentId == i && Payload(p) == Shard(d, l.m, l.size, i)
  {
    hide Parse, Body, Carries, Shard;
    var p := SentPacket(h, id, l, d, i);
    BodyCarries(l, Shard(d, l.m, l.size, i));
    AnnouncedParses(p, l);
  }
}
