/** The receiver of erasure-coded groups: one active group at a time, delivery order by group id. */
module FecReceiver {
  import opened Words
  import opened Wrappers
  import opened Modular
  import opened Galois
  import opened GaloisField
  import opened LinearSystem
  import opened Elimination
  import opened ErasureCode
  import opened ErasureDecoder

  const TYPE_UNRELIABLE_FEC := 11
  const MAX_DATA_BYTES := (2 * 1024 * 1024 + 65535 - 1) / 65535 * 65535

  datatype Header = Header(packetType: nat, packetId: U16, fragmentId: U16,
                           receiveTimestamp: U32, receiveBegin: U32)

  /** body is None when the packet carries no buffer. */
  datatype Packet = Packet(header: Header, body: Option<seq<Byte>>)

  /** Whether the two allocations of one Add call succeed. */
  datatype Memory = Memory(forGroup: bool, forSolver: bool)

  datatype ReceiveError = ReceiveOK | NoMemory

  // ---- what a packet says about its group ----

  function Read32(b: seq<Byte>, at: nat): (r: nat)
    requires at + 4 <= |b|
  {
    Read16(b, at) + 65536 * Read16(b, at + 2)
  }

  datatype Layout = Layout(length: nat, size: nat, k: nat, m: nat)

  function CeilDiv(a: nat, b: nat): (r: nat)
    requires b > 0
  {
    (a + b - 1) / b
  }

  /** Type, size and metadata limits; what remains is a shard of a well-formed group. */
  function Parse(p: Packet): (r: Option<Layout>) {
    if p.header.packetType != TYPE_UNRELIABLE_FEC || p.body.None? || |p.body.value| < 9 then None
    else
      var b := p.body.value;
      var length, size, m := Read32(b, 0), Read16(b, 4), Read16(b, 6);
      if length == 0 || length > MAX_DATA_BYTES || size == 0 || |b| != size + 8 then None
      else
        var k := CeilDiv(length, size);
        if k * size > MAX_DATA_BYTES || k + m > 65536 || p.header.fragmentId >= k + m || (m > 0 && k + m > 255)
        then None
        else Some(Layout(length, size, k, m))
  }

  /** The group id is ahead of the last delivered one in 16-bit half-range order. */
  predicate Ahead(id: U16, last: U16) {
    0 < Wrap16(id - last) < 0x8000
  }

  /** On unwrapped ids less than half the range apart: the later one is ahead. */
  lemma AheadExact(id: int, last: int)
    requires -0x8000 < id - last < 0x8000
    ensures Ahead(Wrap16(id), Wrap16(last)) <==> id > last
  {
    WordDistance(id, last, 0);
  }

  // ---- the receiver as a state machine ----

  datatype Group = Group(id: U16, layout: Layout, shards: Matrix, present: seq<bool>)

  datatype State = State(active: Option<Group>, lastDelivered: U16)

  ghost predicate LayoutOk(l: Layout) {
    && l.size > 0 && 0 < l.length <= l.k * l.size && l.k == CeilDiv(l.length, l.size)
    && (l.m > 0 ==> l.k + l.m <= MAX_SHARDS)
  }

  lemma ParsedLayout(p: Packet)
    requires Parse(p).Some?
    ensures LayoutOk(Parse(p).value) && p.header.fragmentId < Parse(p).value.k + Parse(p).value.m
  {
    CeilCovers(Parse(p).value.length, Parse(p).value.size);
  }

  lemma CeilCovers(a: nat, b: nat)
    requires b > 0
    ensures a <= CeilDiv(a, b) * b
  {
    var q, r := (a + b - 1) / b, (a + b - 1) % b;
    assert a + b - 1 == b * q + r && r <= b - 1;
  }

  ghost predicate GroupOk(g: Group) {
    var n := g.layout.k + g.layout.m;
    && LayoutOk(g.layout)
    && Shape(g.shards, n, g.layout.size) && |g.present| == n
  }

  /** The number of distinct shards held. */
  ghost function Held(g: Group): (n: nat) {
    |Indices(g.present, |g.present|, true)|
  }

  ghost function Payload(p: Packet): (v: Vector)
    requires Parse(p).Some?
    ensures |v| == Parse(p).value.size
  {
    p.body.value[8..]
  }

  ghost function FreshGroup(id: U16, l: Layout): (g: Group)
    ensures g.id == id && g.layout == l
  {
    Group(id, l, ZeroRows(l.k + l.m, l.size), NoneSeen(l.k + l.m))
  }

  ghost function ZeroRows(n: nat, size: nat): (m: Matrix)
    ensures Shape(m, n, size)
  {
    seq(n, _ => Zeros(size))
  }

  ghost function NoneSeen(n: nat): (s: seq<bool>)
    ensures |s| == n && forall i | 0 <= i < n :: !s[i]
  {
    seq(n, _ => false)
  }

  ghost function WithShard(g: Group, i: nat, v: Vector): (r: Group)
    requires i < |g.shards| && i < |g.present|
  {
    g.(shards := g.shards[i := v], present := g.present[i := true])
  }

  /** The bytes handed out: the first `length` bytes of the row-major buffer. */
  ghost function Bytes(rows: Matrix, l: Layout): (v: Vector)
    requires l.size > 0 && l.length <= l.k * l.size && |rows| >= l.k
    requires forall i | 0 <= i < l.k :: |rows[i]| == l.size
    ensures |v| == l.length
  {
    seq(l.length, i requires 0 <= i < l.length => RowIndex(i, l.k, l.size); rows[i / l.size][i % l.size])
  }

  lemma RowIndex(i: nat, k: nat, size: nat)
    requires size > 0 && i < k * size
    ensures i / size < k && i % size < size
  {
    var q := i / size;
    if q >= k {
      MulMonotone(size, k, q);
    }
  }

  /** A complete group is one with as many distinct shards as data shards; solving for
      lost data shards takes memory. */
  ghost predicate Completes(g: Group, memory: Memory)
    requires GroupOk(g)
  {
    Held(g) >= g.layout.k && (|Indices(g.present, g.layout.k, false)| == 0 || memory.forSolver)
  }

  /** The present shards are those the sender transmits for the data block d. */
  ghost predicate Genuine(g: Group, d: Matrix)
    requires GroupOk(g)
  {
    Shape(d, g.layout.k, g.layout.size) && Agrees(g.shards, g.present, d, g.layout.m, g.layout.size)
  }

  /** The delivered bytes are the original bytes of every data block the group belongs to. */
  ghost predicate Delivers(g: Group, bytes: Vector)
    requires GroupOk(g)
  {
    |bytes| == g.layout.length && forall d: Matrix | Genuine(g, d) :: bytes == Bytes(d, g.layout)
  }

  ghost predicate StateOk(s: State) {
    s.active.Some? ==> GroupOk(s.active.value)
  }

  predicate SameGroup(s: State, id: U16) {
    s.active.Some? && s.active.value.id == id
  }

  /** The packet's shard is offered to its group g. */
  ghost predicate Takes(g: Group, p: Packet, memory: Memory, last: U16, s': State, out: Option<Vector>)
    requires GroupOk(g) && Parse(p).Some? && g.layout == Parse(p).value
  {
    ParsedLayout(p);
    if g.present[p.header.fragmentId] then
      s' == State(Some(g), last) && out == None
    else
      var g' := WithShard(g, p.header.fragmentId, Payload(p));
      if Completes(g', memory) then
        s' == State(None, g.id) && out.Some? && Delivers(g', out.value)
      else
        s' == State(Some(g'), last) && out == None
  }

  /** The packet is not even looked at: malformed, not ahead, or inconsistent with its active group. */
  predicate Refused(s: State, p: Packet) {
    var l, id := Parse(p), p.header.packetId;
    l.None? || !Ahead(id, s.lastDelivered) || (SameGroup(s, id) && s.active.value.layout != l.value)
  }

  /** One Add call: the packet is ignored, recorded, or completes and delivers the group. */
  ghost predicate Adds(s: State, p: Packet, memory: Memory, s': State, out: Option<Vector>)
    requires StateOk(s)
  {
    var l, id := Parse(p), p.header.packetId;
    if Refused(s, p) then
      s' == s && out == None
    else if !SameGroup(s, id) && !memory.forGroup then
      s' == s.(active := None) && out == None
    else
      ParsedLayout(p);
      var g := if SameGroup(s, id) then s.active.value else FreshGroup(id, l.value);
      Takes(g, p, memory, s.lastDelivered, s', out)
  }

  // ---- counting ----

  lemma {:induction false} IndicesTail(flags: seq<bool>, k: nat, n: nat, want: bool)
    requires k <= n <= |flags|
    ensures |Indices(flags, n, want)| == |Indices(flags, k, want)| + |Indices(flags[k..], n - k, want)|
    decreases n
  {
    if k < n {
      IndicesTail(flags, k, n - 1, want);
    }
  }

  lemma {:induction false} IndicesSet(flags: seq<bool>, n: nat, i: nat)
    requires n <= |flags| && i < |flags| && !flags[i]
    ensures |Indices(flags[i := true], n, true)| == |Indices(flags, n, true)| + if i < n then 1 else 0
  {
    if n > 0 {
      IndicesSet(flags, n - 1, i);
    }
  }

  lemma {:induction false} IndicesNone(flags: seq<bool>, n: nat)
    requires n <= |flags| && forall i | 0 <= i < n :: !flags[i]
    ensures Indices(flags, n, true) == []
  {
    if n > 0 {
      IndicesNone(flags, n - 1);
    }
  }

  /** As many distinct shards as data shards are always enough to recover the group. */
  lemma EnoughShards(g: Group, memory: Memory)
    requires GroupOk(g) && Held(g) >= g.layout.k
    ensures Completes(g, memory) <==> Recoverable(g.present, g.layout.k, g.layout.m, memory.forSolver)
  {
    var k, m := g.layout.k, g.layout.m;
    IndicesTail(g.present, k, k + m, true);
    IndicesSplit(g.present, k);
    IndicesSound(g.present[k..], m, true);
  }

  // ---- the receiver object ----

  /** The header kept for the frame: the lowest wire index wins, the first arrival time and
      the last arrival time are tracked separately. */
  function MergeHeader(first: Header, h: Header): (r: Header) {
    var base := if h.fragmentId < first.fragmentId then h else first;
    base.(receiveBegin := if first.receiveBegin != 0 then first.receiveBegin else h.receiveTimestamp,
          receiveTimestamp := h.receiveTimestamp)
  }

  /** The stored header after a packet: merged into that of its group, or into a fresh one. */
  function HeaderAfter(s: State, stored: Header, p: Packet, memory: Memory): (r: Header) {
    if Refused(s, p) || (!SameGroup(s, p.header.packetId) && !memory.forGroup) then stored
    else MergeHeader(if SameGroup(s, p.header.packetId) then stored else p.header.(receiveBegin := 0), p.header)
  }

  /** The shard completes its group, but there is no memory to solve for the lost ones. */
  ghost predicate Lacks(g: Group, p: Packet, memory: Memory)
    requires GroupOk(g) && Parse(p).Some? && g.layout == Parse(p).value
  {
    ParsedLayout(p);
    && !g.present[p.header.fragmentId]
    && var g' := WithShard(g, p.header.fragmentId, Payload(p));
       Held(g') >= g'.layout.k && !Completes(g', memory)
  }

  /** A packet runs out of memory: for its new group, or for solving the completed one. */
  ghost predicate OutOfMemory(s: State, p: Packet, memory: Memory)
    requires StateOk(s)
  {
    && !Refused(s, p)
    && if !SameGroup(s, p.header.packetId) && !memory.forGroup then true
       else
         ParsedLayout(p);
         Lacks(if SameGroup(s, p.header.packetId) then s.active.value else FreshGroup(p.header.packetId, Parse(p).value), p, memory)
  }

  method NewBuffers(n: nat, size: nat) returns (shards: array2<Byte>, present: array<bool>)
    ensures fresh(shards) && fresh(present)
    ensures shards.Length0 == present.Length == n && shards.Length1 == size
    ensures Rows(shards) == ZeroRows(n, size) && present[..] == NoneSeen(n)
  {
    shards := new Byte[n, size]((_, _) => 0);
    present := new bool[n](_ => false);
    assert forall r | 0 <= r < n :: Row(shards, r) == Zeros(size);
  }

  method CopyPayload(shards: array2<Byte>, i: nat, body: seq<Byte>)
    requires i < shards.Length0 && |body| == shards.Length1 + 8
    modifies shards
    ensures Rows(shards) == old(Rows(shards))[i := body[8..]]
  {
    for p := 0 to shards.Length1
      invariant forall j | 0 <= j < p :: shards[i, j] == body[8 + j]
      invariant forall r, j | 0 <= r < shards.Length0 && 0 <= j < shards.Length1 && r != i :: shards[r, j] == old(shards[r, j])
    {
      shards[i, p] := body[8 + p];
    }
    assert Row(shards, i) == body[8..];
    assert forall r | 0 <= r < shards.Length0 && r != i :: Row(shards, r) == old(Row(shards, r));
  }

  lemma Incomplete(g: Group, memory: Memory)
    requires GroupOk(g)
    ensures Held(g) < g.layout.k ==> !Completes(g, memory)
  {
  }

  lemma Unsolved(g: Group, memory: Memory)
    requires GroupOk(g) && Held(g) >= g.layout.k
    ensures !Completes(g, memory) ==> !memory.forSolver
  {
  }

  lemma BodySize(p: Packet)
    requires Parse(p).Some?
    ensures p.body.Some? && |p.body.value| == Parse(p).value.size + 8
  {
  }

  lemma ByteAt(rows: Matrix, l: Layout, i: nat)
    requires l.size > 0 && i < l.length <= l.k * l.size && |rows| >= l.k
    requires forall r | 0 <= r < l.k :: |rows[r]| == l.size
    ensures i / l.size < l.k && i % l.size < l.size && Bytes(rows, l)[i] == rows[i / l.size][i % l.size]
  {
    RowIndex(i, l.k, l.size);
  }

  lemma BytesOf(rows: Matrix, d: Matrix, l: Layout)
    requires l.size > 0 && l.length <= l.k * l.size && |rows| >= l.k && |d| == l.k && rows[..l.k] == d
    requires (forall i | 0 <= i < l.k :: |rows[i]| == l.size) && Shape(d, l.k, l.size)
    ensures Bytes(rows, l) == Bytes(d, l)
  {
    hide Bytes;
    var u, v := Bytes(rows, l), Bytes(d, l);
    assert |u| == |v| == l.length;
    forall i | 0 <= i < l.length
      ensures u[i] == v[i]
    {
      ByteAt(rows, l, i);
      ByteAt(d, l, i);
      assert rows[i / l.size] == rows[..l.k][i / l.size];
    }
  }

  class Receiver {
    const multiply: array2<Byte>
    const inverse: array<Byte>
    var shards: array2?<Byte>
    var present: array?<bool>
    var length: nat
    var dataCount: nat
    var shardSize: nat
    var parityCount: nat
    var group: U16
    var lastDelivered: U16
    var received: nat
    var firstHeader: Header
    var error: ReceiveError

    ghost predicate Valid()
      reads this, multiply, inverse, shards, present
    {
      && Tables(multiply, inverse)
      && (shards == null <==> present == null)
      && (shards == null ==> received == 0)
      && (shards != null ==>
            && shards != multiply
            && shards.Length0 == present.Length == dataCount + parityCount && shards.Length1 == shardSize
            && GroupOk(Active())
            && received == Held(Active()))
    }

    ghost function Active(): (g: Group)
      requires shards != null && present != null
      reads this, shards, present
    {
      Group(group, Layout(length, shardSize, dataCount, parityCount), Rows(shards), present[..])
    }

    ghost function View(): (s: State)
      requires shards == null <==> present == null
      reads this, shards, present
    {
      State(if shards == null then None else Some(Active()), lastDelivered)
    }

    constructor ()
      ensures Valid() && View() == State(None, 65535) && error == ReceiveOK && firstHeader == Header(0, 0, 0, 0, 0)
      ensures fresh(multiply) && fresh(inverse)
    {
      var products, inverses := BuildTables();
      multiply, inverse := products, inverses;
      shards, present := null, null;
      length, dataCount, shardSize, parityCount, received := 0, 0, 0, 0, 0;
      group, lastDelivered := 0, 65535;
      firstHeader, error := Header(0, 0, 0, 0, 0), ReceiveOK;
    }

    method Reset()
      requires Valid()
      modifies this
      ensures Valid() && View() == State(None, old(lastDelivered))
      ensures shards == null && received == 0 && group == old(group) && error == old(error) && firstHeader == old(firstHeader)
    {
      shards, present, received := null, null, 0;
    }

    /** Start collecting a new group. */
    method Activate(l: Layout, h: Header)
      requires Valid() && shards == null && LayoutOk(l)
      modifies this
      ensures Valid() && fresh(shards) && fresh(present)
      ensures View() == State(Some(FreshGroup(h.packetId, l)), old(lastDelivered))
      ensures firstHeader == h.(receiveBegin := 0) && error == old(error)
    {
      hide Mul, Inv, Indices, CeilDiv, Rows, Tables, ZeroRows, NoneSeen;
      shards, present := NewBuffers(l.k + l.m, l.size);
      group, length, shardSize, dataCount, parityCount := h.packetId, l.length, l.size, l.k, l.m;
      firstHeader := h.(receiveBegin := 0);
      IndicesNone(present[..], l.k + l.m);
    }

    /** Copy the payload of a shard not seen before. */
    method Store(i: nat, body: seq<Byte>)
      requires Valid() && shards != null && i < dataCount + parityCount && !present[i] && |body| == shardSize + 8
      modifies this`received, shards, present
      ensures Valid() && View() == old(View()).(active := Some(WithShard(old(Active()), i, body[8..])))
      ensures received == old(received) + 1 && firstHeader == old(firstHeader) && error == old(error)
    {
      hide Mul, Inv, Indices, CeilDiv, Rows;
      CopyPayload(shards, i, body);
      IndicesSet(present[..], present.Length, i);
      present[i] := true;
      assert present[..] == old(present[..])[i := true];
      received := received + 1;
    }

    /** Solve for the lost shards and hand the buffer out. */
    method Deliver(memory: Memory) returns (data: array2?<Byte>)
      requires Valid() && shards != null && received >= dataCount
      modifies this, shards
      ensures Valid()
      ensures data == null ==> View() == old(View()) && shards == old(shards) && present == old(present)
      ensures data != null <==> Completes(old(Active()), memory)
      ensures data != null ==>
                && View() == State(None, old(group))
                && data == old(shards) && data.Length1 == old(shardSize)
                && old(dataCount) <= data.Length0
                && Delivers(old(Active()), Bytes(Rows(data), old(Active()).layout))
      ensures error == if data == null && !memory.forSolver then NoMemory else old(error)
      ensures firstHeader == old(firstHeader)
    {
      hide Mul, Inv, Indices, CeilDiv, Rows, Agrees, Recoverable, Bytes;
      ghost var g := Active();
      EnoughShards(g, memory);
      var ok, noMemory := Reconstruct(multiply, inverse, shards, present, dataCount, parityCount, memory.forSolver);
      EnoughShards(g, memory.(forSolver := true));
      if noMemory {
        error := NoMemory;
      }
      if !ok {
        return null;
      }
      data := shards;
      ghost var rows := Rows(data);
      forall d: Matrix | Genuine(g, d)
        ensures Bytes(rows, g.layout) == Bytes(d, g.layout)
      {
        BytesOf(rows, d, g.layout);
      }
      lastDelivered := group;
      shards, present, received := null, null, 0;
    }

    /** Keep the active group if the packet belongs to it; otherwise replace it. */
    method Prepare(l: Layout, h: Header, memory: Memory) returns (ready: bool)
      requires Valid() && LayoutOk(l)
      requires SameGroup(View(), h.packetId) ==> Active().layout == l
      modifies this
      ensures Valid() && (shards != null ==> (shards == old(shards) && present == old(present)) || (fresh(shards) && fresh(present)))
      ensures ready <==> SameGroup(old(View()), h.packetId) || memory.forGroup
      ensures !ready ==> View() == old(View()).(active := None) && error == NoMemory
      ensures firstHeader == (if !ready || SameGroup(old(View()), h.packetId) then old(firstHeader) else h.(receiveBegin := 0))
      ensures ready ==> error == old(error)
      ensures ready ==> shards != null && View() == old(View()).(active :=
                Some(if SameGroup(old(View()), h.packetId) then old(View()).active.value else FreshGroup(h.packetId, l)))
    {
      hide Mul, Inv, Indices, CeilDiv, Rows, FreshGroup, Tables;
      if shards == null || group != h.packetId {
        Reset();
        if !memory.forGroup {
          error := NoMemory;
          return false;
        }
        Activate(l, h);
      }
      return true;
    }

    /** Record the shard, and deliver when it completes the group. */
    method Take(packet: Packet, memory: Memory) returns (data: array2?<Byte>, header: Header)
      requires Valid() && shards != null && Parse(packet).Some? && Active().layout == Parse(packet).value
      modifies this, shards, present
      ensures Valid() && (shards != null ==> shards == old(shards) && present == old(present))
      ensures data != null ==> data == old(shards) && data.Length1 == old(shardSize) && old(dataCount) <= data.Length0
      ensures Takes(old(Active()), packet, memory, old(lastDelivered), View(),
                    if data == null then None else Some(Bytes(Rows(data), Parse(packet).value)))
      ensures header == MergeHeader(old(firstHeader), packet.header) && firstHeader == header
      ensures error == if Lacks(old(Active()), packet, memory) then NoMemory else old(error)
    {
      hide Mul, Inv, Indices, CeilDiv, Rows, Parse, Bytes, Delivers, Completes, WithShard, MergeHeader, Tables;
      ParsedLayout(packet);
      BodySize(packet);
      firstHeader := MergeHeader(firstHeader, packet.header);
      data, header := null, firstHeader;
      var i := packet.header.fragmentId;
      if present[i] {
        return;
      }
      Store(i, packet.body.value);
      Incomplete(Active(), memory);
      if received >= dataCount {
        Unsolved(Active(), memory);
      }
      if received < dataCount {
        return;
      }
      data := Deliver(memory);
    }

    method Add(packet: Packet, memory: Memory) returns (data: array2?<Byte>, header: Header)
      requires Valid()
      modifies this, shards, present
      ensures Valid() && (shards != null ==> shards == old(shards) || fresh(shards))
      ensures data != null ==> Parse(packet).Some? && data.Length1 == Parse(packet).value.size
                               && Parse(packet).value.k <= data.Length0 && LayoutOk(Parse(packet).value)
      ensures Adds(old(View()), packet, memory, View(),
                   if data == null then None else Some(Bytes(Rows(data), Parse(packet).value)))
      ensures header == firstHeader == HeaderAfter(old(View()), old(firstHeader), packet, memory)
      ensures error == if OutOfMemory(old(View()), packet, memory) then NoMemory else ReceiveOK
    {
      hide Mul, Inv, Indices, CeilDiv, Rows, Parse, Bytes, Delivers, Completes, FreshGroup, WithShard, MergeHeader, Tables, Takes;
      error := ReceiveOK;
      data, header := null, firstHeader;
      var parsed, id, i := Parse(packet), packet.header.packetId, packet.header.fragmentId;
      if parsed.None? || !Ahead(id, lastDelivered) {
        return;
      }
      ParsedLayout(packet);
      var l := parsed.value;
      if shards != null && group == id && (length != l.length || shardSize != l.size || parityCount != l.m) {
        return;
      }
      var ready := Prepare(l, packet.header, memory);
      if !ready {
        return;
      }
      data, header := Take(packet, memory);
    }
  }
}
