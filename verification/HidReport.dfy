/** Full and delta input reports: what the host reads back is the most recent device state. */
module HidReport {
  import opened Wrappers

  type Byte = bv8
  type Bytes = seq<Byte>

  /** An item on the wire. */
  datatype Wire = Full(data: Bytes) | Delta(data: Bytes, crc: bv32, size: nat)

  /** What the host knows about the device. */
  datatype Host = Empty | Known(state: Bytes) | Corrupt

  function MaskSize(width: nat): (r: nat) { (width + 7) / 8 }

  /** The mask has a bit for every byte, and no byte too many. */
  lemma MaskCovers(width: nat)
    ensures 8 * MaskSize(width) - 8 < width <= 8 * MaskSize(width)
  {
  }

  // ---- change masks ----

  /** Bit i of a mask, least significant bit of each byte first. */
  predicate MaskBit(mask: Bytes, i: nat)
    requires i / 8 < |mask|
  {
    (mask[i / 8] >> (i % 8)) & 1 == 1
  }

  lemma OrBit(b: Byte, j: nat, k: nat)
    requires j < 8 && k < 8
    ensures ((b | (1 << k)) >> j) & 1 == 1 <==> j == k || (b >> j) & 1 == 1
  {
  }

  function SetMaskBit(mask: Bytes, i: nat): (r: Bytes)
    requires i / 8 < |mask|
    ensures |r| == |mask|
  {
    mask[i / 8 := mask[i / 8] | (1 << (i % 8))]
  }

  lemma SetMaskBitAt(mask: Bytes, i: nat, j: nat)
    requires i / 8 < |mask| && j / 8 < |mask|
    ensures MaskBit(SetMaskBit(mask, i), j) <==> i == j || MaskBit(mask, j)
  {
    if i / 8 == j / 8 {
      OrBit(mask[i / 8], j % 8, i % 8);
    }
  }

  // ---- the host's decoder ----

  /** Bytes i and on: a marked byte comes from the payload, the others from the previous state. */
  function Patch(mask: Bytes, i: nat, size: nat, payload: Bytes, previous: Bytes): (r: Option<Bytes>)
    requires i <= size && MaskSize(size) <= |mask|
    decreases size - i
  {
    if i == size then
      if payload == [] then Some([]) else None
    else if MaskBit(mask, i) then
      if payload == [] then None else Prepend(payload[0], Patch(mask, i + 1, size, payload[1..], previous))
    else
      if i >= |previous| then None else Prepend(previous[i], Patch(mask, i + 1, size, payload, previous))
  }

  function Prepend(b: Byte, rest: Option<Bytes>): (r: Option<Bytes>) {
    if rest.None? then None else Some([b] + rest.value)
  }

  function State(h: Host): (r: Bytes) { if h.Known? then h.state else [] }

  function Apply(h: Host, w: Wire, width: nat, crc: Bytes -> bv32): (r: Host) {
    match w
    case Full(data) => Known(data)
    case Delta(data, sum, size) =>
      if size > width || |data| < MaskSize(width) then Corrupt
      else
        var patched := Patch(data[..MaskSize(width)], 0, size, data[MaskSize(width)..], State(h));
        if patched.None? || crc(patched.value) != sum then Corrupt else Known(patched.value)
  }

  /** The host after all items, in order. */
  function Replay(ws: seq<Wire>, width: nat, crc: Bytes -> bv32): (r: Host) {
    if ws == [] then Empty else Apply(Replay(ws[..|ws| - 1], width, crc), ws[|ws| - 1], width, crc)
  }

  lemma ReplayAppend(ws: seq<Wire>, w: Wire, width: nat, crc: Bytes -> bv32)
    ensures Replay(ws + [w], width, crc) == Apply(Replay(ws, width, crc), w, width, crc)
  {
    assert (ws + [w])[..|ws|] == ws;
  }

  // ---- the encoder ----

  type Flags = seq<bool>

  /** Which bytes differ. */
  function Changed(previous: Bytes, current: Bytes): (r: Flags)
    requires |current| <= |previous|
    ensures |r| == |current|
  {
    seq(|current|, i requires 0 <= i < |current| => previous[i] != current[i])
  }

  function Every(n: nat): (r: Flags)
    ensures |r| == n && forall i | 0 <= i < n :: r[i]
  {
    seq(n, _ => true)
  }

  /** The mask carries the first n flags and nothing else. */
  ghost predicate Marks(mask: Bytes, n: nat, flags: Flags) {
    n <= |flags| && forall i: nat | i / 8 < |mask| :: MaskBit(mask, i) == (i < n && flags[i])
  }

  lemma MarksZero(mask: Bytes, flags: Flags)
    requires forall j | 0 <= j < |mask| :: mask[j] == 0
    ensures Marks(mask, 0, flags)
  {
    forall i: nat | i / 8 < |mask|
      ensures !MaskBit(mask, i)
    {
      ZeroBit(i % 8);
    }
  }

  lemma ZeroBit(k: nat)
    requires k < 8
    ensures ((0 as bv8) >> k) & 1 == 0
  {
  }

  lemma MarksNext(mask: Bytes, n: nat, flags: Flags)
    requires Marks(mask, n, flags) && n < |flags| && n / 8 < |mask|
    ensures Marks(if flags[n] then SetMaskBit(mask, n) else mask, n + 1, flags)
  {
    hide MaskBit, SetMaskBit;
    var next := if flags[n] then SetMaskBit(mask, n) else mask;
    forall i: nat | i / 8 < |mask|
      ensures MaskBit(next, i) == (i < n + 1 && flags[i])
    {
      if flags[n] {
        SetMaskBitAt(mask, n, i);
      }
    }
  }

  /** The flagged bytes among positions i to n. */
  function Picked(current: Bytes, i: nat, n: nat, flags: Flags): (r: Bytes)
    requires i <= n <= |current| == |flags|
    ensures |r| <= n - i
    decreases n
  {
    if i == n then [] else Picked(current, i, n - 1, flags) + if flags[n - 1] then [current[n - 1]] else []
  }

  lemma {:induction false} PickedFirst(current: Bytes, i: nat, n: nat, flags: Flags)
    requires i < n <= |current| == |flags|
    ensures Picked(current, i, n, flags) == (if flags[i] then [current[i]] else []) + Picked(current, i + 1, n, flags)
    decreases n
  {
    if i + 1 < n {
      PickedFirst(current, i, n - 1, flags);
    }
  }

  lemma {:induction false} PickedEvery(current: Bytes, n: nat)
    requires n <= |current|
    ensures Picked(current, 0, n, Every(|current|)) == current[..n]
  {
    if n > 0 {
      PickedEvery(current, n - 1);
    }
  }

  /** Every byte that is not sent is the same as before. */
  ghost predicate Covers(flags: Flags, previous: Bytes, current: Bytes) {
    && |flags| == |current|
    && forall j: nat | j < |current| && !flags[j] :: j < |previous| && previous[j] == current[j]
  }

  /** Decoding inverts encoding. */
  lemma {:induction false} PatchPicked(mask: Bytes, i: nat, current: Bytes, previous: Bytes, flags: Flags)
    requires i <= |current| && MaskSize(|current|) <= |mask|
    requires Marks(mask, |current|, flags) && Covers(flags, previous, current)
    ensures Patch(mask, i, |current|, Picked(current, i, |current|, flags), previous) == Some(current[i..])
    decreases |current| - i
  {
    hide MaskBit, Picked;
    var n := |current|;
    if i == n {
      PickedNone(current, flags);
    } else {
      var rest := Picked(current, i + 1, n, flags);
      PickedFirst(current, i, n, flags);
      PatchPicked(mask, i + 1, current, previous, flags);
      assert MaskBit(mask, i) == flags[i];
      if flags[i] {
        assert ([current[i]] + rest)[1..] == rest;
      } else {
        assert [] + rest == rest;
      }
      assert current[i..] == [current[i]] + current[i + 1..];
    }
  }

  lemma PickedNone(current: Bytes, flags: Flags)
    requires |flags| == |current|
    ensures Picked(current, |current|, |current|, flags) == []
  {
  }

  lemma DeltaDecodes(h: Host, mask: Bytes, current: Bytes, width: nat, crc: Bytes -> bv32, flags: Flags)
    requires |current| <= width && |mask| == MaskSize(width)
    requires Marks(mask, |current|, flags) && Covers(flags, State(h), current)
    ensures var data := mask + Picked(current, 0, |current|, flags);
            Apply(h, Delta(data, crc(current), |current|), width, crc) == Known(current)
  {
    hide Marks, Picked, Patch;
    PatchPicked(mask, 0, current, State(h), flags);
    var data := mask + Picked(current, 0, |current|, flags);
    assert data[..|mask|] == mask && data[|mask|..] == Picked(current, 0, |current|, flags);
    assert current[0..] == current;
  }

  lemma MaskRoom(n: nat, width: nat)
    requires n <= width
    ensures forall i | 0 <= i < n :: i / 8 < MaskSize(width)
  {
  }

  method ClearMask(delta: array<Byte>, n: nat)
    requires n <= delta.Length
    modifies delta
    ensures forall j | 0 <= j < n :: delta[j] == 0
  {
    for k := 0 to n
      invariant forall j | 0 <= j < k :: delta[j] == 0
    {
      delta[k] := 0;
    }
  }

  /** Writes the change mask and the changed bytes; the result is the length written. */
  method ComputeDelta(previous: Bytes, current: Bytes, width: nat, delta: array<Byte>) returns (size: nat)
    requires |current| <= |previous| && |current| <= width && delta.Length == MaskSize(width) + |current|
    modifies delta
    ensures MaskSize(width) <= size <= delta.Length
    ensures Marks(delta[..MaskSize(width)], |current|, Changed(previous, current))
    ensures delta[MaskSize(width)..size] == Picked(current, 0, |current|, Changed(previous, current))
  {
    hide Marks, MaskBit, MaskSize, Picked, SetMaskBit;
    var n := MaskSize(width);
    MaskRoom(|current|, width);
    ghost var flags := Changed(previous, current);
    ClearMask(delta, n);
    size := n;
    MarksZero(delta[..n], flags);
    PickedStart(current, flags);
    for i := 0 to |current|
      invariant n <= size <= n + i
      invariant Marks(delta[..n], i, flags)
      invariant delta[n..size] == Picked(current, 0, i, flags)
    {
      MarksNext(delta[..n], i, flags);
      PickedLast(current, i, flags);
      if previous[i] != current[i] {
        MarkByte(delta, n, size, i, current[i]);
        size := size + 1;
      }
    }
  }

  method MarkByte(delta: array<Byte>, n: nat, size: nat, i: nat, b: Byte)
    requires n <= size < delta.Length && i / 8 < n
    modifies delta
    ensures delta[..n] == SetMaskBit(old(delta[..n]), i) && delta[n..size + 1] == old(delta[n..size]) + [b]
  {
    delta[i / 8] := delta[i / 8] | (1 << (i % 8));
    delta[size] := b;
  }

  lemma PickedLast(current: Bytes, i: nat, flags: Flags)
    requires i < |current| == |flags|
    ensures Picked(current, 0, i + 1, flags) == Picked(current, 0, i, flags) + if flags[i] then [current[i]] else []
  {
  }

  lemma PickedStart(current: Bytes, flags: Flags)
    requires |current| == |flags|
    ensures Picked(current, 0, 0, flags) == []
  {
  }

  /** A mask with every bit of the state set, and then the state. */
  method FillFullMask(current: Bytes, width: nat, data: array<Byte>)
    requires |current| <= width && data.Length == MaskSize(width) + |current|
    modifies data
    ensures Marks(data[..MaskSize(width)], |current|, Every(|current|)) && data[MaskSize(width)..] == current
  {
    hide Marks, MaskBit, Every;
    var n := MaskSize(width);
    forall k | 0 <= k < data.Length {
      data[k] := if k < n then 0 else current[k - n];
    }
    MarksZero(data[..n], Every(|current|));
    for i := 0 to |current|
      invariant Marks(data[..n], i, Every(|current|)) && data[n..] == current
    {
      MarksNext(data[..n], i, Every(|current|));
      EveryAt(|current|, i);
      ghost var mask := data[..n];
      data[i / 8] := data[i / 8] | (1 << (i % 8));
      assert data[..n] == SetMaskBit(mask, i);
    }
  }

  lemma EveryAt(n: nat, i: nat)
    requires i < n
    ensures |Every(n)| == n && Every(n)[i]
  {
  }

  lemma EveryCovers(previous: Bytes, current: Bytes)
    ensures Covers(Every(|current|), previous, current)
  {
  }

  // ---- the holder ----

  /** A queued item: its data is `length` bytes of the data buffer. */
  datatype Item = FullItem(length: nat) | DeltaItem(length: nat, crc: bv32, size: nat)

  function Bound(item: Item, data: Bytes): (r: Wire) {
    match item
    case FullItem(_) => Full(data)
    case DeltaItem(_, crc, size) => Delta(data, crc, size)
  }

  /** Every item lies inside the buffer. */
  ghost predicate Inside(buffer: Bytes, items: seq<Item>, offsets: seq<nat>) {
    && |items| == |offsets|
    && forall i | 0 <= i < |items| :: offsets[i] + items[i].length <= |buffer|
  }

  ghost function Message(buffer: Bytes, items: seq<Item>, offsets: seq<nat>): (r: seq<Wire>)
    requires Inside(buffer, items, offsets)
    ensures |r| == |items|
  {
    seq(|items|, i requires 0 <= i < |items| => Bound(items[i], buffer[offsets[i]..offsets[i] + items[i].length]))
  }

  /** Appending data and its item adds one wire item and disturbs no other. */
  lemma MessageAppend(buffer: Bytes, items: seq<Item>, offsets: seq<nat>, item: Item, data: Bytes)
    requires Inside(buffer, items, offsets) && item.length == |data|
    ensures Inside(buffer + data, items + [item], offsets + [|buffer|])
    ensures Message(buffer + data, items + [item], offsets + [|buffer|])
         == Message(buffer, items, offsets) + [Bound(item, data)]
  {
    var bigger, more, at := buffer + data, items + [item], offsets + [|buffer|];
    forall i | 0 <= i < |items|
      ensures Message(bigger, more, at)[i] == Message(buffer, items, offsets)[i]
    {
      var a, b := offsets[i], offsets[i] + items[i].length;
      assert bigger[a..b] == buffer[a..b];
    }
    assert bigger[|buffer|..|buffer| + |data|] == data;
  }

  lemma FullDecodes(h: Host, current: Bytes, width: nat, crc: Bytes -> bv32)
    ensures Apply(h, Full(current), width, crc) == Known(current)
  {
  }

  lemma ChangedCovers(previous: Bytes, current: Bytes)
    requires |previous| == |current|
    ensures Covers(Changed(previous, current), previous, current)
  {
  }

  class Holder {
    const width: nat
    const crc: Bytes -> bv32
    var dataBuffer: Bytes
    var items: seq<Item>
    var offsets: seq<nat>
    var lastSent: Bytes
    var pending: Bytes
    var capacity: nat

    /** Everything consumed so far, and the state given last. */
    ghost var consumed: seq<Wire>
    ghost var recent: Host

    ghost predicate Valid()
      reads this
    {
      && Inside(dataBuffer, items, offsets)
      && |lastSent| <= capacity && |pending| <= capacity
    }

    ghost function Queued(): (r: seq<Wire>)
      requires Valid()
      reads this
    {
      Message(dataBuffer, items, offsets)
    }

    /** What the host decodes once it has everything queued. */
    ghost function Decoded(): (r: Host)
      requires Valid()
      reads this
    {
      Replay(consumed + Queued(), width, crc)
    }

    /** The host will see exactly the most recent state. */
    ghost predicate Sound()
      requires Valid()
      reads this
    {
      Decoded() == recent
    }

    /** The state that full reports are compared with. */
    function Baseline(): (r: Host)
      reads this
    {
      if |pending| > 0 then Known(pending) else if capacity > 0 then Known(lastSent) else Empty
    }

    ghost predicate Synced()
      reads this
    {
      Baseline() == recent
    }

    constructor (reportLength: nat, checksum: Bytes -> bv32)
      ensures Valid() && Sound() && Synced() && recent == Empty && consumed == [] && width == reportLength && crc == checksum
    {
      width, crc := reportLength, checksum;
      dataBuffer, items, offsets, lastSent, pending, capacity := [], [], [], [], [], 0;
      consumed, recent := [], Empty;
    }

    /** Captures the state for the next comparison. */
    method Stash(current: Bytes)
      requires Valid()
      modifies this`pending, this`capacity, this`recent
      ensures Valid() && pending == current && recent == Known(current)
      ensures capacity == if |current| > old(capacity) then |current| else old(capacity)
      ensures Synced() <==> |current| > 0 || (old(capacity) > 0 && lastSent == [])
    {
      if |current| > capacity {
        capacity := |current|;
      }
      pending := current;
      recent := Known(current);
    }

    predicate SameAsLastSent(current: Bytes)
      reads this
      ensures SameAsLastSent(current) <==> Baseline() == Known(current)
    {
      if |pending| > 0 then |pending| == |current| && pending == current
      else capacity > 0 && |lastSent| == |current| && lastSent == current
    }

    /** Appends one item with its data. */
    method Append(item: Item, data: Bytes)
      requires Valid() && item.length == |data|
      modifies this`dataBuffer, this`items, this`offsets
      ensures Valid() && Queued() == old(Queued()) + [Bound(item, data)]
      ensures Decoded() == Apply(old(Decoded()), Bound(item, data), width, crc)
    {
      hide Inside, Message, Bound, Apply;
      MessageAppend(dataBuffer, items, offsets, item, data);
      ReplayAppend(consumed + Queued(), Bound(item, data), width, crc);
      assert consumed + (Queued() + [Bound(item, data)]) == consumed + Queued() + [Bound(item, data)];
      offsets := offsets + [|dataBuffer|];
      dataBuffer := dataBuffer + data;
      items := items + [item];
    }

    /**
     * Queues a full report, unless it is not forced and repeats the baseline. The host ends up
     * with this state if and only if nothing was dropped or the host already had it.
     */
    method AddFull(current: Bytes, force: bool)
      requires Valid() && |current| <= width
      modifies this`dataBuffer, this`items, this`offsets, this`pending, this`capacity, this`recent
      ensures Valid() && recent == Known(current)
      ensures var dropped := !force && old(Baseline()) == Known(current);
              && Queued() == old(Queued()) + (if dropped then [] else [Full(current)])
              && pending == (if dropped then old(pending) else current)
              && capacity == (if !dropped && |current| > old(capacity) then |current| else old(capacity))
              && (dropped ==> Decoded() == old(Decoded()))
              && (Sound() <==> (dropped ==> old(Decoded()) == Known(current)))
      ensures old(Sound() && Synced()) ==> Sound()
      ensures |current| > 0 ==> Synced()
      ensures force ==> (Synced() <==> |current| > 0 || (old(capacity) > 0 && lastSent == []))
    {
      hide Replay;
      if !force && SameAsLastSent(current) {
        recent := Known(current);
        assert Queued() == old(Queued());
        return;
      }
      Stash(current);
      Append(FullItem(|current|), current);
    }

    /** Drops what is queued and queues one full report. */
    method ReplaceWithFullForced(current: Bytes)
      requires Valid() && |current| <= width
      modifies this`dataBuffer, this`items, this`offsets, this`pending, this`lastSent, this`capacity, this`recent
      ensures Valid() && Sound() && recent == Known(current) && Queued() == [Full(current)] && lastSent == old(lastSent)
      ensures pending == current && capacity == (if |current| > old(capacity) then |current| else old(capacity))
    {
      ClearMessage(false);
      AddFull(current, true);
    }

    /** Every byte is sent, so the host needs no earlier state. */
    method AddForcedFullMaskDelta(current: Bytes)
      requires Valid() && |current| <= width
      modifies this`dataBuffer, this`items, this`offsets, this`pending, this`capacity, this`recent
      ensures Valid() && Sound() && recent == Known(current) && |Queued()| == |old(Queued())| + 1
      ensures pending == current && capacity == (if |current| > old(capacity) then |current| else old(capacity))
    {
      hide Replay, Apply, Marks, MaskBit, Inside, Picked, Every;
      ghost var host := Decoded();
      Stash(current);
      var data := new Byte[MaskSize(width) + |current|];
      FillFullMask(current, width, data);
      EveryCovers(State(host), current);
      PickedEvery(current, |current|);
      assert current[..|current|] == current;
      DeltaDecodes(host, data[..MaskSize(width)], current, width, crc, Every(|current|));
      assert data[..] == data[..MaskSize(width)] + current;
      Append(DeltaItem(data.Length, crc(current), |current|), data[..]);
    }

    /**
     * Queues the change from the previous state, or the whole state when that is not longer. Either way
     * a host that had the previous state ends up with the current one.
     */
    method AddDelta(previous: Bytes, current: Bytes)
      requires Valid() && |current| == |previous| <= width
      modifies this`dataBuffer, this`items, this`offsets, this`pending, this`capacity, this`recent
      ensures Valid() && recent == Known(current) && |Queued()| == |old(Queued())| + 1
      ensures old(Decoded()) == Known(previous) ==> Sound()
      ensures pending == current && capacity == (if |current| > old(capacity) then |current| else old(capacity))
      ensures Queued()[|old(Queued())|].Full? <==>
                MaskSize(width) + |Picked(current, 0, |current|, Changed(previous, current))| + 8 >= |current|
    {
      hide Replay, Apply, Marks, MaskBit, Picked, Inside, Changed;
      ghost var host := Decoded();
      Stash(current);
      var n := MaskSize(width);
      var delta := new Byte[n + |current|];
      var size := ComputeDelta(previous, current, width, delta);
      if size + 8 >= |current| {
        FullDecodes(host, current, width, crc);
        Append(FullItem(|current|), current);
      } else {
        ghost var flags := Changed(previous, current);
        if host == Known(previous) {
          ChangedCovers(previous, current);
          DeltaDecodes(host, delta[..n], current, width, crc, flags);
        }
        assert delta[..size] == delta[..n] + Picked(current, 0, |current|, flags);
        Append(DeltaItem(size, crc(current), |current|), delta[..size]);
      }
    }

    /** Binds each item to its data. */
    method GetMessage() returns (r: Option<seq<Wire>>)
      requires Valid()
      ensures r == if items == [] then None else Some(Queued())
    {
      if |items| == 0 {
        return None;
      }
      var message: seq<Wire> := [];
      for i := 0 to |items|
        invariant message == Queued()[..i]
      {
        message := message + [Bound(items[i], dataBuffer[offsets[i]..offsets[i] + items[i].length])];
      }
      assert Queued()[..|items|] == Queued();
      return Some(message);
    }

    /** The batch was consumed. */
    method ResetMessage()
      requires Valid()
      modifies this`dataBuffer, this`items, this`offsets, this`pending, this`lastSent, this`consumed
      ensures Valid() && Queued() == [] && consumed == old(consumed + Queued()) && Decoded() == old(Decoded())
      ensures Baseline() == old(Baseline())
      ensures pending == [] && lastSent == if |old(pending)| > 0 then old(pending) else old(lastSent)
    {
      ghost var all := consumed + Queued();
      ClearMessage(true);
      consumed := all;
      assert consumed + Queued() == all;
    }

    method ClearMessage(promotePending: bool)
      requires Valid()
      modifies this`dataBuffer, this`items, this`offsets, this`pending, this`lastSent
      ensures Valid() && Queued() == [] && pending == []
      ensures promotePending ==> Baseline() == old(Baseline())
      ensures lastSent == if promotePending && |old(pending)| > 0 then old(pending) else old(lastSent)
    {
      dataBuffer, items, offsets := [], [], [];
      if promotePending && |pending| > 0 {
        lastSent, pending := pending, [];
      } else if !promotePending {
        pending := [];
      }
    }
  }
}
