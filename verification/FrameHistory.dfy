/** Unwrapping 16-bit frame ids, and the table that remembers which sequences of an epoch were begun. */
module FrameHistory {
  import opened Words
  import opened Modular

  const HORIZON := 256

  datatype Place = At(seqn: U64) | Ambiguous | Exhausted | Stale

  /** A sequence that carries this id and lies within half the id range of `highest`. */
  ghost predicate Near(q: int, frameId: U16, highest: nat) {
    Wrap16(q) == frameId && -0x8000 < q - highest < 0x8000
  }

  lemma NearUnique(a: int, b: int, frameId: U16, highest: nat)
    requires Near(a, frameId, highest) && Near(b, frameId, highest)
    ensures a == b
  {
    var x, y := a / U16_SIZE, b / U16_SIZE;
    assert a - b == U16_SIZE * (x - y);
    MulBetween(U16_SIZE, x - y, a - b);
  }

  /** The 16-bit difference locates the nearby sequence. */
  lemma DeltaNear(frameId: U16, highest: nat)
    ensures var delta := Wrap16(frameId - Wrap16(highest));
            && (delta < 0x8000 ==> Near(highest + delta, frameId, highest))
            && (delta > 0x8000 ==> Near(highest - (U16_SIZE - delta), frameId, highest))
            && (delta == 0x8000 ==> forall q: int :: !Near(q, frameId, highest))
  {
    var h := highest / U16_SIZE;
    var d := (frameId - Wrap16(highest)) / U16_SIZE;
    var delta := Wrap16(frameId - Wrap16(highest));
    assert highest + delta == frameId + U16_SIZE * (h - d);
    ModUnique(highest + delta, U16_SIZE, h - d, frameId);
    assert highest - (U16_SIZE - delta) == frameId + U16_SIZE * (h - d - 1);
    ModUnique(highest - (U16_SIZE - delta), U16_SIZE, h - d - 1, frameId);
    if delta == 0x8000 {
      forall q: int
        ensures !Near(q, frameId, highest)
      {
        if Near(q, frameId, highest) {
          var x := q / U16_SIZE;
          assert highest + delta - q == U16_SIZE * (h - d - x);
          MulBetween(U16_SIZE, h - d - x, highest + delta - q);
        }
      }
    }
  }

  ghost predicate Agrees(seen: seq<U64>, valid: seq<bool>, begun: set<int>, highest: nat) {
    && |seen| == HORIZON && |valid| == HORIZON
    && (forall q | q in begun :: 0 <= q <= highest)
    && (forall k | 0 <= k < HORIZON && valid[k] :: seen[k] in begun && seen[k] % HORIZON == k)
    && forall q | q in begun && q > highest - HORIZON :: valid[q % HORIZON] && seen[q % HORIZON] == q
  }

  /** Two sequences of one horizon never share a slot. */
  lemma SameSlot(a: int, b: int)
    requires a % HORIZON == b % HORIZON && -HORIZON < a - b < HORIZON
    ensures a == b
  {
    var x, y := a / HORIZON, b / HORIZON;
    assert a - b == HORIZON * (x - y);
    MulBetween(HORIZON, x - y, a - b);
  }

  lemma AgreesInsert(seen: seq<U64>, valid: seq<bool>, begun: set<int>, highest: nat, q: U64, top: nat)
    requires Agrees(seen, valid, begun, highest) && q !in begun
    requires if begun == {} then top == q else q > highest - HORIZON && top == if q > highest then q else highest
    ensures Agrees(seen[q % HORIZON := q], valid[q % HORIZON := true], begun + {q}, top)
  {
    var slot := q % HORIZON;
    var seen', valid', begun' := seen[slot := q], valid[slot := true], begun + {q};
    forall p | p in begun' && p > top - HORIZON
      ensures valid'[p % HORIZON] && seen'[p % HORIZON] == p
    {
      if p != q && p % HORIZON == slot {
        SameSlot(p, q);
      }
    }
  }

  class History {
    const seen: array<U64>
    const valid: array<bool>
    var highest: U64
    var have: bool
    /** Every sequence begun in this epoch. */
    ghost var begun: set<int>

    /** The table agrees with the whole history, as far back as the horizon. */
    ghost predicate Valid()
      reads this, seen, valid
    {
      && seen.Length == HORIZON && valid.Length == HORIZON
      && (have <==> begun != {})
      && (have ==> highest in begun && highest >= U16_SIZE)
      && Agrees(seen[..], valid[..], begun, highest)
    }

    constructor ()
      ensures Valid() && !have && fresh(seen) && fresh(valid)
    {
      seen := new U64[HORIZON](_ => 0);
      valid := new bool[HORIZON](_ => false);
      highest, have, begun := 0, false, {};
    }

    /** A new epoch forgets everything. */
    method Reset()
      requires Valid()
      modifies this, valid
      ensures Valid() && begun == {}
    {
      have, begun := false, {};
      for i := 0 to HORIZON
        invariant forall k | 0 <= k < i :: !valid[k]
        invariant !have && begun == {}
      {
        valid[i] := false;
      }
    }

    /** Unwraps the id: the nearby sequence, if there is one and it is neither too old nor too large. */
    method Locate(frameId: U16) returns (p: Place)
      requires Valid()
      ensures !have ==> p == At(U16_SIZE + frameId)
      ensures have ==> (p == Ambiguous <==> forall q: int :: !Near(q, frameId, highest))
      ensures forall q: int | have && Near(q, frameId, highest) ::
                && (p == Stale <==> q <= highest - HORIZON)
                && (p == Exhausted <==> q >= U64_SIZE)
                && (highest - HORIZON < q < U64_SIZE ==> p == At(q))
      ensures p.At? ==> Wrap16(p.seqn) == frameId && (have ==> p.seqn > highest - HORIZON)
    {
      if !have {
        return At(U16_SIZE + frameId);
      }
      var delta := Wrap16(frameId - Wrap16(highest));
      DeltaNear(frameId, highest);
      if delta == 0x8000 {
        return Ambiguous;
      }
      ghost var near := if delta < 0x8000 then highest + delta else highest - (U16_SIZE - delta);
      assert Near(near, frameId, highest);
      forall q: int | Near(q, frameId, highest)
        ensures q == near
      {
        NearUnique(q, near, frameId, highest);
      }
      if delta < 0x8000 {
        if U64_SIZE - 1 - highest < delta {
          return Exhausted;
        }
        return At(highest + delta);
      }
      var back := U16_SIZE - delta;
      if back >= HORIZON || back > highest {
        return Stale;
      }
      return At(highest - back);
    }

    /** Whether the sequence was begun before; exact within the horizon. */
    method Contains(q: U64) returns (r: bool)
      requires Valid()
      ensures have && q > highest - HORIZON ==> (r <==> q in begun)
      ensures r ==> q in begun
    {
      r := valid[q % HORIZON] && seen[q % HORIZON] == q;
    }

    method Remember(q: U64)
      requires Valid() && q !in begun && (if have then q > highest - HORIZON else q >= U16_SIZE)
      modifies this, seen, valid
      ensures Valid() && begun == old(begun) + {q}
      ensures highest == if !old(have) || q > old(highest) then q else old(highest)
    {
      hide Agrees;
      ghost var top := if !have || q > highest then q else highest;
      ghost var slot := q % HORIZON;
      AgreesInsert(seen[..], valid[..], begun, highest, q, top);
      ghost var marks := valid[..];
      valid[q % HORIZON] := true;
      assert valid[..] == marks[slot := true];
      ghost var held := seen[..];
      seen[q % HORIZON] := q;
      assert seen[..] == held[slot := q];
      if !have || q > highest {
        highest := q;
      }
      have, begun := true, begun + {q};
    }

    /** A legacy begin: a fresh ticket is given to a sequence at most once per epoch. */
    method Begin(frameId: U16, room: bool) returns (p: Place, given: bool)
      requires Valid()
      modifies this, seen, valid
      ensures Valid() && (old(have) ==> old(highest) <= highest)
      ensures given ==> p.At? && p.seqn !in old(begun) && begun == old(begun) + {p.seqn} && Wrap16(p.seqn) == frameId
      ensures !given ==> begun == old(begun) && highest == old(highest) && have == old(have)
      ensures p.At? && !given ==> p.seqn in old(begun) || !room
    {
      p := Locate(frameId);
      given := false;
      if p.At? {
        var known := Contains(p.seqn);
        given := !known && room;
        if given {
          Remember(p.seqn);
        }
      }
    }
  }
}
