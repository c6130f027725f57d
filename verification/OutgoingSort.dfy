/** The channel sort of the outgoing scheduler: quicksort with sentinel loops and insertion sort. */
module OutgoingSort {

  type Channel = x: int | 0 <= x < 32
  type Priorities = s: seq<int> | |s| == 32 witness seq(32, _ => 0)

  predicate Before(p: Priorities, x: Channel, y: Channel) {
    p[x] > p[y]
  }

  /** Non-increasing priority over the positions from lo to hi. */
  ghost predicate SortedRange(p: Priorities, s: seq<Channel>, lo: int, hi: int)
    requires 0 <= lo <= hi <= |s|
  {
    forall i, j | lo <= i < j < hi :: p[s[i]] >= p[s[j]]
  }

  ghost predicate AllAtLeast(p: Priorities, s: seq<Channel>, lo: int, hi: int, v: int)
    requires 0 <= lo <= hi <= |s|
  {
    forall i | lo <= i < hi :: p[s[i]] >= v
  }

  ghost predicate AllAtMost(p: Priorities, s: seq<Channel>, lo: int, hi: int, v: int)
    requires 0 <= lo <= hi <= |s|
  {
    forall i | lo <= i < hi :: p[s[i]] <= v
  }

  /** t is s with the positions from lo to hi permuted and everything else in place. */
  ghost predicate Rearranged(s: seq<Channel>, t: seq<Channel>, lo: int, hi: int) {
    && |s| == |t| && 0 <= lo <= hi <= |s|
    && s[..lo] == t[..lo] && s[hi..] == t[hi..]
    && multiset(s[lo..hi]) == multiset(t[lo..hi])
  }

  lemma RearrangedTrans(s: seq<Channel>, t: seq<Channel>, u: seq<Channel>, lo: int, hi: int)
    requires Rearranged(s, t, lo, hi) && Rearranged(t, u, lo, hi)
    ensures Rearranged(s, u, lo, hi)
  {
  }

  lemma RearrangedWiden(s: seq<Channel>, t: seq<Channel>, lo: int, hi: int, lo': int, hi': int)
    requires Rearranged(s, t, lo, hi) && 0 <= lo' <= lo && hi <= hi' <= |s|
    ensures Rearranged(s, t, lo', hi')
  {
    assert s[lo'..hi'] == s[lo'..lo] + s[lo..hi] + s[hi..hi'];
    assert t[lo'..hi'] == t[lo'..lo] + t[lo..hi] + t[hi..hi'];
    assert s[lo'..lo] == s[..lo][lo'..] && t[lo'..lo] == t[..lo][lo'..];
    assert s[hi..hi'] == s[hi..][..hi' - hi] && t[hi..hi'] == t[hi..][..hi' - hi];
    assert s[..lo'] == s[..lo][..lo'] && t[..lo'] == t[..lo][..lo'];
    assert s[hi'..] == s[hi..][hi' - hi..] && t[hi'..] == t[hi..][hi' - hi..];
  }

  lemma RearrangedOutside(s: seq<Channel>, t: seq<Channel>, lo: int, hi: int, i: int)
    requires Rearranged(s, t, lo, hi) && 0 <= i < |s| && (i < lo || hi <= i)
    ensures s[i] == t[i]
  {
    if i < lo {
      assert s[i] == s[..lo][i] && t[i] == t[..lo][i];
    } else {
      assert s[i] == s[hi..][i - hi] && t[i] == t[hi..][i - hi];
    }
  }

  lemma RearrangedMember(s: seq<Channel>, t: seq<Channel>, lo: int, hi: int, i: int) returns (j: int)
    requires Rearranged(s, t, lo, hi) && lo <= i < hi
    ensures lo <= j < hi && s[j] == t[i]
  {
    assert t[i] == t[lo..hi][i - lo];
    assert t[i] in multiset(t[lo..hi]);
    assert t[i] in s[lo..hi];
    j :| 0 <= j < hi - lo && s[lo..hi][j] == t[i];
    j := lo + j;
  }

  /** Bounds on a whole range survive rearranging part of it. */
  lemma KeepBounds(p: Priorities, s: seq<Channel>, t: seq<Channel>, lo: int, hi: int, lo': int, hi': int, v: int)
    requires Rearranged(s, t, lo, hi) && 0 <= lo' <= lo && hi <= hi' <= |s|
    ensures AllAtLeast(p, s, lo', hi', v) ==> AllAtLeast(p, t, lo', hi', v)
    ensures AllAtMost(p, s, lo', hi', v) ==> AllAtMost(p, t, lo', hi', v)
  {
    hide Rearranged;
    RearrangedShape(s, t, lo, hi);
    forall i | lo' <= i < hi'
      ensures exists j :: lo' <= j < hi' && s[j] == t[i]
    {
      if lo <= i < hi {
        var j := RearrangedMember(s, t, lo, hi, i);
      } else {
        RearrangedOutside(s, t, lo, hi, i);
        assert s[i] == t[i];
      }
    }
  }

  lemma RearrangedShape(s: seq<Channel>, t: seq<Channel>, lo: int, hi: int)
    requires Rearranged(s, t, lo, hi)
    ensures |s| == |t| && 0 <= lo <= hi <= |s|
  {
  }

  lemma SwapRearranges(s: seq<Channel>, i: int, j: int, lo: int, hi: int)
    requires 0 <= lo <= i < hi <= |s| && lo <= j < hi
    ensures Rearranged(s, s[i := s[j]][j := s[i]], lo, hi)
  {
    var t := s[i := s[j]][j := s[i]];
    var m := s[lo..hi];
    assert t[lo..hi] == m[i - lo := m[j - lo]][j - lo := m[i - lo]];
    assert multiset(t[lo..hi]) == multiset(m) - multiset{m[i - lo]} + multiset{m[j - lo]} - multiset{m[j - lo]} + multiset{m[i - lo]};
    assert s[..lo] == t[..lo] && s[hi..] == t[hi..];
  }

  lemma RearrangedRefl(s: seq<Channel>, lo: int, hi: int)
    requires 0 <= lo <= hi <= |s|
    ensures Rearranged(s, s, lo, hi)
  {
  }

  method Swap(a: array<Channel>, i: int, j: int, ghost lo: int, ghost hi: int)
    requires 0 <= lo <= i < hi <= a.Length && lo <= j < hi
    modifies a
    ensures a[..] == old(a[..])[i := old(a[j])][j := old(a[i])]
    ensures Rearranged(old(a[..]), a[..], lo, hi)
  {
    SwapRearranges(a[..], i, j, lo, hi);
    a[i], a[j] := a[j], a[i];
  }

  /** Order three positions; the middle one then holds the median. */
  method Sort3(p: Priorities, a: array<Channel>, x: int, y: int, z: int, ghost lo: int, ghost hi: int)
    requires 0 <= lo <= x < hi <= a.Length && lo <= y < hi && lo <= z < hi && x != y && y != z && x != z
    modifies a
    ensures Rearranged(old(a[..]), a[..], lo, hi)
    ensures p[a[x]] >= p[a[y]] >= p[a[z]]
  {
    hide Rearranged;
    ghost var s := a[..];
    RearrangedRefl(s, lo, hi);
    if !Before(p, a[y], a[x]) {
      if !Before(p, a[z], a[y]) {
        return;
      }
      Swap(a, y, z, lo, hi);
      ghost var t := a[..];
      if Before(p, a[y], a[x]) {
        Swap(a, x, y, lo, hi);
        RearrangedTrans(s, t, a[..], lo, hi);
      }
    } else if Before(p, a[z], a[y]) {
      Swap(a, x, z, lo, hi);
    } else {
      Swap(a, x, y, lo, hi);
      ghost var t := a[..];
      if Before(p, a[z], a[y]) {
        Swap(a, y, z, lo, hi);
        RearrangedTrans(s, t, a[..], lo, hi);
      }
    }
  }

  /** Sorted, except that the value at j may belong further to the left. */
  ghost predicate SortedButOne(p: Priorities, s: seq<Channel>, lo: int, hi: int, j: int)
    requires 0 <= lo <= j < hi <= |s|
  {
    forall k, l | lo <= k < l < hi && l != j :: p[s[k]] >= p[s[l]]
  }

  lemma SortedButOneStep(p: Priorities, s: seq<Channel>, lo: int, hi: int, j: int)
    requires 0 <= lo < j < hi <= |s| && SortedButOne(p, s, lo, hi, j) && p[s[j]] > p[s[j - 1]]
    ensures SortedButOne(p, s[j := s[j - 1]][j - 1 := s[j]], lo, hi, j - 1)
  {
  }

  lemma SortedButOneDone(p: Priorities, s: seq<Channel>, lo: int, hi: int, j: int)
    requires 0 <= lo <= j < hi <= |s| && SortedButOne(p, s, lo, hi, j)
    requires j > lo ==> p[s[j - 1]] >= p[s[j]]
    ensures SortedRange(p, s, lo, hi)
  {
    forall k, l | lo <= k < l < hi
      ensures p[s[k]] >= p[s[l]]
    {
      if l == j && k < j - 1 {
        assert p[s[k]] >= p[s[j - 1]];
      }
    }
  }

  /** Shift the value at i down to its place in the sorted positions before it. */
  method Insert(p: Priorities, a: array<Channel>, lo: int, i: int) returns (j: int)
    requires 0 <= lo <= i < a.Length && SortedRange(p, a[..], lo, i)
    modifies a
    ensures Rearranged(old(a[..]), a[..], lo, i + 1) && SortedRange(p, a[..], lo, i + 1)
    ensures lo <= j <= i
  {
    hide Rearranged, SortedButOne, SortedRange;
    ghost var s := a[..];
    var value := a[i];
    j := i;
    RearrangedRefl(s, lo, i + 1);
    InsertStart(p, s, lo, i);
    while j > lo && Before(p, value, a[j - 1])
      invariant lo <= j <= i
      invariant Rearranged(s, a[..][j := value], lo, i + 1) && SortedButOne(p, a[..][j := value], lo, i + 1, j)
    {
      ghost var c := a[..];
      InsertStep(p, s, c, lo, i, j, value);
      a[j] := a[j - 1];
      assert a[..] == c[j := c[j - 1]];
      j := j - 1;
    }
    ghost var t := a[..][j := value];
    SortedButOneDone(p, t, lo, i + 1, j);
    a[j] := value;
    assert a[..] == t;
  }

  /** Moving the gap at j one place down. */
  lemma InsertStep(p: Priorities, s: seq<Channel>, c: seq<Channel>, lo: int, i: int, j: int, value: Channel)
    requires 0 <= lo < j <= i < |c| && Before(p, value, c[j - 1])
    requires Rearranged(s, c[j := value], lo, i + 1) && SortedButOne(p, c[j := value], lo, i + 1, j)
    ensures var t := c[j := c[j - 1]][j - 1 := value];
            Rearranged(s, t, lo, i + 1) && SortedButOne(p, t, lo, i + 1, j - 1)
  {
    hide Rearranged, SortedButOne;
    var t := c[j := value];
    var u := t[j := t[j - 1]][j - 1 := t[j]];
    assert u == c[j := c[j - 1]][j - 1 := value];
    SwapRearranges(t, j, j - 1, lo, i + 1);
    SortedButOneStep(p, t, lo, i + 1, j);
    RearrangedTrans(s, t, u, lo, i + 1);
  }

  lemma InsertStart(p: Priorities, s: seq<Channel>, lo: int, i: int)
    requires 0 <= lo <= i < |s| && SortedRange(p, s, lo, i)
    ensures SortedButOne(p, s, lo, i + 1, i) && s[i := s[i]] == s
  {
  }

  /** Insertion sort; in the incomplete mode it gives up after eight moved elements. */
  method Insertion(p: Priorities, a: array<Channel>, lo: int, hi: int, incomplete: bool) returns (done: bool)
    requires 0 <= lo <= hi <= a.Length
    modifies a
    ensures Rearranged(old(a[..]), a[..], lo, hi)
    ensures done ==> SortedRange(p, a[..], lo, hi)
    ensures !incomplete ==> done
  {
    hide Rearranged;
    ghost var s := a[..];
    RearrangedRefl(s, lo, hi);
    var start := lo + 1;
    if incomplete && hi - lo > 5 {
      Sort3(p, a, lo, lo + 1, lo + 2, lo, lo + 3);
      RearrangedWiden(s, a[..], lo, lo + 3, lo, hi);
      start := lo + 3;
    }
    var moved, i := 0, start;
    while i < hi
      invariant start <= i && (i <= hi || i == lo + 1)
      invariant Rearranged(s, a[..], lo, hi)
      invariant i <= hi ==> SortedRange(p, a[..], lo, i)
    {
      ghost var t := a[..];
      var j := Insert(p, a, lo, i);
      RearrangedWiden(t, a[..], lo, i + 1, lo, hi);
      RearrangedTrans(s, t, a[..], lo, hi);
      if incomplete && hi - lo > 5 && j != i {
        moved := moved + 1;
        if moved == 8 {
          return i + 1 == hi;
        }
      }
      i := i + 1;
    }
    return true;
  }

  // ---- partitioning ----

  /** The class that goes to the left: strictly before the pivot, or not after it. */
  predicate GoesLeft(p: Priorities, pivot: Channel, strict: bool, x: Channel) {
    if strict then Before(p, x, pivot) else !Before(p, pivot, x)
  }

  ghost predicate AllLeft(p: Priorities, s: seq<Channel>, pivot: Channel, strict: bool, lo: int, hi: int)
    requires 0 <= lo && hi <= |s|
  {
    forall i | lo <= i < hi :: GoesLeft(p, pivot, strict, s[i])
  }

  ghost predicate NoneLeft(p: Priorities, s: seq<Channel>, pivot: Channel, strict: bool, lo: int, hi: int)
    requires 0 <= lo && hi <= |s|
  {
    forall i | lo <= i < hi :: !GoesLeft(p, pivot, strict, s[i])
  }

  /** do ++first while a[first] goes left; nothing but the sentinel at stop bounds the loop. */
  method ScanUp(p: Priorities, a: array<Channel>, pivot: Channel, strict: bool, from: int, ghost stop: int) returns (first: int)
    requires 0 <= from < stop < a.Length && !GoesLeft(p, pivot, strict, a[stop])
    ensures from < first <= stop && !GoesLeft(p, pivot, strict, a[first])
    ensures AllLeft(p, a[..], pivot, strict, from + 1, first)
  {
    first := from + 1;
    while GoesLeft(p, pivot, strict, a[first])
      invariant from < first <= stop
      invariant forall i | from < i < first :: GoesLeft(p, pivot, strict, a[i])
      decreases stop - first
    {
      first := first + 1;
    }
  }

  /** do --last while a[last] does not go left; again only a sentinel bounds the loop. */
  method ScanDown(p: Priorities, a: array<Channel>, pivot: Channel, strict: bool, from: int, ghost stop: int) returns (last: int)
    requires 0 <= stop < from <= a.Length && GoesLeft(p, pivot, strict, a[stop])
    ensures stop <= last < from && GoesLeft(p, pivot, strict, a[last])
    ensures NoneLeft(p, a[..], pivot, strict, last + 1, from)
  {
    last := from - 1;
    while !GoesLeft(p, pivot, strict, a[last])
      invariant stop <= last < from
      invariant forall i | last < i < from :: !GoesLeft(p, pivot, strict, a[i])
      decreases last - stop
    {
      last := last - 1;
    }
  }

  /** What is known between two scans, with the cursors at first and last. */
  ghost predicate Scanned(p: Priorities, s: seq<Channel>, pivot: Channel, strict: bool,
                          lo: int, hi: int, first: int, last: int)
  {
    && 0 <= lo < first <= hi <= |s| && lo <= last <= hi
    && AllLeft(p, s, pivot, strict, lo + 1, first)
    && NoneLeft(p, s, pivot, strict, last + 1, hi)
    && (if first < last then
          last < hi && !GoesLeft(p, pivot, strict, s[first]) && GoesLeft(p, pivot, strict, s[last])
        else NoneLeft(p, s, pivot, strict, first, hi))
  }

  lemma Exchange(p: Priorities, s: seq<Channel>, pivot: Channel, strict: bool, lo: int, hi: int, first: int, last: int)
    requires Scanned(p, s, pivot, strict, lo, hi, first, last) && first < last
    ensures var t := s[first := s[last]][last := s[first]];
            AllLeft(p, t, pivot, strict, lo + 1, first + 1) && NoneLeft(p, t, pivot, strict, last, hi)
  {
  }

  method PartitionLoop(p: Priorities, a: array<Channel>, pivot: Channel, strict: bool, lo: int, hi: int, first0: int, last0: int)
      returns (first: int)
    requires hi <= a.Length && Scanned(p, a[..], pivot, strict, lo, hi, first0, last0)
    modifies a
    ensures lo < first <= hi && (first0 < hi ==> first < hi)
    ensures AllLeft(p, a[..], pivot, strict, lo + 1, first) && NoneLeft(p, a[..], pivot, strict, first, hi)
    ensures Rearranged(old(a[..]), a[..], lo + 1, hi)
  {
    hide Rearranged, Scanned, AllLeft, NoneLeft, GoesLeft;
    first := first0;
    var last := last0;
    ghost var s := a[..];
    ScannedShape(p, s, pivot, strict, lo, hi, first, last);
    RearrangedRefl(s, lo + 1, hi);
    while first < last
      invariant 0 <= lo < first <= hi && lo <= last <= hi && Scanned(p, a[..], pivot, strict, lo, hi, first, last)
      invariant Rearranged(s, a[..], lo + 1, hi)
      invariant first0 < hi ==> first < hi
      decreases last - first
    {
      ScannedShape(p, a[..], pivot, strict, lo, hi, first, last);
      ghost var t := a[..];
      Exchange(p, t, pivot, strict, lo, hi, first, last);
      Swap(a, first, last, lo + 1, hi);
      RearrangedTrans(s, t, a[..], lo + 1, hi);
      ghost var first', last' := first, last;
      Sentinels(p, a[..], pivot, strict, lo, hi, first, last);
      first := ScanUp(p, a, pivot, strict, first, last');
      last := ScanDown(p, a, pivot, strict, last, first');
      Rescanned(p, a[..], pivot, strict, lo, hi, first', last', first, last);
    }
    ScannedDone(p, a[..], pivot, strict, lo, hi, first, last);
  }

  lemma ScannedShape(p: Priorities, s: seq<Channel>, pivot: Channel, strict: bool, lo: int, hi: int, first: int, last: int)
    requires Scanned(p, s, pivot, strict, lo, hi, first, last)
    ensures 0 <= lo < first <= hi <= |s| && lo <= last <= hi && (first < last ==> last < hi)
  {
  }

  /** After an exchange, each cursor stands on the sentinel of the other scan. */
  lemma Sentinels(p: Priorities, s: seq<Channel>, pivot: Channel, strict: bool, lo: int, hi: int, first: int, last: int)
    requires 0 <= lo < first < last < hi <= |s|
    requires AllLeft(p, s, pivot, strict, lo + 1, first + 1) && NoneLeft(p, s, pivot, strict, last, hi)
    ensures GoesLeft(p, pivot, strict, s[first]) && !GoesLeft(p, pivot, strict, s[last])
  {
  }

  lemma Rescanned(p: Priorities, s: seq<Channel>, pivot: Channel, strict: bool, lo: int, hi: int,
                  first0: int, last0: int, first: int, last: int)
    requires 0 <= lo < first0 < first <= last0 < hi <= |s| && first0 <= last < last0
    requires AllLeft(p, s, pivot, strict, lo + 1, first0 + 1) && NoneLeft(p, s, pivot, strict, last0, hi)
    requires !GoesLeft(p, pivot, strict, s[first]) && AllLeft(p, s, pivot, strict, first0 + 1, first)
    requires GoesLeft(p, pivot, strict, s[last]) && NoneLeft(p, s, pivot, strict, last + 1, last0)
    ensures Scanned(p, s, pivot, strict, lo, hi, first, last)
  {
    hide GoesLeft;
  }

  lemma ScannedDone(p: Priorities, s: seq<Channel>, pivot: Channel, strict: bool, lo: int, hi: int, first: int, last: int)
    requires Scanned(p, s, pivot, strict, lo, hi, first, last) && first >= last
    ensures AllLeft(p, s, pivot, strict, lo + 1, first) && NoneLeft(p, s, pivot, strict, first, hi)
  {
  }

  /** Move the pivot from lo to the end of the left part. */
  method PlacePivot(a: array<Channel>, lo: int, pos: int, pivot: Channel, ghost hi: int)
    requires 0 <= lo <= pos < hi <= a.Length && a[lo] == pivot
    modifies a
    ensures a[..] == old(a[..])[lo := old(a[pos])][pos := pivot]
    ensures Rearranged(old(a[..]), a[..], lo, hi)
  {
    SwapRearranges(a[..], lo, pos, lo, hi);
    if pos != lo {
      a[lo] := a[pos];
    }
    a[pos] := pivot;
  }

  lemma Placed(p: Priorities, s: seq<Channel>, pivot: Channel, strict: bool, lo: int, hi: int, pos: int)
    requires 0 <= lo <= pos < hi <= |s|
    requires AllLeft(p, s, pivot, strict, lo + 1, pos + 1) && NoneLeft(p, s, pivot, strict, pos + 1, hi)
    ensures var t := s[lo := s[pos]][pos := pivot];
            AllLeft(p, t, pivot, strict, lo, pos) && NoneLeft(p, t, pivot, strict, pos + 1, hi)
  {
  }

  /** The exchange loop and the placing of the pivot, common to both partitions. */
  method FinishPartition(p: Priorities, a: array<Channel>, strict: bool, lo: int, hi: int, first0: int, last0: int)
      returns (first: int)
    requires 0 <= lo < hi <= a.Length && Scanned(p, a[..], a[lo], strict, lo, hi, first0, last0)
    modifies a
    ensures lo < first <= hi && (first0 < hi ==> first < hi)
    ensures Rearranged(old(a[..]), a[..], lo, hi)
    ensures a[first - 1] == old(a[lo])
    ensures AllLeft(p, a[..], a[first - 1], strict, lo, first - 1) && NoneLeft(p, a[..], a[first - 1], strict, first, hi)
  {
    hide Rearranged, AllLeft, NoneLeft, Scanned, GoesLeft;
    ghost var s := a[..];
    var pivot := a[lo];
    first := PartitionLoop(p, a, pivot, strict, lo, hi, first0, last0);
    ghost var t := a[..];
    RearrangedWiden(s, t, lo + 1, hi, lo, hi);
    RearrangedOutside(s, t, lo + 1, hi, lo);
    Placed(p, t, pivot, strict, lo, hi, first - 1);
    PlacePivot(a, lo, first - 1, pivot, hi);
    RearrangedTrans(s, t, a[..], lo, hi);
  }

  /** No element before the pivot stands after one that is not. */
  ghost predicate AlreadySplit(p: Priorities, s: seq<Channel>, lo: int, hi: int)
    requires 0 <= lo < hi <= |s|
  {
    forall i, j | lo < i < j < hi && Before(p, s[j], s[lo]) :: Before(p, s[i], s[lo])
  }

  lemma SplitBefore(p: Priorities, s: seq<Channel>, lo: int, hi: int, first: int, last: int)
    requires 0 <= lo < hi <= |s| && Scanned(p, s, s[lo], true, lo, hi, first, last)
    ensures first >= last <==> AlreadySplit(p, s, lo, hi)
  {
  }

  /** Strictly earlier elements to the left of the pivot, the others to its right. */
  method EqualRight(p: Priorities, a: array<Channel>, lo: int, hi: int) returns (pos: int, partitioned: bool)
    requires 0 <= lo < hi - 1 && hi <= a.Length && p[a[lo]] >= p[a[hi - 1]]
    modifies a
    ensures lo <= pos < hi - 1 && Rearranged(old(a[..]), a[..], lo, hi)
    ensures AllAtLeast(p, a[..], lo, pos, p[a[pos]] + 1)
    ensures AllAtMost(p, a[..], pos + 1, hi, p[a[pos]])
    ensures partitioned <==> AlreadySplit(p, old(a[..]), lo, hi)
  {
    hide Rearranged;
    var pivot := a[lo];
    var first := ScanUp(p, a, pivot, true, lo, hi - 1);
    var last := hi;
    if first == lo + 1 {
      while first < last
        invariant first <= last <= hi
        invariant NoneLeft(p, a[..], pivot, true, last, hi)
      {
        last := last - 1;
        if Before(p, a[last], pivot) {
          break;
        }
      }
    } else {
      last := ScanDown(p, a, pivot, true, last, lo + 1);
    }
    partitioned := first >= last;
    SplitBefore(p, a[..], lo, hi, first, last);
    first := FinishPartition(p, a, true, lo, hi, first, last);
    pos := first - 1;
  }

  /** Elements not after the pivot to its left, the strictly later ones from the result on. */
  method EqualLeft(p: Priorities, a: array<Channel>, lo: int, hi: int) returns (first: int)
    requires 0 <= lo < hi <= a.Length
    modifies a
    ensures lo < first <= hi && Rearranged(old(a[..]), a[..], lo, hi)
    ensures AllAtLeast(p, a[..], lo, first, old(p[a[lo]]))
    ensures AllAtMost(p, a[..], first, hi, old(p[a[lo]]) - 1)
  {
    hide Rearranged;
    var pivot, last := a[lo], hi;
    if Before(p, pivot, a[last - 1]) {
      first := ScanUp(p, a, pivot, false, lo, hi - 1);
    } else {
      first := lo + 1;
      while first < last && !Before(p, pivot, a[first])
        invariant lo < first <= last
        invariant AllLeft(p, a[..], pivot, false, lo + 1, first)
      {
        first := first + 1;
      }
    }
    if first < last {
      last := ScanDown(p, a, pivot, false, last, lo);
    }
    first := FinishPartition(p, a, false, lo, hi, first, last);
  }

  // ---- the quicksort loop ----

  /** The outer positions are final: sorted, and on the right side of everything in between. */
  ghost predicate Framed(p: Priorities, s: seq<Channel>, lo0: int, hi0: int, lo: int, hi: int) {
    && 0 <= lo0 <= lo <= hi <= hi0 <= |s|
    && (forall i, j | lo0 <= i < lo && i < j < hi0 :: p[s[i]] >= p[s[j]])
    && (forall i, j | hi <= j < hi0 && lo0 <= i < j :: p[s[i]] >= p[s[j]])
  }

  /** Elements around a placed pivot. */
  ghost predicate Partitioned(p: Priorities, s: seq<Channel>, lo: int, pos: int, hi: int) {
    && 0 <= lo <= pos < hi <= |s|
    && AllAtLeast(p, s, lo, pos, p[s[pos]] + 1) && AllAtMost(p, s, pos + 1, hi, p[s[pos]])
  }

  lemma FramedKeeps(p: Priorities, s: seq<Channel>, t: seq<Channel>, lo0: int, hi0: int, lo: int, hi: int)
    requires Framed(p, s, lo0, hi0, lo, hi) && Rearranged(s, t, lo, hi)
    ensures Framed(p, t, lo0, hi0, lo, hi)
  {
    hide Rearranged;
    RearrangedShape(s, t, lo, hi);
    forall i, j | lo0 <= i < lo && i < j < hi0
      ensures p[t[i]] >= p[t[j]]
    {
      RearrangedOutside(s, t, lo, hi, i);
      var j' := SourceOf(s, t, lo, hi, j);
    }
    forall i, j | hi <= j < hi0 && lo0 <= i < j
      ensures p[t[i]] >= p[t[j]]
    {
      RearrangedOutside(s, t, lo, hi, j);
      var i' := SourceOf(s, t, lo, hi, i);
    }
  }

  /** Where the element now at i was before, on the same side of the range. */
  lemma SourceOf(s: seq<Channel>, t: seq<Channel>, lo: int, hi: int, i: int) returns (j: int)
    requires Rearranged(s, t, lo, hi) && 0 <= i < |s|
    ensures 0 <= j < |s| && s[j] == t[i]
    ensures if lo <= i < hi then lo <= j < hi else j == i
  {
    if lo <= i < hi {
      j := RearrangedMember(s, t, lo, hi, i);
    } else {
      RearrangedOutside(s, t, lo, hi, i);
      j := i;
    }
  }

  lemma PartitionedKeeps(p: Priorities, s: seq<Channel>, t: seq<Channel>, lo: int, pos: int, hi: int, l: int, h: int)
    requires Partitioned(p, s, lo, pos, hi) && Rearranged(s, t, l, h)
    requires (l == lo && h == pos) || (l == pos + 1 && h == hi)
    ensures Partitioned(p, t, lo, pos, hi)
  {
    hide Rearranged;
    RearrangedShape(s, t, l, h);
    RearrangedOutside(s, t, l, h, pos);
    forall i | lo <= i < pos
      ensures p[t[i]] >= p[t[pos]] + 1
    {
      var j := SourceOf(s, t, l, h, i);
    }
    forall i | pos + 1 <= i < hi
      ensures p[t[i]] <= p[t[pos]]
    {
      var j := SourceOf(s, t, l, h, i);
    }
  }

  lemma AdvancePivot(p: Priorities, s: seq<Channel>, lo0: int, hi0: int, lo: int, pos: int, hi: int)
    requires Framed(p, s, lo0, hi0, lo, hi) && Partitioned(p, s, lo, pos, hi) && SortedRange(p, s, lo, pos)
    ensures Framed(p, s, lo0, hi0, pos + 1, hi)
    ensures AllAtMost(p, s, pos + 1, hi, p[s[pos]])
  {
    forall i, j | lo0 <= i < pos + 1 && i < j < hi0
      ensures p[s[i]] >= p[s[j]]
    {
      if lo <= i && j < hi && i < pos && j > pos {
        assert p[s[i]] >= p[s[pos]] >= p[s[j]];
      }
    }
  }

  lemma RetractPivot(p: Priorities, s: seq<Channel>, lo0: int, hi0: int, lo: int, pos: int, hi: int)
    requires Framed(p, s, lo0, hi0, lo, hi) && Partitioned(p, s, lo, pos, hi) && SortedRange(p, s, pos + 1, hi)
    ensures Framed(p, s, lo0, hi0, lo, pos)
  {
    forall i, j | pos <= j < hi0 && lo0 <= i < j
      ensures p[s[i]] >= p[s[j]]
    {
      if lo <= i && j < hi && i < pos && j > pos {
        assert p[s[i]] >= p[s[pos]] >= p[s[j]];
      }
    }
  }

  /** When the pivot equals the element before the range, its whole class is final. */
  lemma AdvanceEqual(p: Priorities, s: seq<Channel>, lo0: int, hi0: int, lo: int, first: int, hi: int, v: int)
    requires Framed(p, s, lo0, hi0, lo, hi) && lo < first <= hi && AllAtMost(p, s, lo, hi, v)
    requires AllAtLeast(p, s, lo, first, v) && AllAtMost(p, s, first, hi, v - 1)
    ensures Framed(p, s, lo0, hi0, first, hi) && AllAtMost(p, s, first, hi, p[s[first - 1]])
  {
  }

  lemma FramedDone(p: Priorities, s: seq<Channel>, lo0: int, hi0: int, lo: int, hi: int)
    requires Framed(p, s, lo0, hi0, lo, hi) && SortedRange(p, s, lo, hi)
    ensures SortedRange(p, s, lo0, hi0)
  {
  }

  lemma FramedStart(p: Priorities, s: seq<Channel>, lo: int, hi: int)
    requires 0 <= lo <= hi <= |s|
    ensures Framed(p, s, lo, hi, lo, hi)
  {
  }

  /** The current range is bounded by the element just before it. */
  ghost predicate Guarded(p: Priorities, s: seq<Channel>, lo: int, hi: int) {
    0 < lo <= hi <= |s| && AllAtMost(p, s, lo, hi, p[s[lo - 1]])
  }

  lemma GuardedKeeps(p: Priorities, s: seq<Channel>, t: seq<Channel>, lo: int, hi: int)
    requires Guarded(p, s, lo, hi) && Rearranged(s, t, lo, hi)
    ensures Guarded(p, t, lo, hi) && s[lo - 1] == t[lo - 1]
  {
    hide Rearranged;
    RearrangedShape(s, t, lo, hi);
    RearrangedOutside(s, t, lo, hi, lo - 1);
    KeepBounds(p, s, t, lo, hi, lo, hi, p[s[lo - 1]]);
  }

  /** One step rearranged part of the working range; the outer facts still hold. */
  lemma Carry(p: Priorities, s0: seq<Channel>, s: seq<Channel>, t: seq<Channel>,
              lo0: int, hi0: int, lo: int, hi: int, l: int, h: int, leftmost: bool)
    requires Rearranged(s0, s, lo0, hi0) && Framed(p, s, lo0, hi0, lo, hi) && (!leftmost ==> Guarded(p, s, lo, hi))
    requires Rearranged(s, t, l, h) && lo <= l && h <= hi
    ensures Rearranged(s0, t, lo0, hi0) && Framed(p, t, lo0, hi0, lo, hi) && (!leftmost ==> Guarded(p, t, lo, hi))
    ensures Rearranged(s, t, lo, hi)
  {
    hide Rearranged, Guarded;
    RearrangedShape(s, t, l, h);
    RearrangedWiden(s, t, l, h, lo, hi);
    RearrangedWiden(s, t, l, h, lo0, hi0);
    RearrangedTrans(s0, s, t, lo0, hi0);
    FramedKeeps(p, s, t, lo0, hi0, lo, hi);
    if !leftmost {
      GuardedKeeps(p, s, t, lo, hi);
    }
  }

  lemma GuardedAt(p: Priorities, s: seq<Channel>, lo: int, hi: int)
    requires Guarded(p, s, lo, hi) && lo < hi
    ensures lo > 0 && p[s[lo]] <= p[s[lo - 1]]
  {
  }

  lemma GuardedFrom(p: Priorities, s: seq<Channel>, lo: int, hi: int)
    requires 0 < lo <= hi <= |s| && AllAtMost(p, s, lo, hi, p[s[lo - 1]])
    ensures Guarded(p, s, lo, hi)
  {
  }

  lemma GuardedShrink(p: Priorities, s: seq<Channel>, lo: int, mid: int, hi: int)
    requires Guarded(p, s, lo, hi) && lo <= mid <= hi
    ensures Guarded(p, s, lo, mid)
  {
  }

  lemma EqualToGuard(p: Priorities, s: seq<Channel>, t: seq<Channel>, lo: int, hi: int, v: int)
    requires Guarded(p, s, lo, hi) && Rearranged(s, t, lo, hi) && v >= p[s[lo - 1]]
    ensures |t| == |s| && AllAtMost(p, t, lo, hi, v)
  {
    hide Rearranged;
    RearrangedShape(s, t, lo, hi);
    GuardedKeeps(p, s, t, lo, hi);
  }

  lemma IsPartitioned(p: Priorities, s: seq<Channel>, lo: int, pos: int, hi: int)
    requires 0 <= lo <= pos < hi <= |s|
    requires AllAtLeast(p, s, lo, pos, p[s[pos]] + 1) && AllAtMost(p, s, pos + 1, hi, p[s[pos]])
    ensures Partitioned(p, s, lo, pos, hi)
  {
  }

  lemma SortedOutside(p: Priorities, s: seq<Channel>, t: seq<Channel>, lo: int, mid: int, l: int, h: int)
    requires Rearranged(s, t, l, h) && 0 <= lo <= mid <= l && SortedRange(p, s, lo, mid)
    ensures |t| == |s| && mid <= |t| && SortedRange(p, t, lo, mid)
  {
    hide Rearranged;
    RearrangedShape(s, t, l, h);
    forall i | lo <= i < mid
      ensures s[i] == t[i]
    {
      RearrangedOutside(s, t, l, h, i);
    }
  }

  /** What the quicksort loop keeps about the working range. */
  ghost predicate Working(p: Priorities, s0: seq<Channel>, s: seq<Channel>, lo0: int, hi0: int, lo: int, hi: int, leftmost: bool) {
    && 0 <= lo0 <= lo <= hi <= hi0 <= |s|
    && Rearranged(s0, s, lo0, hi0) && Framed(p, s, lo0, hi0, lo, hi) && (!leftmost ==> Guarded(p, s, lo, hi))
  }

  /** The pivot equals the element before the range: its class moves to the front and is final. */
  method SkipEqual(p: Priorities, a: array<Channel>, ghost s0: seq<Channel>, ghost lo0: int, ghost hi0: int, lo: int, hi: int)
      returns (first: int)
    requires 0 < lo < hi && Working(p, s0, a[..], lo0, hi0, lo, hi, false) && p[a[lo]] >= p[a[lo - 1]]
    modifies a
    ensures lo < first <= hi && Working(p, s0, a[..], lo0, hi0, first, hi, false)
  {
    hide Rearranged, Framed, Guarded, SortedRange, AllAtMost, AllAtLeast;
    ghost var s, v := a[..], p[a[lo]];
    first := EqualLeft(p, a, lo, hi);
    Carry(p, s0, s, a[..], lo0, hi0, lo, hi, lo, hi, false);
    EqualToGuard(p, s, a[..], lo, hi, v);
    AdvanceEqual(p, a[..], lo0, hi0, lo, first, hi, v);
    GuardedFrom(p, a[..], first, hi);
  }

  /** Both sides of an already split range are tried by insertion, which may give up on either. */
  method TryInsertion(p: Priorities, a: array<Channel>, ghost s0: seq<Channel>, ghost lo0: int, ghost hi0: int,
                      lo: int, pivot: int, hi: int, ghost leftmost: bool) returns (left: bool, right: bool)
    requires Working(p, s0, a[..], lo0, hi0, lo, hi, leftmost) && Partitioned(p, a[..], lo, pivot, hi)
    requires lo <= pivot < hi <= a.Length && 0 <= lo
    modifies a
    ensures Working(p, s0, a[..], lo0, hi0, lo, hi, leftmost) && Partitioned(p, a[..], lo, pivot, hi)
    ensures (left ==> SortedRange(p, a[..], lo, pivot)) && (right ==> SortedRange(p, a[..], pivot + 1, hi))
  {
    hide Rearranged, Framed, Guarded, Partitioned, SortedRange, AllAtMost, AllAtLeast;
    ghost var s := a[..];
    left := Insertion(p, a, lo, pivot, true);
    ghost var t := a[..];
    Carry(p, s0, s, t, lo0, hi0, lo, hi, lo, pivot, leftmost);
    PartitionedKeeps(p, s, t, lo, pivot, hi, lo, pivot);
    right := Insertion(p, a, pivot + 1, hi, true);
    Carry(p, s0, t, a[..], lo0, hi0, lo, hi, pivot + 1, hi, leftmost);
    PartitionedKeeps(p, t, a[..], lo, pivot, hi, pivot + 1, hi);
    if left {
      SortedOutside(p, t, a[..], lo, pivot, pivot + 1, hi);
    }
  }

  /** The pivot is final once everything before it in the range is sorted, or everything after it. */
  lemma AfterPivot(p: Priorities, s0: seq<Channel>, s: seq<Channel>, lo0: int, hi0: int, lo: int, pivot: int, hi: int, leftmost: bool)
    requires Working(p, s0, s, lo0, hi0, lo, hi, leftmost) && Partitioned(p, s, lo, pivot, hi) && lo <= pivot < hi
    ensures SortedRange(p, s, lo, pivot) ==> Working(p, s0, s, lo0, hi0, pivot + 1, hi, false)
    ensures SortedRange(p, s, pivot + 1, hi) ==> Working(p, s0, s, lo0, hi0, lo, pivot, leftmost)
    ensures !leftmost ==> Guarded(p, s, lo, pivot)
  {
    hide Rearranged, Framed, Guarded, SortedRange, AllAtMost, AllAtLeast, Partitioned;
    if SortedRange(p, s, lo, pivot) {
      AdvancePivot(p, s, lo0, hi0, lo, pivot, hi);
      GuardedFrom(p, s, pivot + 1, hi);
    }
    if SortedRange(p, s, pivot + 1, hi) {
      RetractPivot(p, s, lo0, hi0, lo, pivot, hi);
    }
    if !leftmost {
      GuardedShrink(p, s, lo, pivot, hi);
    }
  }

  method SortRange(p: Priorities, a: array<Channel>, lo0: int, hi0: int, leftmost0: bool)
    requires 0 <= lo0 <= hi0 <= a.Length && (!leftmost0 ==> Guarded(p, a[..], lo0, hi0))
    modifies a
    ensures Rearranged(old(a[..]), a[..], lo0, hi0) && SortedRange(p, a[..], lo0, hi0)
    decreases hi0 - lo0
  {
    hide Rearranged, Framed, Guarded, Partitioned, SortedRange, AllAtMost, AllAtLeast, AlreadySplit;
    var lo, hi, leftmost := lo0, hi0, leftmost0;
    ghost var s0 := a[..];
    RearrangedRefl(s0, lo0, hi0);
    FramedStart(p, s0, lo0, hi0);
    while hi - lo >= 24
      invariant Working(p, s0, a[..], lo0, hi0, lo, hi, leftmost)
      decreases hi - lo
    {
      ghost var s1 := a[..];
      Sort3(p, a, lo + (hi - lo) / 2, lo, hi - 1, lo, hi);
      Carry(p, s0, s1, a[..], lo0, hi0, lo, hi, lo, hi, leftmost);
      if !leftmost {
        GuardedAt(p, a[..], lo, hi);
      }
      if !leftmost && !Before(p, a[lo - 1], a[lo]) {
        lo := SkipEqual(p, a, s0, lo0, hi0, lo, hi);
        continue;
      }
      ghost var s2 := a[..];
      var pivot, partitioned := EqualRight(p, a, lo, hi);
      Carry(p, s0, s2, a[..], lo0, hi0, lo, hi, lo, hi, leftmost);
      IsPartitioned(p, a[..], lo, pivot, hi);
      if partitioned {
        var left, right := TryInsertion(p, a, s0, lo0, hi0, lo, pivot, hi, leftmost);
        AfterPivot(p, s0, a[..], lo0, hi0, lo, pivot, hi, leftmost);
        if right {
          if left {
            FramedDone(p, a[..], lo0, hi0, lo, pivot);
            return;
          }
          hi := pivot;
          continue;
        } else if left {
          lo := pivot + 1;
          GuardedEither(p, s0, a[..], lo0, hi0, lo, hi, leftmost);
          continue;
        }
      }
      ghost var s3 := a[..];
      AfterPivot(p, s0, s3, lo0, hi0, lo, pivot, hi, leftmost);
      SortRange(p, a, lo, pivot, leftmost);
      Carry(p, s0, s3, a[..], lo0, hi0, lo, hi, lo, pivot, leftmost);
      PartitionedKeeps(p, s3, a[..], lo, pivot, hi, lo, pivot);
      AfterPivot(p, s0, a[..], lo0, hi0, lo, pivot, hi, leftmost);
      lo := pivot + 1;
      leftmost := false;
    }
    ghost var s := a[..];
    var done := Insertion(p, a, lo, hi, false);
    Carry(p, s0, s, a[..], lo0, hi0, lo, hi, lo, hi, leftmost);
    FramedDone(p, a[..], lo0, hi0, lo, hi);
  }

  lemma GuardedEither(p: Priorities, s0: seq<Channel>, s: seq<Channel>, lo0: int, hi0: int, lo: int, hi: int, leftmost: bool)
    requires Working(p, s0, s, lo0, hi0, lo, hi, false)
    ensures Working(p, s0, s, lo0, hi0, lo, hi, leftmost)
  {
  }

  /** The whole order array becomes a permutation of itself in non-increasing priority. */
  method Sort(p: Priorities, a: array<Channel>, count: nat)
    requires count <= a.Length
    modifies a
    ensures SortedRange(p, a[..], 0, count)
    ensures multiset(a[..count]) == multiset(old(a[..count])) && a[count..] == old(a[count..])
  {
    SortRange(p, a, 0, count, true);
    assert a[..count] == a[..][0..count];
  }
}
