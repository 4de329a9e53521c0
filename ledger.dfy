/// The bookkeeping of pf_run.c as values: three bitmaps standing for three
/// sets of agent slots, counters that count them, and the steps each phase
/// takes on them.
module Ledger {
  import opened Bitops

  /** Two more words than noAgents/64 leave room for every agent's bit. */
  lemma MaskWords(n: nat)
    ensures n < 64 * (2 + n / 64)
  {
  }

  /** How many members of `s` lie below `n`. */
  ghost function Tally(s: set<nat>, n: nat): (c: nat)
    ensures c <= n
  {
    if n == 0 then 0 else Tally(s, n - 1) + (if n - 1 in s then 1 else 0)
  }

  /** The empty set tallies to zero. */
  lemma {:induction false} TallyEmpty(n: nat)
    ensures Tally({}, n) == 0
  {
    if n > 0 {
      TallyEmpty(n - 1);
    }
  }

  /** Sets that agree below `n` have the same tally there. */
  lemma {:induction false} TallySame(s: set<nat>, t: set<nat>, n: nat)
    requires forall k :: k < n ==> (k in s <==> k in t)
    ensures Tally(s, n) == Tally(t, n)
  {
    if n > 0 {
      TallySame(s, t, n - 1);
    }
  }

  /** Adding a new number below `n` adds one to the tally. */
  lemma {:induction false} TallyAdd(s: set<nat>, n: nat, i: nat)
    requires i < n && i !in s
    ensures Tally(s + {i}, n) == Tally(s, n) + 1
  {
    if i < n - 1 {
      TallyAdd(s, n - 1, i);
    } else {
      TallySame(s, s + {i}, n - 1);
    }
  }

  /** Removing a member below `n` takes one from the tally. */
  lemma TallyRemove(s: set<nat>, n: nat, i: nat)
    requires i < n && i in s
    ensures Tally(s - {i}, n) == Tally(s, n) - 1
  {
    TallyAdd(s - {i}, n, i);
    assert s - {i} + {i} == s;
  }

  /** A tally short of `n` leaves a number below `n` out of the set. */
  lemma {:induction false} TallyMissing(s: set<nat>, n: nat)
    requires Tally(s, n) < n
    ensures exists i: nat :: i < n && i !in s
  {
    if n - 1 in s {
      TallyMissing(s, n - 1);
    }
  }

  /**
   * What my_find_first_zero_bit finds on a mask that stands for fewer than
   * `n` slots: the lowest slot outside the set.
   */
  lemma LowestFree(words: seq<bv64>, s: set<nat>, n: nat, i: nat)
    requires Mask(words, s, n) && Tally(s, n) < n
    requires i <= n && (i < n ==> !IsSet(words, i))
    requires forall k: nat :: k < i ==> IsSet(words, k)
    ensures i < n && i !in s && Below(i) <= s
  {
    TallyMissing(s, n);
    var j: nat :| j < n && j !in s;
    MaskMember(words, s, n, j);
    MaskSetBelow(words, s, n, i);
    if i < n {
      MaskMember(words, s, n, i);
    }
  }

  /** A positive tally means some number below `n` is in the set. */
  lemma {:induction false} TallyPresent(s: set<nat>, n: nat)
    requires Tally(s, n) > 0
    ensures exists i: nat :: i < n && i in s
  {
    if n - 1 !in s {
      TallyPresent(s, n - 1);
    }
  }

  /** A set of numbers below `n` whose tally is zero is empty. */
  lemma {:induction false} TallyZero(s: set<nat>, n: nat)
    requires forall k :: k in s ==> k < n
    requires Tally(s, n) == 0
    ensures s == {}
  {
    if s != {} {
      var k :| k in s;
      TallyCard(s, n);
    }
  }

  /**
   * What my_find_first_bit finds on a mask that stands for a nonempty set
   * of slots: its lowest member.
   */
  lemma LowestMember(words: seq<bv64>, s: set<nat>, n: nat, i: nat)
    requires Mask(words, s, n) && Tally(s, n) > 0
    requires i <= n && (i < n ==> IsSet(words, i))
    requires forall k: nat :: k < i ==> !IsSet(words, k)
    ensures i < n && i in s && forall k :: k in s ==> i <= k
  {
    TallyPresent(s, n);
    var j: nat :| j < n && j in s;
    MaskMember(words, s, n, j);
    MaskClearBelow(words, s, n, i);
    if i < n {
      MaskMember(words, s, n, i);
    }
  }

  /** A tally of `n` means every number below `n` is in the set. */
  lemma {:induction false} TallyFull(s: set<nat>, n: nat)
    requires Tally(s, n) == n
    ensures Below(n) <= s
  {
    if n > 0 {
      TallyFull(s, n - 1);
    }
  }

  /** For a set of numbers below `n`, the tally is its size. */
  lemma {:induction false} TallyCard(s: set<nat>, n: nat)
    requires forall k :: k in s ==> k < n
    ensures Tally(s, n) == |s|
  {
    if n > 0 {
      var t := s - {n - 1};
      TallyCard(t, n - 1);
      TallySame(s, t, n - 1);
      if n - 1 in s {
        assert s == t + {n - 1};
      } else {
        assert s == t;
      }
    }
  }

  /** The slots whose bit is set in has_sock_mask, need_conn_mask and did_conn_mask. */
  datatype SlotSets = SlotSets(hasSock: set<nat>, needConn: set<nat>, didConn: set<nat>)

  /**
   * The bookkeeping on the slot sets: each counter is the number of slots
   * in its set, and the slots with a socket are exactly those waiting to
   * connect and those connected, never both.
   */
  ghost predicate Part(has: set<nat>, need: set<nat>, did: set<nat>, hc: nat, nc: nat, dc: nat, n: nat)
  {
    && hc == Tally(has, n) && nc == Tally(need, n) && dc == Tally(did, n)
    && has == need + did
    && need !! did
  }

  /** A new socket on a slot without one keeps the partition. */
  lemma PartOpen(has: set<nat>, need: set<nat>, did: set<nat>, hc: nat, nc: nat, dc: nat, n: nat, i: nat)
    requires Part(has, need, did, hc, nc, dc, n) && i < n && i !in has
    ensures Part(has + {i}, need + {i}, did, hc + 1, nc + 1, dc, n)
  {
    TallyAdd(has, n, i);
    TallyAdd(need, n, i);
  }

  /** Moving a waiting slot to the connected ones keeps the partition. */
  lemma PartConnect(has: set<nat>, need: set<nat>, did: set<nat>, hc: nat, nc: nat, dc: nat, n: nat, i: nat)
    requires Part(has, need, did, hc, nc, dc, n) && i < n && i in need
    ensures nc > 0
    ensures Part(has, need - {i}, did + {i}, hc, nc - 1, dc + 1, n)
  {
    TallyRemove(need, n, i);
    TallyAdd(did, n, i);
  }

  /** Dropping a waiting slot keeps the partition. */
  lemma PartDropWaiting(has: set<nat>, need: set<nat>, did: set<nat>, hc: nat, nc: nat, dc: nat, n: nat, i: nat)
    requires Part(has, need, did, hc, nc, dc, n) && i < n && i in need
    ensures hc > 0 && nc > 0
    ensures Part(has - {i}, need - {i}, did, hc - 1, nc - 1, dc, n)
  {
    TallyRemove(has, n, i);
    TallyRemove(need, n, i);
  }

  /** Dropping a connected slot keeps the partition. */
  lemma PartDropConnected(has: set<nat>, need: set<nat>, did: set<nat>, hc: nat, nc: nat, dc: nat, n: nat, i: nat)
    requires Part(has, need, did, hc, nc, dc, n) && i < n && i in did
    ensures hc > 0 && dc > 0
    ensures Part(has - {i}, need, did - {i}, hc - 1, nc, dc - 1, n)
  {
    TallyRemove(has, n, i);
    TallyRemove(did, n, i);
  }

  /**
   * The bitmap bookkeeping of pf_state_t: each bitmap stands for its slot
   * set, and the sets and counters keep Part.
   */
  ghost predicate Books(hw: seq<bv64>, nw: seq<bv64>, dw: seq<bv64>,
                        has: set<nat>, need: set<nat>, did: set<nat>, hc: nat, nc: nat, dc: nat, n: nat)
  {
    && Mask(hw, has, n) && Mask(nw, need, n) && Mask(dw, did, n)
    && Part(has, need, did, hc, nc, dc, n)
  }

  /** A new socket on a free slot (pf_run.c:219-223) keeps the books. */
  lemma BooksOpen(hw: seq<bv64>, nw: seq<bv64>, dw: seq<bv64>,
                  has: set<nat>, need: set<nat>, did: set<nat>, hc: nat, nc: nat, dc: nat, n: nat, i: nat)
    requires Books(hw, nw, dw, has, need, did, hc, nc, dc, n)
    requires i < n && i !in has
    ensures Books(WithBitSet(hw, i), WithBitSet(nw, i), dw, has + {i}, need + {i}, did, hc + 1, nc + 1, dc, n)
  {
    PartOpen(has, need, did, hc, nc, dc, n, i);
    MaskSet(hw, has, n, i);
    MaskSet(nw, need, n, i);
  }

  /** A slot that connected (pf_run.c:275-279) moves from waiting to connected. */
  lemma BooksConnect(hw: seq<bv64>, nw: seq<bv64>, dw: seq<bv64>,
                     has: set<nat>, need: set<nat>, did: set<nat>, hc: nat, nc: nat, dc: nat, n: nat, i: nat)
    requires Books(hw, nw, dw, has, need, did, hc, nc, dc, n)
    requires i < n && i in need
    ensures nc > 0
    ensures Books(hw, WithBitCleared(nw, i), WithBitSet(dw, i), has, need - {i}, did + {i}, hc, nc - 1, dc + 1, n)
  {
    PartConnect(has, need, did, hc, nc, dc, n, i);
    MaskClear(nw, need, n, i);
    MaskSet(dw, did, n, i);
  }

  /** A slot that failed to connect (pf_run.c:263-266) loses its socket and stops waiting. */
  lemma BooksDropWaiting(hw: seq<bv64>, nw: seq<bv64>, dw: seq<bv64>,
                         has: set<nat>, need: set<nat>, did: set<nat>, hc: nat, nc: nat, dc: nat, n: nat, i: nat)
    requires Books(hw, nw, dw, has, need, did, hc, nc, dc, n)
    requires i < n && i in need
    ensures hc > 0 && nc > 0
    ensures Books(WithBitCleared(hw, i), WithBitCleared(nw, i), dw, has - {i}, need - {i}, did, hc - 1, nc - 1, dc, n)
  {
    PartDropWaiting(has, need, did, hc, nc, dc, n, i);
    MaskClear(hw, has, n, i);
    MaskClear(nw, need, n, i);
  }

  /** A connected slot that closes (pf_run.c:387-390) loses its socket and its connection. */
  lemma BooksDropConnected(hw: seq<bv64>, nw: seq<bv64>, dw: seq<bv64>,
                           has: set<nat>, need: set<nat>, did: set<nat>, hc: nat, nc: nat, dc: nat, n: nat, i: nat)
    requires Books(hw, nw, dw, has, need, did, hc, nc, dc, n)
    requires i < n && i in did
    ensures hc > 0 && dc > 0
    ensures Books(WithBitCleared(hw, i), nw, WithBitCleared(dw, i), has - {i}, need, did - {i}, hc - 1, nc, dc - 1, n)
  {
    PartDropConnected(has, need, did, hc, nc, dc, n, i);
    MaskClear(hw, has, n, i);
    MaskClear(dw, did, n, i);
  }

  /** clear_bit(nr) on one bitmap, then set_bit(nr) on another, leaving a third alone. */
  method MoveBit(nr: nat, a: array<bv64>, b: array<bv64>, c: array<bv64>)
    requires a != b && a != c && b != c
    requires BitopWord(nr) < a.Length && BitopWord(nr) < b.Length
    modifies a, b
    ensures a[..] == WithBitCleared(old(a[..]), nr)
    ensures b[..] == WithBitSet(old(b[..]), nr)
    ensures c[..] == old(c[..])
  {
    ClearBit(nr, a);
    ghost var a1 := a[..];
    SetBit(nr, b);
    assert a[..] == a1;
  }

  /** clear_bit(nr) on two distinct bitmaps, leaving a third alone. */
  method ClearBoth(nr: nat, a: array<bv64>, b: array<bv64>, c: array<bv64>)
    requires a != b && a != c && b != c
    requires BitopWord(nr) < a.Length && BitopWord(nr) < b.Length
    modifies a, b
    ensures a[..] == WithBitCleared(old(a[..]), nr)
    ensures b[..] == WithBitCleared(old(b[..]), nr)
    ensures c[..] == old(c[..])
  {
    ClearBit(nr, a);
    ghost var a1 := a[..];
    ClearBit(nr, b);
    assert a[..] == a1;
  }

  /** set_bit(nr) on two distinct bitmaps, leaving a third alone. */
  method SetBoth(nr: nat, a: array<bv64>, b: array<bv64>, c: array<bv64>)
    requires a != b && a != c && b != c
    requires BitopWord(nr) < a.Length && BitopWord(nr) < b.Length
    modifies a, b
    ensures a[..] == WithBitSet(old(a[..]), nr)
    ensures b[..] == WithBitSet(old(b[..]), nr)
    ensures c[..] == old(c[..])
  {
    SetBit(nr, a);
    ghost var a1 := a[..];
    SetBit(nr, b);
    assert a[..] == a1;
  }

  /**
   * One step of pf_state_open_sockets on the slot sets: the slots that
   * gained a socket all lie below `lo`, every slot below `lo` has one, and
   * `i` is the lowest slot without a socket.
   */
  lemma OpenStep(has0: set<nat>, has: set<nat>, lo: nat, i: nat)
    requires forall k :: k in has ==> k in has0 || k < lo
    requires Below(lo) <= has
    requires Below(i) <= has && i !in has
    ensures lo <= i
    ensures forall k :: k in has + {i} ==> k in has0 || k < i + 1
    ensures Below(i + 1) <= has + {i}
  {
  }

  /** Once every slot has a socket, the waiting ones are all but the connected ones. */
  lemma OpenDone(has0: set<nat>, need0: set<nat>, has: set<nat>, need: set<nat>, did: set<nat>, n: nat)
    requires has0 == need0 + did && need0 !! did
    requires has == need + did && need !! did
    requires has == Below(n) && has0 <= has
    ensures need == need0 + (Below(n) - has0)
  {
  }

  /**
   * One step of pf_state_create_connections on the slot sets: the slots
   * that were waiting below `lo` are connected, and `i` is the lowest slot
   * still waiting.
   */
  lemma ConnectStep(need0: set<nat>, did0: set<nat>, need: set<nat>, did: set<nat>, lo: nat, i: nat)
    requires need == need0 - Below(lo)
    requires did == did0 + need0 * Below(lo)
    requires i in need && forall k :: k in need ==> i <= k
    ensures i in need0 && lo <= i
    ensures forall k :: k in need0 && lo <= k < i ==> false
    ensures need - {i} == need0 - Below(i + 1)
    ensures did + {i} == did0 + need0 * Below(i + 1)
  {
    assert forall k :: k in need0 && lo <= k ==> k in need;
    assert need0 * Below(i + 1) == need0 * Below(lo) + {i};
  }

  /** When no slot waits any more, every waiting slot was connected. */
  lemma ConnectDone(need0: set<nat>, did0: set<nat>, need: set<nat>, did: set<nat>, n: nat, lo: nat, f: nat)
    requires forall k :: k in need0 ==> k < n
    requires need == need0 - Below(lo) && need == {}
    requires did == did0 + need0 * Below(lo)
    requires lo <= f <= n && (f < n ==> f in need0)
    ensures f == n && forall k :: k in need0 ==> k < lo
    ensures need == need0 - Below(n + 1)
    ensures did == did0 + need0 * Below(n)
  {
    assert need0 * Below(lo) == need0;
    assert need0 * Below(n) == need0;
  }

  /** The members of `did` below `m`: the slots a scan up to `m` has selected. */
  ghost function Joined(did: set<nat>, m: nat): (s: set<nat>)
    ensures forall k :: k in s <==> k in did && k < m
  {
    if m == 0 then {} else Joined(did, m - 1) + (if m - 1 in did then {m - 1} else {})
  }

}
