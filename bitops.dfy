/// Word-array bitmaps, as in pf_bitops.h: bit `nr` lives in word
/// `nr / 64` at position `nr % 64`: BITS_PER_LONG is 64, the width of an
/// `unsigned long` on an LP64 target, written as a literal throughout.
module Bitops {

  /** BITOP_MASK(nr): the word with only bit `nr % 64` set. */
  function BitopMask(nr: nat): bv64 {
    1 << (nr % 64)
  }

  /** BITOP_WORD(nr): the index of the word that holds bit `nr`. */
  function BitopWord(nr: nat): nat {
    nr / 64
  }

  /** BITOP_MASK(nr) has exactly one bit set, the one at position `nr % 64`. */
  lemma MaskIsOneBit(nr: nat)
    ensures var m := BitopMask(nr); m >> (nr % 64) == 1 && m & (m - 1) == 0
  {
  }

  /** Word BITOP_WORD(nr) holds bits `64 * BITOP_WORD(nr)` up to 63 more, and `nr` among them. */
  lemma WordHoldsBit(nr: nat)
    ensures 64 * BitopWord(nr) <= nr < 64 * BitopWord(nr) + 64
  {
  }

  /** Reference meaning of "bit `nr` is set": its word, masked, is non-zero. */
  ghost predicate IsSet(words: seq<bv64>, nr: nat)
    requires BitopWord(nr) < |words|
  {
    words[BitopWord(nr)] & BitopMask(nr) != 0
  }

  /** test_bit: shift the word right by the bit position and keep the low bit. */
  function TestBit(nr: nat, words: seq<bv64>): (r: int)
    requires BitopWord(nr) < |words|
    ensures r == 1 <==> IsSet(words, nr)
    ensures r == 0 <==> !IsSet(words, nr)
  {
    (1 & (words[BitopWord(nr)] >> (nr % 64))) as int
  }

  /** The words as set_bit(nr) leaves them. */
  function WithBitSet(words: seq<bv64>, nr: nat): (r: seq<bv64>)
    requires BitopWord(nr) < |words|
    ensures |r| == |words|
  {
    words[BitopWord(nr) := words[BitopWord(nr)] | BitopMask(nr)]
  }

  /** The words as clear_bit(nr) leaves them. */
  function WithBitCleared(words: seq<bv64>, nr: nat): (r: seq<bv64>)
    requires BitopWord(nr) < |words|
    ensures |r| == |words|
  {
    words[BitopWord(nr) := words[BitopWord(nr)] & !BitopMask(nr)]
  }

  /** set_bit: or the mask into the word in place. */
  method SetBit(nr: nat, addr: array<bv64>)
    requires BitopWord(nr) < addr.Length
    modifies addr
    ensures addr[..] == WithBitSet(old(addr[..]), nr)
  {
    addr[BitopWord(nr)] := addr[BitopWord(nr)] | BitopMask(nr);
  }

  /** clear_bit: and the complement of the mask into the word in place. */
  method ClearBit(nr: nat, addr: array<bv64>)
    requires BitopWord(nr) < addr.Length
    modifies addr
    ensures addr[..] == WithBitCleared(old(addr[..]), nr)
  {
    addr[BitopWord(nr)] := addr[BitopWord(nr)] & !BitopMask(nr);
  }

  // Single-word facts, proved by the solver's bit-vector reasoning.

  lemma LowerMaskDisjoint(j: nat, k: nat)
    requires j < k < 64
    ensures (1 as bv64 << j) & (1 << k) == 0
  {
  }

  /** Masks of two different positions share no bit. */
  lemma MasksDisjoint(j: nat, k: nat)
    requires j < 64 && k < 64 && j != k
    ensures (1 as bv64 << j) & (1 << k) == 0
  {
    if j < k {
      LowerMaskDisjoint(j, k);
    } else {
      LowerMaskDisjoint(k, j);
    }
  }

  lemma OrDisjoint(w: bv64, a: bv64, b: bv64)
    requires a & b == 0
    ensures (w | a) & b == w & b
  {
  }

  lemma AndNotDisjoint(w: bv64, a: bv64, b: bv64)
    requires a & b == 0
    ensures (w & !a) & b == w & b
  {
  }

  lemma OrKeepsOtherBit(w: bv64, j: nat, k: nat)
    requires j < 64 && k < 64 && j != k
    ensures (w | (1 << j)) & (1 << k) == w & (1 << k)
  {
    MasksDisjoint(j, k);
    OrDisjoint(w, 1 << j, 1 << k);
  }

  lemma OrSetsBit(w: bv64, j: nat)
    requires j < 64
    ensures (w | (1 << j)) & (1 << j) != 0
  {
  }

  lemma AndNotClearsBit(w: bv64, j: nat)
    requires j < 64
    ensures (w & !(1 << j)) & (1 << j) == 0
  {
  }

  lemma AndNotKeepsOtherBit(w: bv64, j: nat, k: nat)
    requires j < 64 && k < 64 && j != k
    ensures (w & !(1 << j)) & (1 << k) == w & (1 << k)
  {
    MasksDisjoint(j, k);
    AndNotDisjoint(w, 1 << j, 1 << k);
  }

  lemma OrKeepsOtherMask(w: bv64, nr: nat, m: nat)
    requires nr % 64 != m % 64
    ensures (w | BitopMask(nr)) & BitopMask(m) == w & BitopMask(m)
  {
    OrKeepsOtherBit(w, nr % 64, m % 64);
  }

  lemma ClearKeepsOtherMask(w: bv64, nr: nat, m: nat)
    requires nr % 64 != m % 64
    ensures (w & !BitopMask(nr)) & BitopMask(m) == w & BitopMask(m)
  {
    AndNotKeepsOtherBit(w, nr % 64, m % 64);
  }

  /** Two different bit numbers in the same word have different positions. */
  lemma SameWordOtherPosition(nr: nat, m: nat)
    requires BitopWord(nr) == BitopWord(m) && nr != m
    ensures nr % 64 != m % 64
  {
  }

  // What set_bit and clear_bit do to one bit, split by where that bit lies.

  lemma SetBitSameBit(words: seq<bv64>, nr: nat)
    requires BitopWord(nr) < |words|
    ensures IsSet(WithBitSet(words, nr), nr)
  {
    OrSetsBit(words[BitopWord(nr)], nr % 64);
  }

  lemma SetBitSameWord(words: seq<bv64>, nr: nat, m: nat)
    requires BitopWord(nr) < |words| && BitopWord(m) == BitopWord(nr) && m != nr
    ensures IsSet(WithBitSet(words, nr), m) == IsSet(words, m)
  {
    var r := WithBitSet(words, nr);
    assert r[BitopWord(m)] & BitopMask(m) == words[BitopWord(m)] & BitopMask(m) by {
      SameWordOtherPosition(nr, m);
      OrKeepsOtherMask(words[BitopWord(nr)], nr, m);
    }
  }

  lemma SetBitOtherWord(words: seq<bv64>, nr: nat, m: nat)
    requires BitopWord(nr) < |words| && BitopWord(m) < |words| && BitopWord(m) != BitopWord(nr)
    ensures IsSet(WithBitSet(words, nr), m) == IsSet(words, m)
  {
  }

  lemma ClearBitSameBit(words: seq<bv64>, nr: nat)
    requires BitopWord(nr) < |words|
    ensures !IsSet(WithBitCleared(words, nr), nr)
  {
    AndNotClearsBit(words[BitopWord(nr)], nr % 64);
  }

  lemma ClearBitSameWord(words: seq<bv64>, nr: nat, m: nat)
    requires BitopWord(nr) < |words| && BitopWord(m) == BitopWord(nr) && m != nr
    ensures IsSet(WithBitCleared(words, nr), m) == IsSet(words, m)
  {
    var r := WithBitCleared(words, nr);
    assert r[BitopWord(m)] & BitopMask(m) == words[BitopWord(m)] & BitopMask(m) by {
      SameWordOtherPosition(nr, m);
      ClearKeepsOtherMask(words[BitopWord(nr)], nr, m);
    }
  }

  lemma ClearBitOtherWord(words: seq<bv64>, nr: nat, m: nat)
    requires BitopWord(nr) < |words| && BitopWord(m) < |words| && BitopWord(m) != BitopWord(nr)
    ensures IsSet(WithBitCleared(words, nr), m) == IsSet(words, m)
  {
  }

  /** After set_bit(nr), test_bit(nr) is 1 and every other bit reads as before. */
  lemma SetBitEffect(words: seq<bv64>, nr: nat, m: nat)
    requires BitopWord(nr) < |words| && BitopWord(m) < |words|
    ensures TestBit(m, WithBitSet(words, nr)) == if m == nr then 1 else TestBit(m, words)
  {
    if m == nr {
      SetBitSameBit(words, nr);
    } else if BitopWord(m) == BitopWord(nr) {
      SetBitSameWord(words, nr, m);
    } else {
      SetBitOtherWord(words, nr, m);
    }
  }

  /** After clear_bit(nr), test_bit(nr) is 0 and every other bit reads as before. */
  lemma ClearBitEffect(words: seq<bv64>, nr: nat, m: nat)
    requires BitopWord(nr) < |words| && BitopWord(m) < |words|
    ensures TestBit(m, WithBitCleared(words, nr)) == if m == nr then 0 else TestBit(m, words)
  {
    if m == nr {
      ClearBitSameBit(words, nr);
    } else if BitopWord(m) == BitopWord(nr) {
      ClearBitSameWord(words, nr, m);
    } else {
      ClearBitOtherWord(words, nr, m);
    }
  }

  /** set_bit twice is set_bit once. */
  lemma SetBitIdempotent(words: seq<bv64>, nr: nat)
    requires BitopWord(nr) < |words|
    ensures WithBitSet(WithBitSet(words, nr), nr) == WithBitSet(words, nr)
  {
  }

  /** clear_bit twice is clear_bit once. */
  lemma ClearBitIdempotent(words: seq<bv64>, nr: nat)
    requires BitopWord(nr) < |words|
    ensures WithBitCleared(WithBitCleared(words, nr), nr) == WithBitCleared(words, nr)
  {
  }

  /** my_find_first_bit: the lowest set bit below `max`, or `max` when there is none. */
  method FindFirstBit(data: array<bv64>, max: nat) returns (n: nat)
    requires max <= 64 * data.Length
    ensures n <= max
    ensures n < max ==> IsSet(data[..], n)
    ensures forall k: nat :: k < n ==> !IsSet(data[..], k)
  {
    n := 0;
    while n < max
      invariant n <= max
      invariant forall k: nat :: k < n ==> !IsSet(data[..], k)
    {
      if TestBit(n, data[..]) == 1 {
        return;
      }
      n := n + 1;
    }
  }

  /** my_find_first_zero_bit: the lowest clear bit below `max`, or `max` when all are set. */
  method FindFirstZeroBit(data: array<bv64>, max: nat) returns (n: nat)
    requires max <= 64 * data.Length
    ensures n <= max
    ensures n < max ==> !IsSet(data[..], n)
    ensures forall k: nat :: k < n ==> IsSet(data[..], k)
  {
    n := 0;
    while n < max
      invariant n <= max
      invariant forall k: nat :: k < n ==> IsSet(data[..], k)
    {
      if TestBit(n, data[..]) == 0 {
        return;
      }
      n := n + 1;
    }
  }

  // The set of agents a mask stands for, and its cardinality.

  /** The bit numbers below `n` that are set. */
  ghost function Members(words: seq<bv64>, n: nat): (s: set<nat>)
    requires n <= 64 * |words|
    ensures forall i :: i in s ==> i < n
  {
    if n == 0 then {} else Members(words, n - 1) + (if IsSet(words, n - 1) then {n - 1} else {})
  }

  /** A number is a member exactly when it is below `n` and its bit is set. */
  lemma {:induction false} MemberIff(words: seq<bv64>, n: nat, i: nat)
    requires n <= 64 * |words|
    ensures i in Members(words, n) <==> i < n && IsSet(words, i)
  {
    if n > 0 {
      MemberIff(words, n - 1, i);
    }
  }

  /**
   * The mask `words` stands for the set `s` of numbers below `n`: its set
   * bits are exactly the members of `s`, and none is at or above `n`.
   */
  ghost predicate Mask(words: seq<bv64>, s: set<nat>, n: nat)
  {
    && n <= 64 * |words|
    && Members(words, 64 * |words|) == s
    && forall k :: k in s ==> k < n
  }

  /** Below `n`, a number is in the set a mask stands for exactly when its bit is set. */
  lemma MaskMember(words: seq<bv64>, s: set<nat>, n: nat, k: nat)
    requires Mask(words, s, n) && k < n
    ensures k in s <==> IsSet(words, k)
  {
    MemberIff(words, 64 * |words|, k);
  }

  /** The numbers below `n`: the slots of `n` agents. */
  ghost function Below(n: nat): (s: set<nat>)
    ensures forall i: nat :: i in s <==> i < n
  {
    if n == 0 then {} else Below(n - 1) + {n - 1}
  }

  /** Setting bit `nr` below `m` adds it to the members below `m`. */
  lemma SetMembers(words: seq<bv64>, m: nat, nr: nat)
    requires nr < m <= 64 * |words|
    ensures Members(WithBitSet(words, nr), m) == Members(words, m) + {nr}
  {
    var r := WithBitSet(words, nr);
    forall k: nat
      ensures k in Members(r, m) <==> k in Members(words, m) + {nr}
    {
      MemberIff(r, m, k);
      MemberIff(words, m, k);
      if k < m {
        SetBitEffect(words, nr, k);
      }
    }
  }

  /** Clearing bit `nr` below `m` removes it from the members below `m`. */
  lemma ClearMembers(words: seq<bv64>, m: nat, nr: nat)
    requires nr < m <= 64 * |words|
    ensures Members(WithBitCleared(words, nr), m) == Members(words, m) - {nr}
  {
    var r := WithBitCleared(words, nr);
    forall k: nat
      ensures k in Members(r, m) <==> k in Members(words, m) - {nr}
    {
      MemberIff(r, m, k);
      MemberIff(words, m, k);
      if k < m {
        ClearBitEffect(words, nr, k);
      }
    }
  }

  /** set_bit(nr) on a mask adds `nr` to the set it stands for. */
  lemma MaskSet(words: seq<bv64>, s: set<nat>, n: nat, nr: nat)
    requires Mask(words, s, n) && nr < n
    ensures Mask(WithBitSet(words, nr), s + {nr}, n)
  {
    SetMembers(words, 64 * |words|, nr);
  }

  /** clear_bit(nr) on a mask removes `nr` from the set it stands for. */
  lemma MaskClear(words: seq<bv64>, s: set<nat>, n: nat, nr: nat)
    requires Mask(words, s, n) && nr < n
    ensures Mask(WithBitCleared(words, nr), s - {nr}, n)
  {
    ClearMembers(words, 64 * |words|, nr);
  }

  /** When every bit below `i` is set, every number below `i` is in the set. */
  lemma MaskSetBelow(words: seq<bv64>, s: set<nat>, n: nat, i: nat)
    requires Mask(words, s, n) && i <= n
    requires forall k: nat :: k < i ==> IsSet(words, k)
    ensures Below(i) <= s
  {
    forall k: nat | k < i
      ensures k in s
    {
      MaskMember(words, s, n, k);
    }
  }

  /** When no bit below `i` is set, no number below `i` is in the set. */
  lemma MaskClearBelow(words: seq<bv64>, s: set<nat>, n: nat, i: nat)
    requires Mask(words, s, n) && i <= n
    requires forall k: nat :: k < i ==> !IsSet(words, k)
    ensures forall k :: k in s ==> i <= k
  {
    forall k | k in s
      ensures i <= k
    {
      MaskMember(words, s, n, k);
    }
  }

  /** Zero-filled words (as calloc returns them) stand for the empty set. */
  lemma ZeroMask(words: seq<bv64>, n: nat)
    requires n <= 64 * |words|
    requires forall k :: 0 <= k < |words| ==> words[k] == 0
    ensures Mask(words, {}, n)
  {
    forall m: nat
      ensures m !in Members(words, 64 * |words|)
    {
      MemberIff(words, 64 * |words|, m);
    }
  }
}
